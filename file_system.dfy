/**
 * The part of the file system that code generation touches: files with
 * their contents and directories. A path is its list of components,
 * relative to the directory `moli` runs in; the empty path is that
 * directory, which always exists.
 */
module FileSystem {
  import opened Results

  type Path = seq<string>

  /**
   * The content updater for a module manifest, which is not part of this
   * model: from the file's current content (`None` when absent) and the
   * declarations, the new content.
   */
  type Updater = (Option<string>, seq<string>) -> string

  /** How a generation step ends: done, or stopped at the path it could not create, write or remove. */
  datatype Outcome = Done | Failed(path: Path)

  /** The directories `create_dir_all(p)` makes: `p` and every non-empty prefix of it. */
  function Ancestors(p: Path): (s: set<Path>)
    ensures p != [] ==> p in s
    ensures forall q :: q in s ==> |q| > 0 && |q| <= |p| && q == p[..|q|]
  {
    assert p != [] ==> p[..|p|] == p;
    set k | 1 <= k <= |p| :: p[..k]
  }

  /** Whether `p` is `q` or lies under it. */
  predicate Under(q: Path, p: Path) {
    |q| <= |p| && p[..|q|] == q
  }

  /** Every file of `before` is still there with the same content. */
  predicate Kept(before: map<Path, string>, after: map<Path, string>) {
    forall p :: p in before ==> p in after && after[p] == before[p]
  }

  /** As `Kept`, except that a file whose last component is `leaf` may have new content. */
  predicate KeptExcept(before: map<Path, string>, after: map<Path, string>, leaf: string) {
    forall p :: p in before ==> p in after && (after[p] == before[p] || (|p| > 0 && p[|p| - 1] == leaf))
  }

  lemma KeptTrans(a: map<Path, string>, b: map<Path, string>, c: map<Path, string>)
    requires Kept(a, b) && Kept(b, c)
    ensures Kept(a, c)
  {
  }

  lemma KeptExceptTrans(a: map<Path, string>, b: map<Path, string>, c: map<Path, string>, leaf: string)
    requires KeptExcept(a, b, leaf) && KeptExcept(b, c, leaf)
    ensures KeptExcept(a, c, leaf)
  {
  }

  lemma KeptIsKeptExcept(a: map<Path, string>, b: map<Path, string>, leaf: string)
    requires Kept(a, b)
    ensures KeptExcept(a, b, leaf)
  {
  }

  /** `p` exists among these files and directories (the empty path always does). */
  predicate Present(files: map<Path, string>, dirs: set<Path>, p: Path) {
    p == [] || p in dirs || p in files
  }

  /** Every file that is new or has new content lies strictly under `dir`. */
  predicate ChangedOnlyUnder(before: map<Path, string>, after: map<Path, string>, dir: Path) {
    forall q :: q in after && (q !in before || after[q] != before[q]) ==> |q| > |dir| && q[..|dir|] == dir
  }

  /** `q` is absent from both, or present in both with the same content. */
  predicate Same(before: map<Path, string>, after: map<Path, string>, q: Path) {
    (q in before <==> q in after) && (q in before ==> after[q] == before[q])
  }

  lemma ChangedOnlyUnderTrans(a: map<Path, string>, b: map<Path, string>, c: map<Path, string>, dir: Path)
    requires ChangedOnlyUnder(a, b, dir) && ChangedOnlyUnder(b, c, dir)
    ensures ChangedOnlyUnder(a, c, dir)
  {
  }

  /** Changes under `dir + [x]` are changes under `dir`. */
  lemma ChangedOnlyUnderWiden(a: map<Path, string>, b: map<Path, string>, dir: Path, x: string)
    requires ChangedOnlyUnder(a, b, dir + [x])
    ensures ChangedOnlyUnder(a, b, dir)
  {
    forall q | q in b && (q !in a || b[q] != a[q]) ensures |q| > |dir| && q[..|dir|] == dir {
      assert q[..|dir|] == q[..|dir| + 1][..|dir|];
    }
  }

  /** A path no longer than `dir` is untouched by changes confined under `dir`, provided none is removed. */
  lemma ShortPathSame(a: map<Path, string>, b: map<Path, string>, dir: Path, q: Path)
    requires ChangedOnlyUnder(a, b, dir) && a.Keys <= b.Keys && |q| <= |dir|
    ensures Same(a, b, q)
  {
  }

  /** Every file that is new or has new content lies at least two levels under `dir`. */
  predicate ChangedOnlyDeeper(before: map<Path, string>, after: map<Path, string>, dir: Path) {
    forall q :: q in after && (q !in before || after[q] != before[q]) ==> |q| > |dir| + 1 && q[..|dir|] == dir
  }

  /** Changes confined under a child of `dir` lie at least two levels under `dir`. */
  lemma ChangedOnlyUnderChild(a: map<Path, string>, b: map<Path, string>, dir: Path, x: string)
    requires ChangedOnlyUnder(a, b, dir + [x])
    ensures ChangedOnlyDeeper(a, b, dir)
  {
    forall q | q in b && (q !in a || b[q] != a[q]) ensures |q| > |dir| + 1 && q[..|dir|] == dir {
      assert q[..|dir|] == q[..|dir| + 1][..|dir|];
    }
  }

  lemma ChangedOnlyDeeperTrans(a: map<Path, string>, b: map<Path, string>, c: map<Path, string>, dir: Path)
    requires ChangedOnlyDeeper(a, b, dir) && ChangedOnlyDeeper(b, c, dir)
    ensures ChangedOnlyDeeper(a, c, dir)
  {
  }

  lemma DeeperIsUnder(a: map<Path, string>, b: map<Path, string>, dir: Path)
    requires ChangedOnlyDeeper(a, b, dir)
    ensures ChangedOnlyUnder(a, b, dir)
  {
  }

  /** A direct child of `dir` is untouched by changes at least two levels under `dir`, provided none is removed. */
  lemma DeeperChildSame(a: map<Path, string>, b: map<Path, string>, dir: Path, x: string)
    requires ChangedOnlyDeeper(a, b, dir) && a.Keys <= b.Keys
    ensures Same(a, b, dir + [x])
  {
  }

  /**
   * Writing `content` at `p` only if nothing is there: an existing file or
   * directory is left alone; otherwise the file is created when its parent
   * is a directory, and the write fails when it is not.
   */
  predicate WroteIfAbsent(before: map<Path, string>, dirs: set<Path>, after: map<Path, string>, p: Path, content: string, r: Outcome) {
    if Present(before, dirs, p) then r == Done && after == before
    else if p[..|p| - 1] == [] || p[..|p| - 1] in dirs then r == Done && after == before[p := content]
    else r == Failed(p) && after == before
  }

  lemma KeptExceptKeys(a: map<Path, string>, b: map<Path, string>, leaf: string)
    requires KeptExcept(a, b, leaf)
    ensures a.Keys <= b.Keys
  {
  }

  /** The files and directories, updated in place by the generators. */
  class Fs {
    var files: map<Path, string>
    var dirs: set<Path>

    constructor (files0: map<Path, string>, dirs0: set<Path>)
      ensures files == files0 && dirs == dirs0
    {
      files, dirs := files0, dirs0;
    }

    predicate IsDir(p: Path)
      reads this
    {
      p == [] || p in dirs
    }

    /** `Path::exists`: a directory or a file is there. */
    predicate Exists(p: Path)
      reads this
    {
      Present(files, dirs, p)
    }

    /** Some prefix of `p` is taken by something that is not a directory. */
    predicate Blocked(p: Path)
      reads this
    {
      exists k :: 1 <= k <= |p| && p[..k] in files && !IsDir(p[..k])
    }

    /** `fs::write(p, _)` can succeed: `p` is not a directory and its parent is one. */
    predicate Writable(p: Path)
      reads this
    {
      p != [] && !IsDir(p) && IsDir(p[..|p| - 1])
    }

    /**
     * `fs::create_dir_all(p)`: fails when a prefix of the path is a file,
     * and otherwise makes every missing directory along the path.
     */
    method CreateDirAll(p: Path) returns (r: Outcome)
      modifies this
      ensures r == Done <==> !old(Blocked(p))
      ensures r.Failed? ==> r.path == p && dirs == old(dirs)
      ensures r == Done ==> dirs == old(dirs) + Ancestors(p)
      ensures files == old(files)
    {
      if Blocked(p) {
        return Failed(p);
      }
      dirs := dirs + Ancestors(p);
      return Done;
    }

    /** `fs::write(p, content)`: replaces or creates the file. */
    method Write(p: Path, content: string) returns (r: Outcome)
      modifies this
      ensures r == Done <==> old(Writable(p))
      ensures r.Failed? ==> r.path == p && files == old(files)
      ensures r == Done ==> files == old(files)[p := content]
      ensures dirs == old(dirs)
    {
      if !Writable(p) {
        return Failed(p);
      }
      files := files[p := content];
      return Done;
    }

    /**
     * `if !p.exists() { fs::write(p, content)? }`: a file is written only
     * where nothing is, so existing content is never touched.
     */
    method CreateIfAbsent(p: Path, content: string) returns (r: Outcome)
      modifies this
      ensures old(Exists(p)) ==> r == Done && files == old(files)
      ensures !old(Exists(p)) ==> (r == Done <==> old(Writable(p)))
      ensures !old(Exists(p)) && r == Done ==> files == old(files)[p := content]
      ensures r.Failed? ==> r.path == p && files == old(files)
      ensures r == Done ==> Exists(p)
      ensures Kept(old(files), files)
      ensures dirs == old(dirs)
      ensures WroteIfAbsent(old(files), old(dirs), files, p, content, r)
    {
      if Exists(p) {
        return Done;
      }
      r := Write(p, content);
    }

    /**
     * The content updater rewriting the manifest at `p` from its current
     * content and the declarations, then writing it like `fs::write`.
     */
    method Update(p: Path, decls: seq<string>, update: Updater) returns (r: Outcome, ghost prior: Option<string>)
      modifies this
      ensures prior == if p in old(files) then Some(old(files)[p]) else None
      ensures r == Done <==> old(Writable(p))
      ensures r == Done ==> files == old(files)[p := update(prior, decls)]
      ensures r.Failed? ==> r.path == p && files == old(files)
      ensures dirs == old(dirs)
    {
      prior := if p in files then Some(files[p]) else None;
      var current := if p in files then Some(files[p]) else None;
      r := Write(p, update(current, decls));
    }

    /** `fs::remove_dir_all(p)`: removes the directory with everything under it; fails on anything else. */
    method RemoveDirAll(p: Path) returns (r: Outcome)
      modifies this
      ensures r == Done <==> old(p != [] && p in dirs)
      ensures r.Failed? ==> r.path == p && files == old(files) && dirs == old(dirs)
      ensures r == Done ==> files == (map q | q in old(files) && !Under(p, q) :: old(files)[q])
      ensures r == Done ==> dirs == (set q | q in old(dirs) && !Under(p, q))
    {
      if p == [] || p !in dirs {
        return Failed(p);
      }
      files := map q | q in files && !Under(p, q) :: files[q];
      dirs := set q | q in dirs && !Under(p, q);
      return Done;
    }

    /**
     * `git clone url p`, whose success is decided outside: a clone that
     * succeeds leaves a directory at `p`. What the repository holds is not
     * modelled.
     */
    method GitClone(url: string, p: Path, succeeds: bool)
      modifies this
      ensures succeeds ==> dirs == old(dirs) + Ancestors(p)
      ensures !succeeds ==> dirs == old(dirs)
      ensures files == old(files)
    {
      if succeeds {
        dirs := dirs + Ancestors(p);
      }
    }
  }
}
