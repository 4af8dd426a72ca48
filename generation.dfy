/**
 * What the per-language module generators share: the file names a module's
 * code files get, the create-if-absent loop over them, what a successful
 * generation leaves behind, and the recursive search for a file such as
 * `main` or `index` anywhere in a project.
 */
module Generation {
  import opened Models
  import opened FileSystem
  import opened Results
  import opened Text

  /** The on-disk names of a module's code files, in order. */
  function FileNames(files: seq<CodeFile>, language: string): (names: seq<string>)
    ensures |names| == |files|
  {
    seq(|files|, k requires 0 <= k < |files| => FilenameWithExtension(files[k], language))
  }

  /** Something exists at `dir + [n]` for every name `n` of the list. */
  predicate FilesPresent(files: map<Path, string>, dirs: set<Path>, dir: Path, names: seq<string>) {
    forall k :: 0 <= k < |names| ==> Present(files, dirs, dir + [names[k]])
  }

  /** Every file that is new is directly in `dir`, carries a listed name, and holds that name's initial content. */
  predicate CreatedIn(before: map<Path, string>, after: map<Path, string>, dir: Path, names: seq<string>, content: string -> string) {
    forall q :: q in after && q !in before ==>
      |q| == |dir| + 1 && q[..|dir|] == dir && q[|dir|] in names && after[q] == content(q[|dir|])
  }

  /**
   * The loop over a module's code files: each file is written with its
   * initial content only if nothing exists at its path. Nothing that
   * existed is changed, and once the directory exists no write can fail.
   */
  method CreateCodeFiles(fs: Fs, dir: Path, names: seq<string>, content: string -> string) returns (r: Outcome)
    modifies fs
    ensures fs.dirs == old(fs.dirs)
    ensures Kept(old(fs.files), fs.files)
    ensures CreatedIn(old(fs.files), fs.files, dir, names, content)
    ensures old(fs.IsDir(dir)) ==> r == Done
    ensures r == Done ==> FilesPresent(fs.files, fs.dirs, dir, names)
    ensures r.Failed? ==> exists k :: 0 <= k < |names| && r.path == dir + [names[k]] && !Present(old(fs.files), old(fs.dirs), r.path)
  {
    var j := 0;
    while j < |names|
      invariant j <= |names|
      invariant fs.dirs == old(fs.dirs)
      invariant Kept(old(fs.files), fs.files)
      invariant CreatedIn(old(fs.files), fs.files, dir, names, content)
      invariant FilesPresent(fs.files, fs.dirs, dir, names[..j])
    {
      ghost var before := fs.files;
      var p := dir + [names[j]];
      if !fs.Exists(p) {
        r := fs.Write(p, content(names[j]));
        if r.Failed? {
          assert p[..|p| - 1] == dir;
          return;
        }
        CreatedStep(old(fs.files), before, dir, names, content, j);
      }
      PresentStep(fs.files, fs.dirs, dir, names, j);
      j := j + 1;
    }
    assert names[..j] == names;
    return Done;
  }

  lemma CreatedStep(f0: map<Path, string>, f1: map<Path, string>, dir: Path, names: seq<string>, content: string -> string, j: nat)
    requires j < |names| && CreatedIn(f0, f1, dir, names, content) && Kept(f0, f1)
    requires dir + [names[j]] !in f1
    ensures var f2 := f1[dir + [names[j]] := content(names[j])];
            CreatedIn(f0, f2, dir, names, content) && Kept(f0, f2)
  {
    var p := dir + [names[j]];
    assert p[..|dir|] == dir && p[|dir|] == names[j];
  }

  lemma PresentStep(files: map<Path, string>, dirs: set<Path>, dir: Path, names: seq<string>, j: nat)
    requires j < |names| && FilesPresent(files, dirs, dir, names[..j]) && Present(files, dirs, dir + [names[j]])
    ensures FilesPresent(files, dirs, dir, names[..j + 1])
  {
    assert names[..j + 1] == names[..j] + [names[j]];
  }

  /** The initial content of a code file that the generator leaves empty. */
  function NoContent(name: string): string {
    ""
  }

  /** Files created directly in `dir`, with nothing else changed, are changes under `dir`. */
  lemma CreatedUnder(f0: map<Path, string>, f1: map<Path, string>, dir: Path, names: seq<string>, content: string -> string)
    requires Kept(f0, f1) && CreatedIn(f0, f1, dir, names, content)
    ensures ChangedOnlyUnder(f0, f1, dir)
  {
  }

  /**
   * The manifest at `p` holds what the updater made of the content it had
   * in `before` (or of the empty file a code file of the same name created,
   * when `created`), and of the declarations.
   */
  predicate Updated(before: map<Path, string>, after: map<Path, string>, p: Path, created: bool, decls: seq<string>, update: Updater) {
    var prior := if p in before then Some(before[p]) else if created then Some("") else None;
    p in after && after[p] == update(prior, decls)
  }

  /**
   * What a manifest updater receives as the current content of the file
   * `leaf` in `dir`, once the code files were created and the submodules
   * generated: the content it had before, else the initial content of a
   * code file of that name, else nothing.
   */
  lemma PriorContent(f0: map<Path, string>, f1: map<Path, string>, f2: map<Path, string>, d1: set<Path>,
                     dir: Path, names: seq<string>, content: string -> string, leaf: string)
    requires Kept(f0, f1) && CreatedIn(f0, f1, dir, names, content) && FilesPresent(f1, d1, dir, names)
    requires ChangedOnlyDeeper(f1, f2, dir) && f1.Keys <= f2.Keys
    requires dir + [leaf] !in d1
    ensures var p := dir + [leaf];
            (if p in f2 then Some(f2[p]) else None)
            == (if p in f0 then Some(f0[p]) else if leaf in names then Some(content(leaf)) else None)
  {
    var p := dir + [leaf];
    DeeperChildSame(f1, f2, dir, leaf);
    assert p[..|dir|] == dir && p[|dir|] == leaf;
    if p !in f0 && leaf in names {
      var k :| 0 <= k < |names| && names[k] == leaf;
      assert Present(f1, d1, dir + [names[k]]);
    }
  }

  /** What a manifest lists for a module's code files: the entry of each kept file, in order. */
  function FileEntries(files: seq<CodeFile>, keep: CodeFile -> bool, entry: CodeFile -> string): seq<string> {
    if files == [] then []
    else
      var f := files[|files| - 1];
      FileEntries(files[..|files| - 1], keep, entry) + (if keep(f) then [entry(f)] else [])
  }

  lemma FileEntriesSnoc(files: seq<CodeFile>, keep: CodeFile -> bool, entry: CodeFile -> string, j: nat)
    requires j < |files|
    ensures FileEntries(files[..j + 1], keep, entry) == FileEntries(files[..j], keep, entry) + (if keep(files[j]) then [entry(files[j])] else [])
  {
    assert files[..j + 1][..j] == files[..j];
  }

  /** An entry is listed exactly when some kept file has it: no kept file is left out, and nothing else is added. */
  lemma {:induction false} FileEntriesMember(files: seq<CodeFile>, keep: CodeFile -> bool, entry: CodeFile -> string, d: string)
    ensures d in FileEntries(files, keep, entry) <==> exists k :: 0 <= k < |files| && keep(files[k]) && d == entry(files[k])
  {
    if files != [] {
      var init := files[..|files| - 1];
      FileEntriesMember(init, keep, entry, d);
      if exists k :: 0 <= k < |init| && keep(init[k]) && d == entry(init[k]) {
        var k :| 0 <= k < |init| && keep(init[k]) && d == entry(init[k]);
        assert files[k] == init[k];
      }
      if exists k :: 0 <= k < |files| && keep(files[k]) && d == entry(files[k]) {
        var k :| 0 <= k < |files| && keep(files[k]) && d == entry(files[k]);
        if k < |init| {
          assert init[k] == files[k];
        }
      }
    }
  }

  /** What a manifest lists for a module's submodules: one entry per submodule, in order. */
  function SubmoduleEntries(ms: seq<Module>, entry: Module -> string): seq<string> {
    if ms == [] then [] else SubmoduleEntries(ms[..|ms| - 1], entry) + [entry(ms[|ms| - 1])]
  }

  lemma SubmoduleEntriesSnoc(ms: seq<Module>, entry: Module -> string, j: nat)
    requires j < |ms|
    ensures SubmoduleEntries(ms[..j + 1], entry) == SubmoduleEntries(ms[..j], entry) + [entry(ms[j])]
  {
    assert ms[..j + 1][..j] == ms[..j];
  }

  /** There is one entry per submodule, at the submodule's position. */
  lemma {:induction false} SubmoduleEntriesSpec(ms: seq<Module>, entry: Module -> string)
    ensures |SubmoduleEntries(ms, entry)| == |ms|
    ensures forall k :: 0 <= k < |ms| ==> SubmoduleEntries(ms, entry)[k] == entry(ms[k])
  {
    if ms != [] {
      var init := ms[..|ms| - 1];
      SubmoduleEntriesSpec(init, entry);
      forall k | 0 <= k < |ms| ensures SubmoduleEntries(ms, entry)[k] == entry(ms[k]) {
        if k < |init| {
          assert init[k] == ms[k];
        }
      }
    }
  }

  /**
   * After the code files were created in `dir` and the submodules
   * generated below it: only files under `dir` changed, only manifests
   * named `leaf` got new content, nothing was removed, and `dir + [leaf]`
   * is as the code files left it.
   */
  lemma SubtreeFrame(f0: map<Path, string>, f1: map<Path, string>, f2: map<Path, string>,
                     dir: Path, names: seq<string>, content: string -> string, leaf: string)
    requires Kept(f0, f1) && CreatedIn(f0, f1, dir, names, content)
    requires KeptExcept(f1, f2, leaf) && ChangedOnlyDeeper(f1, f2, dir)
    ensures KeptExcept(f0, f2, leaf) && ChangedOnlyUnder(f0, f2, dir)
    ensures f1.Keys <= f2.Keys && Same(f1, f2, dir + [leaf])
  {
    CreatedUnder(f0, f1, dir, names, content);
    DeeperIsUnder(f1, f2, dir);
    KeptExceptKeys(f1, f2, leaf);
  }

  /** Writing the manifest `dir + [leaf]` keeps the same frame. */
  lemma ManifestFrame(f0: map<Path, string>, f2: map<Path, string>, dir: Path, leaf: string, v: string)
    requires KeptExcept(f0, f2, leaf) && ChangedOnlyUnder(f0, f2, dir)
    ensures KeptExcept(f0, f2[dir + [leaf] := v], leaf) && ChangedOnlyUnder(f0, f2[dir + [leaf] := v], dir)
    ensures f2.Keys <= f2[dir + [leaf] := v].Keys
  {
    var p := dir + [leaf];
    assert p[|p| - 1] == leaf && p[..|dir|] == dir;
  }

  /** The module's directory is there with its code files, and so is every submodule, recursively. */
  predicate Generated(files: map<Path, string>, dirs: set<Path>, base: Path, m: Module, language: string)
    decreases m, 1
  {
    var dir := base + [ModuleName(m)];
    dir in dirs && FilesPresent(files, dirs, dir, FileNames(m.file, language)) && TreeGenerated(files, dirs, dir, m.tree, language)
  }

  predicate TreeGenerated(files: map<Path, string>, dirs: set<Path>, base: Path, ms: seq<Module>, language: string)
    decreases ms, 0
  {
    ms == [] || (TreeGenerated(files, dirs, base, ms[..|ms| - 1], language) && Generated(files, dirs, base, ms[|ms| - 1], language))
  }

  lemma TreeGeneratedSnoc(files: map<Path, string>, dirs: set<Path>, base: Path, ms: seq<Module>, language: string, j: nat)
    requires j < |ms|
    ensures TreeGenerated(files, dirs, base, ms[..j + 1], language)
            <==> TreeGenerated(files, dirs, base, ms[..j], language) && Generated(files, dirs, base, ms[j], language)
  {
    assert ms[..j + 1][..j] == ms[..j];
  }

  /** Every module of `ms` was generated under `base`. */
  predicate AllGenerated(files: map<Path, string>, dirs: set<Path>, base: Path, ms: seq<Module>, language: string) {
    forall k :: 0 <= k < |ms| ==> Generated(files, dirs, base, ms[k], language)
  }

  /** Generating one more submodule, without removing anything, keeps the earlier ones generated. */
  lemma AllGeneratedStep(f1: map<Path, string>, d1: set<Path>, f2: map<Path, string>, d2: set<Path>,
                         base: Path, ms: seq<Module>, language: string, j: nat)
    requires j < |ms| && f1.Keys <= f2.Keys && d1 <= d2
    requires AllGenerated(f1, d1, base, ms[..j], language) && Generated(f2, d2, base, ms[j], language)
    ensures AllGenerated(f2, d2, base, ms[..j + 1], language)
  {
    var done := ms[..j + 1];
    forall k | 0 <= k < |done|
      ensures Generated(f2, d2, base, done[k], language)
    {
      if k < j {
        assert ms[..j][k] == ms[k];
        GeneratedGrows(f1, d1, f2, d2, base, ms[k], language);
      }
    }
  }

  /** The quantified form implies the recursive one. */
  lemma {:induction false} AllTreeGenerated(files: map<Path, string>, dirs: set<Path>, base: Path, ms: seq<Module>, language: string)
    requires AllGenerated(files, dirs, base, ms, language)
    ensures TreeGenerated(files, dirs, base, ms, language)
    decreases |ms|
  {
    if ms != [] {
      var n := |ms| - 1;
      assert AllGenerated(files, dirs, base, ms[..n], language) by {
        forall k | 0 <= k < n ensures Generated(files, dirs, base, ms[..n][k], language) {
          assert ms[..n][k] == ms[k];
        }
      }
      AllTreeGenerated(files, dirs, base, ms[..n], language);
    }
  }

  lemma FilesPresentGrows(f1: map<Path, string>, d1: set<Path>, f2: map<Path, string>, d2: set<Path>,
                          dir: Path, names: seq<string>)
    requires f1.Keys <= f2.Keys && d1 <= d2 && FilesPresent(f1, d1, dir, names)
    ensures FilesPresent(f2, d2, dir, names)
  {
  }

  /** Generation never removes files or directories, so what was generated stays generated. */
  lemma {:induction false} GeneratedGrows(f1: map<Path, string>, d1: set<Path>, f2: map<Path, string>, d2: set<Path>,
                                          base: Path, m: Module, language: string)
    requires f1.Keys <= f2.Keys && d1 <= d2 && Generated(f1, d1, base, m, language)
    ensures Generated(f2, d2, base, m, language)
    decreases m, 1
  {
    var dir := base + [ModuleName(m)];
    FilesPresentGrows(f1, d1, f2, d2, dir, FileNames(m.file, language));
    TreeGeneratedGrows(f1, d1, f2, d2, dir, m.tree, language);
  }

  lemma {:induction false} TreeGeneratedGrows(f1: map<Path, string>, d1: set<Path>, f2: map<Path, string>, d2: set<Path>,
                                              base: Path, ms: seq<Module>, language: string)
    requires f1.Keys <= f2.Keys && d1 <= d2 && TreeGenerated(f1, d1, base, ms, language)
    ensures TreeGenerated(f2, d2, base, ms, language)
    decreases ms, 0
  {
    if ms != [] {
      TreeGeneratedGrows(f1, d1, f2, d2, base, ms[..|ms| - 1], language);
      GeneratedGrows(f1, d1, f2, d2, base, ms[|ms| - 1], language);
    }
  }

  /** A code file "named" `stem` or `full`: its name is `stem`, or its on-disk name is `full`. */
  predicate IsNamed(f: CodeFile, stem: string, full: string, language: string) {
    f.name == stem || FilenameWithExtension(f, language) == full
  }

  /** `files.iter().any(|f| f.name() == stem || f.filename_with_extension(language) == full)`. */
  function AnyNamed(files: seq<CodeFile>, stem: string, full: string, language: string): bool {
    files != [] && (AnyNamed(files[..|files| - 1], stem, full, language) || IsNamed(files[|files| - 1], stem, full, language))
  }

  lemma {:induction false} AnyNamedSpec(files: seq<CodeFile>, stem: string, full: string, language: string)
    ensures AnyNamed(files, stem, full, language) <==> exists k :: 0 <= k < |files| && IsNamed(files[k], stem, full, language)
  {
    if AnyNamed(files, stem, full, language) {
      AnyNamedWitness(files, stem, full, language);
    }
    if exists k :: 0 <= k < |files| && IsNamed(files[k], stem, full, language) {
      var k :| 0 <= k < |files| && IsNamed(files[k], stem, full, language);
      AnyNamedAt(files, stem, full, language, k);
    }
  }

  lemma {:induction false} AnyNamedWitness(files: seq<CodeFile>, stem: string, full: string, language: string)
    requires AnyNamed(files, stem, full, language)
    ensures exists k :: 0 <= k < |files| && IsNamed(files[k], stem, full, language)
  {
    var init := files[..|files| - 1];
    if !IsNamed(files[|files| - 1], stem, full, language) {
      AnyNamedWitness(init, stem, full, language);
      var k :| 0 <= k < |init| && IsNamed(init[k], stem, full, language);
      assert files[k] == init[k];
    }
  }

  lemma {:induction false} AnyNamedAt(files: seq<CodeFile>, stem: string, full: string, language: string, k: nat)
    requires k < |files| && IsNamed(files[k], stem, full, language)
    ensures AnyNamed(files, stem, full, language)
  {
    if k < |files| - 1 {
      var init := files[..|files| - 1];
      assert init[k] == files[k];
      AnyNamedAt(init, stem, full, language, k);
    }
  }

  /**
   * For a stem without '.' and its full name with the language's
   * extension, a file is so named exactly when its on-disk name is the
   * full name.
   */
  lemma AnyNamedListed(files: seq<CodeFile>, stem: string, full: string, language: string)
    requires '.' !in stem && full == stem + "." + ExtensionFor(language)
    ensures AnyNamed(files, stem, full, language) <==> full in FileNames(files, language)
  {
    AnyNamedSpec(files, stem, full, language);
    var names := FileNames(files, language);
    if AnyNamed(files, stem, full, language) {
      var k :| 0 <= k < |files| && IsNamed(files[k], stem, full, language);
      assert names[k] == full;
    }
    if full in names {
      var k :| 0 <= k < |names| && names[k] == full;
      assert IsNamed(files[k], stem, full, language);
    }
  }

  /** The modules of a subtree in pre-order: the module, then each submodule's subtree. */
  function Flatten(m: Module): seq<Module>
    decreases m, 1
  {
    [m] + FlattenTree(m.tree)
  }

  function FlattenTree(ms: seq<Module>): seq<Module>
    decreases ms, 0
  {
    if ms == [] then [] else FlattenTree(ms[..|ms| - 1]) + Flatten(ms[|ms| - 1])
  }

  /** The flags `find_*_in_module` collects: one per module of the subtree, in pre-order. */
  function Flags(m: Module, stem: string, full: string, language: string): seq<bool>
    decreases m, 1
  {
    [AnyNamed(m.file, stem, full, language)] + TreeFlags(m.tree, stem, full, language)
  }

  function TreeFlags(ms: seq<Module>, stem: string, full: string, language: string): seq<bool>
    decreases ms, 0
  {
    if ms == [] then [] else TreeFlags(ms[..|ms| - 1], stem, full, language) + Flags(ms[|ms| - 1], stem, full, language)
  }

  lemma TreeFlagsSnoc(ms: seq<Module>, stem: string, full: string, language: string, j: nat)
    requires j < |ms|
    ensures TreeFlags(ms[..j + 1], stem, full, language) == TreeFlags(ms[..j], stem, full, language) + Flags(ms[j], stem, full, language)
  {
    assert ms[..j + 1][..j] == ms[..j];
  }

  /**
   * `find_index_in_module` / `find_main_in_module`: the module's own flag,
   * then the flags of each submodule's subtree.
   */
  method FindInModule(m: Module, stem: string, full: string, language: string) returns (results: seq<bool>)
    ensures results == Flags(m, stem, full, language)
    decreases m
  {
    results := [AnyNamed(m.file, stem, full, language)];
    var j := 0;
    while j < |m.tree|
      invariant j <= |m.tree|
      invariant results == [AnyNamed(m.file, stem, full, language)] + TreeFlags(m.tree[..j], stem, full, language)
    {
      var sub := FindInModule(m.tree[j], stem, full, language);
      TreeFlagsSnoc(m.tree, stem, full, language, j);
      AppendAssoc([AnyNamed(m.file, stem, full, language)], TreeFlags(m.tree[..j], stem, full, language), sub);
      results := results + sub;
      j := j + 1;
    }
    assert m.tree[..j] == m.tree;
  }

  /** Each flag answers the question for the module at the same position of the pre-order. */
  lemma {:induction false} FlagsMatchModules(m: Module, stem: string, full: string, language: string)
    ensures var fl, mods := Flags(m, stem, full, language), Flatten(m);
            |fl| == |mods| && forall k :: 0 <= k < |fl| ==> fl[k] == AnyNamed(mods[k].file, stem, full, language)
    decreases m, 1
  {
    TreeFlagsMatchModules(m.tree, stem, full, language);
  }

  lemma {:induction false} TreeFlagsMatchModules(ms: seq<Module>, stem: string, full: string, language: string)
    ensures var fl, mods := TreeFlags(ms, stem, full, language), FlattenTree(ms);
            |fl| == |mods| && forall k :: 0 <= k < |fl| ==> fl[k] == AnyNamed(mods[k].file, stem, full, language)
    decreases ms, 0
  {
    if ms != [] {
      TreeFlagsMatchModules(ms[..|ms| - 1], stem, full, language);
      FlagsMatchModules(ms[|ms| - 1], stem, full, language);
    }
  }

  /**
   * Some module anywhere in the trees has a file so named exactly when
   * some flag is set.
   */
  lemma FoundAnywhere(ms: seq<Module>, stem: string, full: string, language: string)
    ensures true in TreeFlags(ms, stem, full, language)
            <==> exists k :: 0 <= k < |FlattenTree(ms)| && AnyNamed(FlattenTree(ms)[k].file, stem, full, language)
  {
    TreeFlagsMatchModules(ms, stem, full, language);
    var fl := TreeFlags(ms, stem, full, language);
    if true in fl {
      var k :| 0 <= k < |fl| && fl[k];
      assert AnyNamed(FlattenTree(ms)[k].file, stem, full, language);
    }
  }

  /**
   * The shared shape of `should_generate_main_py`, `should_generate_main_go`
   * and `should_generate_main_index_js`: no project-level file and no
   * module file at any depth is so named.
   */
  function NoneNamed(project: Project, stem: string, full: string, language: string): bool {
    !AnyNamed(project.file, stem, full, language) && true !in TreeFlags(project.tree, stem, full, language)
  }

  /**
   * The search of `should_generate_main_*`: the project-level files, then
   * the flags of each top-level module's subtree.
   */
  method SearchProject(project: Project, stem: string, full: string, language: string) returns (none: bool)
    ensures none == NoneNamed(project, stem, full, language)
  {
    var found := false;
    var j := 0;
    while j < |project.tree|
      invariant j <= |project.tree|
      invariant found == (true in TreeFlags(project.tree[..j], stem, full, language))
    {
      var flags := FindInModule(project.tree[j], stem, full, language);
      TreeFlagsSnoc(project.tree, stem, full, language, j);
      found := found || true in flags;
      j := j + 1;
    }
    assert project.tree[..j] == project.tree;
    none := !AnyNamed(project.file, stem, full, language) && !found;
  }

  lemma NoneNamedSpec(project: Project, stem: string, full: string, language: string)
    ensures NoneNamed(project, stem, full, language)
            <==> (forall k :: 0 <= k < |project.file| ==> !IsNamed(project.file[k], stem, full, language))
                 && (forall k :: 0 <= k < |FlattenTree(project.tree)| ==> !AnyNamed(FlattenTree(project.tree)[k].file, stem, full, language))
  {
    AnyNamedSpec(project.file, stem, full, language);
    FoundAnywhere(project.tree, stem, full, language);
  }
}
