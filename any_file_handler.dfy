/**
 * The handler for the "any" language: no manifests and no configuration
 * files, only the listed files under their names as written, created empty
 * where nothing exists, plus an empty `README.md` at the project root.
 * Clone targets are cloned instead of generated.
 */
module AnyFileHandler {
  import opened Models
  import opened FileSystem
  import opened Generation

  /** The on-disk names: the spec names as written, with no extension added. */
  function VerbatimNames(files: seq<CodeFile>): (names: seq<string>)
    ensures |names| == |files|
    ensures forall k :: 0 <= k < |files| ==> names[k] == files[k].name
  {
    seq(|files|, k requires 0 <= k < |files| => files[k].name)
  }

  /**
   * Unlike every other language, a name without an extension stays without
   * one: `filename_with_extension` would have appended ".txt".
   */
  lemma VerbatimNotExtended(f: CodeFile)
    requires '.' !in f.name
    ensures VerbatimNames([f]) == [f.name] && FilenameWithExtension(f, "any") == f.name + ".txt"
  {
    FilenameWithExtensionSpec(f, "any");
  }

  /** Every file that is new holds nothing. */
  predicate OnlyEmptyCreated(before: map<Path, string>, after: map<Path, string>) {
    forall q :: q in after && q !in before ==> after[q] == ""
  }

  lemma OnlyEmptyCreatedTrans(a: map<Path, string>, b: map<Path, string>, c: map<Path, string>)
    requires Kept(a, b) && Kept(b, c) && OnlyEmptyCreated(a, b) && OnlyEmptyCreated(b, c)
    ensures OnlyEmptyCreated(a, c) && Kept(a, c)
  {
  }

  /**
   * A generated module: a clone target, about which nothing is promised
   * (the clone may have failed), or a directory holding the listed files
   * and every submodule, recursively.
   */
  predicate ModuleGenerated(files: map<Path, string>, dirs: set<Path>, base: Path, m: Module)
    decreases m, 1
  {
    var dir := base + [ModuleName(m)];
    IsGitClone(m) || (dir in dirs && FilesPresent(files, dirs, dir, VerbatimNames(m.file)) && TreeModulesGenerated(files, dirs, dir, m.tree))
  }

  predicate TreeModulesGenerated(files: map<Path, string>, dirs: set<Path>, base: Path, ms: seq<Module>)
    decreases ms, 0
  {
    forall k :: 0 <= k < |ms| ==> ModuleGenerated(files, dirs, base, ms[k])
  }

  /** Nothing is ever removed, so what was generated stays generated. */
  lemma {:induction false} ModuleGeneratedGrows(f1: map<Path, string>, d1: set<Path>, f2: map<Path, string>, d2: set<Path>,
                                                base: Path, m: Module)
    requires f1.Keys <= f2.Keys && d1 <= d2 && ModuleGenerated(f1, d1, base, m)
    ensures ModuleGenerated(f2, d2, base, m)
    decreases m, 1
  {
    if !IsGitClone(m) {
      var dir := base + [ModuleName(m)];
      FilesPresentGrows(f1, d1, f2, d2, dir, VerbatimNames(m.file));
      TreeModulesGeneratedGrows(f1, d1, f2, d2, dir, m.tree);
    }
  }

  lemma {:induction false} TreeModulesGeneratedGrows(f1: map<Path, string>, d1: set<Path>, f2: map<Path, string>, d2: set<Path>,
                                                     base: Path, ms: seq<Module>)
    requires f1.Keys <= f2.Keys && d1 <= d2 && TreeModulesGenerated(f1, d1, base, ms)
    ensures TreeModulesGenerated(f2, d2, base, ms)
    decreases ms, 0
  {
    forall k | 0 <= k < |ms| ensures ModuleGenerated(f2, d2, base, ms[k]) {
      ModuleGeneratedGrows(f1, d1, f2, d2, base, ms[k]);
    }
  }

  /** One more module generated, with nothing removed, extends the generated prefix. */
  lemma TreeModulesStep(f1: map<Path, string>, d1: set<Path>, f2: map<Path, string>, d2: set<Path>,
                        base: Path, ms: seq<Module>, j: nat)
    requires j < |ms| && f1.Keys <= f2.Keys && d1 <= d2
    requires TreeModulesGenerated(f1, d1, base, ms[..j]) && ModuleGenerated(f2, d2, base, ms[j])
    ensures TreeModulesGenerated(f2, d2, base, ms[..j + 1])
  {
    TreeModulesGeneratedGrows(f1, d1, f2, d2, base, ms[..j]);
    var done := ms[..j + 1];
    forall k | 0 <= k < |done| ensures ModuleGenerated(f2, d2, base, done[k]) {
      if k < j {
        assert done[k] == ms[..j][k];
      }
    }
  }

  /**
   * `generate_project`: the project-level files where nothing exists, then
   * each top-level module in order, then an empty `README.md` if there is
   * none; the first failure stops it. Existing files are never changed,
   * every new file is empty, and nothing is written outside the project
   * directory.
   */
  method GenerateProject(fs: Fs, projectPath: Path, project: Project, clone: (string, Path) -> bool) returns (r: Outcome)
    modifies fs
    ensures old(fs.dirs) <= fs.dirs
    ensures Kept(old(fs.files), fs.files) && OnlyEmptyCreated(old(fs.files), fs.files)
    ensures ChangedOnlyUnder(old(fs.files), fs.files, projectPath)
    ensures r == Done ==> FilesPresent(fs.files, fs.dirs, projectPath, VerbatimNames(project.file))
                          && TreeModulesGenerated(fs.files, fs.dirs, projectPath, project.tree)
                          && Present(fs.files, fs.dirs, projectPath + ["README.md"])
  {
    var names := VerbatimNames(project.file);
    ghost var f0 := fs.files;
    r := CreateCodeFiles(fs, projectPath, names, NoContent);
    CreatedUnder(f0, fs.files, projectPath, names, NoContent);
    if r.Failed? {
      return;
    }
    ghost var f1, d1 := fs.files, fs.dirs;
    var j := 0;
    while j < |project.tree|
      invariant j <= |project.tree|
      invariant old(fs.dirs) <= fs.dirs && f1.Keys <= fs.files.Keys
      invariant Kept(old(fs.files), fs.files) && OnlyEmptyCreated(old(fs.files), fs.files)
      invariant ChangedOnlyUnder(old(fs.files), fs.files, projectPath)
      invariant FilesPresent(fs.files, fs.dirs, projectPath, names)
      invariant TreeModulesGenerated(fs.files, fs.dirs, projectPath, project.tree[..j])
    {
      ghost var f, d := fs.files, fs.dirs;
      r := GenerateModule(fs, projectPath, project.tree[j], clone);
      ChangedOnlyUnderWiden(f, fs.files, projectPath, ModuleName(project.tree[j]));
      OnlyEmptyCreatedTrans(old(fs.files), f, fs.files);
      if r.Failed? {
        return;
      }
      FilesPresentGrows(f, d, fs.files, fs.dirs, projectPath, names);
      TreeModulesStep(f, d, fs.files, fs.dirs, projectPath, project.tree, j);
      j := j + 1;
    }
    assert project.tree[..j] == project.tree;
    ghost var f2, d2 := fs.files, fs.dirs;
    var readme := projectPath + ["README.md"];
    r := fs.CreateIfAbsent(readme, "");
    assert readme[..|projectPath|] == projectPath;
    if r == Done {
      FilesPresentGrows(f2, d2, fs.files, fs.dirs, projectPath, names);
      TreeModulesGeneratedGrows(f2, d2, fs.files, fs.dirs, projectPath, project.tree);
    }
  }

  /**
   * `generate_module`: a clone target is cloned unless its path exists,
   * and a failed clone is not an error; nothing is generated inside it.
   * Any other module gets its directory, its files where nothing exists,
   * and its submodules in order, stopping at the first failure.
   */
  method GenerateModule(fs: Fs, parent: Path, m: Module, clone: (string, Path) -> bool) returns (r: Outcome)
    modifies fs
    decreases m
    ensures old(fs.dirs) <= fs.dirs
    ensures Kept(old(fs.files), fs.files) && OnlyEmptyCreated(old(fs.files), fs.files)
    ensures ChangedOnlyUnder(old(fs.files), fs.files, parent + [ModuleName(m)])
    ensures IsGitClone(m) ==> r == Done && fs.files == old(fs.files)
    ensures IsGitClone(m) && (old(fs.Exists(parent + [ModuleName(m)])) || !clone(m.from.value, parent + [ModuleName(m)]))
            ==> fs.dirs == old(fs.dirs)
    ensures IsGitClone(m) && !old(fs.Exists(parent + [ModuleName(m)])) && clone(m.from.value, parent + [ModuleName(m)])
            ==> fs.dirs == old(fs.dirs) + Ancestors(parent + [ModuleName(m)])
    ensures !IsGitClone(m) && old(fs.Blocked(parent + [ModuleName(m)])) ==> r == Failed(parent + [ModuleName(m)])
    ensures r == Done ==> ModuleGenerated(fs.files, fs.dirs, parent, m)
  {
    var path := parent + [ModuleName(m)];
    if m.from.Some? {
      if fs.Exists(path) {
        return Done;
      }
      fs.GitClone(m.from.value, path, clone(m.from.value, path));
      return Done;
    }
    r := fs.CreateDirAll(path);
    if r.Failed? {
      return;
    }
    var names := VerbatimNames(m.file);
    ghost var f0 := fs.files;
    // The directory now exists, so creating the files cannot fail.
    r := CreateCodeFiles(fs, path, names, NoContent);
    CreatedUnder(f0, fs.files, path, names, NoContent);
    var j := 0;
    while j < |m.tree|
      invariant j <= |m.tree|
      invariant old(fs.dirs) <= fs.dirs && path in fs.dirs
      invariant Kept(old(fs.files), fs.files) && OnlyEmptyCreated(old(fs.files), fs.files)
      invariant ChangedOnlyUnder(old(fs.files), fs.files, path)
      invariant FilesPresent(fs.files, fs.dirs, path, names)
      invariant TreeModulesGenerated(fs.files, fs.dirs, path, m.tree[..j])
    {
      ghost var f, d := fs.files, fs.dirs;
      r := GenerateModule(fs, path, m.tree[j], clone);
      ChangedOnlyUnderWiden(f, fs.files, path, ModuleName(m.tree[j]));
      OnlyEmptyCreatedTrans(old(fs.files), f, fs.files);
      if r.Failed? {
        return;
      }
      FilesPresentGrows(f, d, fs.files, fs.dirs, path, names);
      TreeModulesStep(f, d, fs.files, fs.dirs, path, m.tree, j);
      j := j + 1;
    }
    assert m.tree[..j] == m.tree;
    r := Done;
  }
}
