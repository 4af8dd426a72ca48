/**
 * The directory skeleton of a project: one directory per module, nested as
 * the module tree is, under the project's own directory (or directly under
 * the base for the root project). Clone targets are cloned instead of
 * built, and nothing is built under them.
 */
module DirectoryBuilder {
  import opened Results
  import opened Text
  import opened Models
  import opened FileSystem

  /** Where a project's modules go: the base itself for the root project, `base/<name>` for any other. */
  function ProjectPath(base: Path, project: Project): Path {
    if project.root then base else base + [project.name]
  }

  /** Every directory of a non-clone module under `base` is there, down to (but not into) clone targets. */
  predicate Built(dirs: set<Path>, base: Path, m: Module)
    decreases m, 1
  {
    IsGitClone(m) || (base + [ModuleName(m)] in dirs && TreeBuilt(dirs, base + [ModuleName(m)], m.tree))
  }

  predicate TreeBuilt(dirs: set<Path>, base: Path, ms: seq<Module>)
    decreases ms, 0
  {
    ms == [] || (TreeBuilt(dirs, base, ms[..|ms| - 1]) && Built(dirs, base, ms[|ms| - 1]))
  }

  lemma TreeBuiltSnoc(dirs: set<Path>, base: Path, ms: seq<Module>, j: nat)
    requires j < |ms|
    ensures TreeBuilt(dirs, base, ms[..j + 1]) <==> TreeBuilt(dirs, base, ms[..j]) && Built(dirs, base, ms[j])
  {
    assert ms[..j + 1][..j] == ms[..j];
  }

  /** Directories are never taken away by building, so what was built stays built. */
  lemma {:induction false} BuiltGrows(d1: set<Path>, d2: set<Path>, base: Path, m: Module)
    requires d1 <= d2 && Built(d1, base, m)
    ensures Built(d2, base, m)
    decreases m, 1
  {
    if !IsGitClone(m) {
      TreeBuiltGrows(d1, d2, base + [ModuleName(m)], m.tree);
    }
  }

  lemma {:induction false} TreeBuiltGrows(d1: set<Path>, d2: set<Path>, base: Path, ms: seq<Module>)
    requires d1 <= d2 && TreeBuilt(d1, base, ms)
    ensures TreeBuilt(d2, base, ms)
    decreases ms, 0
  {
    if ms != [] {
      TreeBuiltGrows(d1, d2, base, ms[..|ms| - 1]);
      BuiltGrows(d1, d2, base, ms[|ms| - 1]);
    }
  }

  /**
   * `build_project_structure`: creates the project directory unless the
   * project is the root one, then builds each top-level module in order,
   * stopping at the first failure.
   */
  method BuildProjectStructure(fs: Fs, base: Path, project: Project, clone: (string, Path) -> bool) returns (r: Outcome)
    modifies fs
    ensures fs.files == old(fs.files)
    ensures old(fs.dirs) <= fs.dirs
    ensures !project.root && old(fs.Blocked(base + [project.name])) ==> r == Failed(base + [project.name])
    ensures !project.root && r == Done ==> base + [project.name] in fs.dirs
    ensures r == Done ==> TreeBuilt(fs.dirs, ProjectPath(base, project), project.tree)
  {
    var projectPath := base;
    if !project.root {
      projectPath := base + [project.name];
      r := fs.CreateDirAll(projectPath);
      if r.Failed? {
        return;
      }
    }
    r := BuildTree(fs, projectPath, project.tree, clone);
  }

  /** The loop of `build_project_structure` over the top-level modules. */
  method BuildTree(fs: Fs, base: Path, ms: seq<Module>, clone: (string, Path) -> bool) returns (r: Outcome)
    modifies fs
    ensures fs.files == old(fs.files)
    ensures old(fs.dirs) <= fs.dirs
    ensures r == Done ==> TreeBuilt(fs.dirs, base, ms)
  {
    var j := 0;
    while j < |ms|
      invariant j <= |ms|
      invariant fs.files == old(fs.files)
      invariant old(fs.dirs) <= fs.dirs
      invariant TreeBuilt(fs.dirs, base, ms[..j])
    {
      ghost var before := fs.dirs;
      r := BuildModuleStructure(fs, base, ms[j], clone);
      if r.Failed? {
        return;
      }
      TreeBuiltGrows(before, fs.dirs, base, ms[..j]);
      TreeBuiltSnoc(fs.dirs, base, ms, j);
      j := j + 1;
    }
    assert ms[..j] == ms;
    r := Done;
  }

  /**
   * `build_module_structure`: a clone target is cloned unless its path
   * exists, a failed clone is not an error, and nothing is built under
   * it; any other module gets its directory, then its submodules in order.
   */
  method BuildModuleStructure(fs: Fs, base: Path, m: Module, clone: (string, Path) -> bool) returns (r: Outcome)
    modifies fs
    decreases m
    ensures fs.files == old(fs.files)
    ensures old(fs.dirs) <= fs.dirs
    ensures IsGitClone(m) ==> r == Done
    ensures IsGitClone(m) && (old(fs.Exists(base + [ModuleName(m)])) || !clone(m.from.value, base + [ModuleName(m)]))
            ==> fs.dirs == old(fs.dirs)
    ensures IsGitClone(m) && !old(fs.Exists(base + [ModuleName(m)])) && clone(m.from.value, base + [ModuleName(m)])
            ==> fs.dirs == old(fs.dirs) + Ancestors(base + [ModuleName(m)])
    ensures !IsGitClone(m) && old(fs.Blocked(base + [ModuleName(m)])) ==> r == Failed(base + [ModuleName(m)])
    ensures r == Done ==> Built(fs.dirs, base, m)
  {
    var path := base + [ModuleName(m)];
    if m.from.Some? {
      if fs.Exists(path) {
        return Done;
      }
      fs.GitClone(m.from.value, path, clone(m.from.value, path));
      return Done;
    }
    r := fs.CreateDirAll(path);
    if r.Failed? {
      return;
    }
    var j := 0;
    while j < |m.tree|
      invariant j <= |m.tree|
      invariant fs.files == old(fs.files)
      invariant old(fs.dirs) <= fs.dirs
      invariant path in fs.dirs
      invariant TreeBuilt(fs.dirs, path, m.tree[..j])
    {
      ghost var before := fs.dirs;
      r := BuildModuleStructure(fs, path, m.tree[j], clone);
      if r.Failed? {
        return;
      }
      TreeBuiltGrows(before, fs.dirs, path, m.tree[..j]);
      TreeBuiltSnoc(fs.dirs, path, m.tree, j);
      j := j + 1;
    }
    assert m.tree[..j] == m.tree;
    r := Done;
  }

  /** The directories listed for a module under `base`: its own, then each submodule's, depth first. */
  function ModuleDirs(base: Path, m: Module): seq<Path>
    decreases m, 1
  {
    [base + [ModuleName(m)]] + TreeDirs(base + [ModuleName(m)], m.tree)
  }

  function TreeDirs(base: Path, ms: seq<Module>): seq<Path>
    decreases ms, 0
  {
    if ms == [] then [] else TreeDirs(base, ms[..|ms| - 1]) + ModuleDirs(base, ms[|ms| - 1])
  }

  /** What `get_project_directories` lists: the module directories relative to the base. */
  function ProjectDirectories(project: Project): seq<Path> {
    TreeDirs(if project.root then [] else [project.name], project.tree)
  }

  lemma TreeDirsSnoc(base: Path, ms: seq<Module>, j: nat)
    requires j < |ms|
    ensures TreeDirs(base, ms[..j + 1]) == TreeDirs(base, ms[..j]) + ModuleDirs(base, ms[j])
  {
    assert ms[..j + 1][..j] == ms[..j];
  }

  /** `collect_module_directories`: pushes the module's directory, then recurses into each submodule. */
  method CollectModuleDirectories(base: Path, m: Module, directories: seq<Path>) returns (out: seq<Path>)
    ensures out == directories + ModuleDirs(base, m)
    decreases m
  {
    var path := base + [ModuleName(m)];
    out := directories + [path];
    var j := 0;
    while j < |m.tree|
      invariant j <= |m.tree|
      invariant out == directories + [path] + TreeDirs(path, m.tree[..j])
    {
      TreeDirsSnoc(path, m.tree, j);
      AppendAssoc(directories + [path], TreeDirs(path, m.tree[..j]), ModuleDirs(path, m.tree[j]));
      out := CollectModuleDirectories(path, m.tree[j], out);
      j := j + 1;
    }
    assert m.tree[..j] == m.tree;
    AppendAssoc(directories, [path], TreeDirs(path, m.tree));
  }

  /** `get_project_directories`. */
  method GetProjectDirectories(project: Project) returns (directories: seq<Path>)
    ensures directories == ProjectDirectories(project)
  {
    var base: Path := if project.root then [] else [project.name];
    directories := [];
    var j := 0;
    while j < |project.tree|
      invariant j <= |project.tree|
      invariant directories == TreeDirs(base, project.tree[..j])
    {
      TreeDirsSnoc(base, project.tree, j);
      directories := CollectModuleDirectories(base, project.tree[j], directories);
      j := j + 1;
    }
    assert project.tree[..j] == project.tree;
  }

  /** `d` lies strictly under `base`. */
  predicate Below(d: Path, base: Path) {
    |d| > |base| && d[..|base|] == base
  }

  function Parent(d: Path): Path
    requires d != []
  {
    d[..|d| - 1]
  }

  /** The parent of the `k`-th directory is `base` or one listed before it. */
  predicate ParentListed(ds: seq<Path>, k: nat, base: Path)
    requires k < |ds| && Below(ds[k], base)
  {
    |ds[k]| == |base| + 1 || exists i :: 0 <= i < k && ds[i] == Parent(ds[k])
  }

  /**
   * Each listed directory lies strictly under `base`, and its parent is
   * `base` itself or a directory listed before it.
   */
  predicate ParentsFirst(ds: seq<Path>, base: Path) {
    forall k :: 0 <= k < |ds| ==> Below(ds[k], base) && ParentListed(ds, k, base)
  }

  lemma ParentsFirstAppend(a: seq<Path>, b: seq<Path>, base: Path)
    requires ParentsFirst(a, base) && ParentsFirst(b, base)
    ensures ParentsFirst(a + b, base)
  {
    var s := a + b;
    forall k | 0 <= k < |s|
      ensures Below(s[k], base) && ParentListed(s, k, base)
    {
      if k >= |a| {
        var kb := k - |a|;
        assert s[k] == b[kb];
        assert Below(b[kb], base) && ParentListed(b, kb, base);
        if |s[k]| != |base| + 1 {
          var i :| 0 <= i < kb && b[i] == Parent(b[kb]);
          assert s[|a| + i] == b[i];
        }
      } else {
        assert s[k] == a[k];
        assert Below(a[k], base) && ParentListed(a, k, base);
        if |s[k]| != |base| + 1 {
          var i :| 0 <= i < k && a[i] == Parent(a[k]);
          assert s[i] == a[i];
        }
      }
    }
  }

  /** A directory `base + [n]` put before directories that have their parents first under it. */
  lemma ParentsFirstCons(base: Path, n: string, b: seq<Path>)
    requires ParentsFirst(b, base + [n])
    ensures ParentsFirst([base + [n]] + b, base)
  {
    var s := [base + [n]] + b;
    forall k | 0 <= k < |s|
      ensures Below(s[k], base) && ParentListed(s, k, base)
    {
      ConsElement(base, n, b, k);
    }
  }

  lemma ConsElement(base: Path, n: string, b: seq<Path>, k: nat)
    requires ParentsFirst(b, base + [n]) && k <= |b|
    ensures var s := [base + [n]] + b;
            Below(s[k], base) && ParentListed(s, k, base)
  {
    var p := base + [n];
    var s := [p] + b;
    if k == 0 {
      assert s[0] == p && p[..|base|] == base;
    } else {
      var d := b[k - 1];
      assert s[k] == d;
      assert Below(d, p) && ParentListed(b, k - 1, p);
      assert d[..|base|] == d[..|p|][..|base|];
      if |d| == |p| + 1 {
        assert Parent(d) == p == s[0];
      } else {
        var i :| 0 <= i < k - 1 && b[i] == Parent(d);
        assert s[i + 1] == b[i];
      }
    }
  }

  /** The listing is depth first: every directory comes after its parent. */
  lemma {:induction false} ModuleDirsParentsFirst(base: Path, m: Module)
    ensures ParentsFirst(ModuleDirs(base, m), base)
    decreases m, 1
  {
    TreeDirsParentsFirst(base + [ModuleName(m)], m.tree);
    ParentsFirstCons(base, ModuleName(m), TreeDirs(base + [ModuleName(m)], m.tree));
  }

  lemma {:induction false} TreeDirsParentsFirst(base: Path, ms: seq<Module>)
    ensures ParentsFirst(TreeDirs(base, ms), base)
    decreases ms, 0
  {
    if ms != [] {
      TreeDirsParentsFirst(base, ms[..|ms| - 1]);
      ModuleDirsParentsFirst(base, ms[|ms| - 1]);
      ParentsFirstAppend(TreeDirs(base, ms[..|ms| - 1]), ModuleDirs(base, ms[|ms| - 1]), base);
    }
  }

  /** `get_project_directories` lists each directory after its parent, all under the project's own directory. */
  lemma ProjectDirectoriesParentsFirst(project: Project)
    ensures ParentsFirst(ProjectDirectories(project), if project.root then [] else [project.name])
  {
    TreeDirsParentsFirst(if project.root then [] else [project.name], project.tree);
  }

  /** A root project `src/domain/model` lists its three directories, outermost first. */
  lemma ProjectDirectoriesExample()
    ensures var model := Module(Some("model"), None, None, [], []);
            var domain := Module(Some("domain"), None, None, [model], []);
            var src := Module(Some("src"), None, None, [domain], []);
            ProjectDirectories(Project("app", true, "rust", [], [src]))
              == [["src"], ["src", "domain"], ["src", "domain", "model"]]
  {
    var model := Module(Some("model"), None, None, [], []);
    var domain := Module(Some("domain"), None, None, [model], []);
    var src := Module(Some("src"), None, None, [domain], []);
    assert [model][..0] == [] && [domain][..0] == [] && [src][..0] == [];
    assert ModuleName(model) == "model" && ModuleName(domain) == "domain" && ModuleName(src) == "src";
    assert TreeDirs(["src", "domain", "model"], model.tree) == [];
    assert ["src", "domain"] + ["model"] == ["src", "domain", "model"];
    assert ModuleDirs(["src", "domain"], model) == [["src", "domain", "model"]];
    assert TreeDirs(["src", "domain"], [model]) == [["src", "domain", "model"]];
    assert ["src"] + ["domain"] == ["src", "domain"];
    assert ModuleDirs(["src"], domain) == [["src", "domain"], ["src", "domain", "model"]];
    assert TreeDirs(["src"], [domain]) == [["src", "domain"], ["src", "domain", "model"]];
    assert [] + ["src"] == ["src"];
    assert ModuleDirs([], src) == [["src"], ["src", "domain"], ["src", "domain", "model"]];
  }

  /** The number of modules of a tree, clone targets and their listed submodules included. */
  function ModuleCount(m: Module): nat
    decreases m, 1
  {
    1 + TreeCount(m.tree)
  }

  function TreeCount(ms: seq<Module>): nat
    decreases ms, 0
  {
    if ms == [] then 0 else TreeCount(ms[..|ms| - 1]) + ModuleCount(ms[|ms| - 1])
  }

  /** One directory is listed per module. */
  lemma {:induction false} ModuleDirsCount(base: Path, m: Module)
    ensures |ModuleDirs(base, m)| == ModuleCount(m)
    decreases m, 1
  {
    TreeDirsCount(base + [ModuleName(m)], m.tree);
  }

  lemma {:induction false} TreeDirsCount(base: Path, ms: seq<Module>)
    ensures |TreeDirs(base, ms)| == TreeCount(ms)
    decreases ms, 0
  {
    if ms != [] {
      TreeDirsCount(base, ms[..|ms| - 1]);
      ModuleDirsCount(base, ms[|ms| - 1]);
    }
  }

  /** `structure_exists`: every listed directory, joined to the base, is a directory. */
  predicate StructureExists(fs: Fs, base: Path, project: Project)
    reads fs
  {
    var ds := ProjectDirectories(project);
    forall k :: 0 <= k < |ds| ==> fs.IsDir(base + ds[k])
  }

  /** No clone target anywhere in the tree. */
  predicate NoClones(m: Module)
    decreases m, 1
  {
    !IsGitClone(m) && TreeNoClones(m.tree)
  }

  predicate TreeNoClones(ms: seq<Module>)
    decreases ms, 0
  {
    ms == [] || (TreeNoClones(ms[..|ms| - 1]) && NoClones(ms[|ms| - 1]))
  }

  /** A built tree without clone targets has every listed directory. */
  lemma {:induction false} BuiltListed(dirs: set<Path>, b: Path, c: Path, m: Module)
    requires Built(dirs, b + c, m) && NoClones(m)
    ensures forall d :: d in ModuleDirs(c, m) ==> b + d in dirs
    decreases m, 1
  {
    var n := ModuleName(m);
    assert (b + c) + [n] == b + (c + [n]);
    TreeBuiltListed(dirs, b, c + [n], m.tree);
  }

  lemma {:induction false} TreeBuiltListed(dirs: set<Path>, b: Path, c: Path, ms: seq<Module>)
    requires TreeBuilt(dirs, b + c, ms) && TreeNoClones(ms)
    ensures forall d :: d in TreeDirs(c, ms) ==> b + d in dirs
    decreases ms, 0
  {
    if ms != [] {
      TreeBuiltListed(dirs, b, c, ms[..|ms| - 1]);
      BuiltListed(dirs, b, c, ms[|ms| - 1]);
    }
  }

  /** After a successful build of a project without clone targets, `structure_exists` holds. */
  lemma BuildMakesStructure(fs: Fs, base: Path, project: Project)
    requires TreeBuilt(fs.dirs, ProjectPath(base, project), project.tree) && TreeNoClones(project.tree)
    ensures StructureExists(fs, base, project)
  {
    var c: Path := if project.root then [] else [project.name];
    assert ProjectPath(base, project) == base + c;
    TreeBuiltListed(fs.dirs, base, c, project.tree);
    var ds := ProjectDirectories(project);
    forall k | 0 <= k < |ds| ensures fs.IsDir(base + ds[k]) {
      assert ds[k] in ds;
    }
  }

  /**
   * `clean_project_structure`: for the root project each top-level module
   * directory that exists is removed; otherwise the whole project
   * directory is, if it exists.
   */
  method CleanProjectStructure(fs: Fs, base: Path, project: Project) returns (r: Outcome)
    modifies fs
    ensures r == Done && !project.root ==> !fs.Exists(base + [project.name])
    ensures r == Done && project.root ==>
      forall k :: 0 <= k < |project.tree| ==> !fs.Exists(base + [ModuleName(project.tree[k])])
    ensures !project.root ==> forall q :: q in old(fs.files) && !Under(base + [project.name], q)
                                ==> q in fs.files && fs.files[q] == old(fs.files)[q]
    ensures project.root ==> forall q :: q in old(fs.files) && OutsideModules(base, project.tree, q)
                               ==> q in fs.files && fs.files[q] == old(fs.files)[q]
    ensures !project.root ==> forall q :: q in old(fs.dirs) && !Under(base + [project.name], q) ==> q in fs.dirs
    ensures project.root ==> forall q :: q in old(fs.dirs) && OutsideModules(base, project.tree, q) ==> q in fs.dirs
  {
    if project.root {
      r := CleanModules(fs, base, project.tree);
    } else {
      var path := base + [project.name];
      r := Done;
      if fs.Exists(path) {
        r := fs.RemoveDirAll(path);
      }
    }
  }

  /** `q` lies under none of the top-level module directories. */
  predicate OutsideModules(base: Path, ms: seq<Module>, q: Path) {
    forall k :: 0 <= k < |ms| ==> !Under(base + [ModuleName(ms[k])], q)
  }

  /** The root-project branch of `clean_project_structure`. */
  method CleanModules(fs: Fs, base: Path, ms: seq<Module>) returns (r: Outcome)
    modifies fs
    ensures r == Done ==> forall k :: 0 <= k < |ms| ==> !fs.Exists(base + [ModuleName(ms[k])])
    ensures forall q :: q in old(fs.files) && OutsideModules(base, ms, q) ==> q in fs.files && fs.files[q] == old(fs.files)[q]
    ensures forall q :: q in old(fs.dirs) && OutsideModules(base, ms, q) ==> q in fs.dirs
  {
    var j := 0;
    while j < |ms|
      invariant j <= |ms|
      invariant forall k :: 0 <= k < j ==> !fs.Exists(base + [ModuleName(ms[k])])
      invariant forall q :: q in fs.files ==> q in old(fs.files) && fs.files[q] == old(fs.files)[q]
      invariant forall q :: q in fs.dirs ==> q in old(fs.dirs)
      invariant forall q :: q in old(fs.files) && OutsideModules(base, ms[..j], q) ==> q in fs.files
      invariant forall q :: q in old(fs.dirs) && OutsideModules(base, ms[..j], q) ==> q in fs.dirs
    {
      var path := base + [ModuleName(ms[j])];
      if fs.Exists(path) {
        r := fs.RemoveDirAll(path);
        if r.Failed? {
          return;
        }
      }
      forall q | OutsideModules(base, ms[..j + 1], q) ensures OutsideModules(base, ms[..j], q) && !Under(path, q) {
        assert ms[..j + 1][j] == ms[j];
        forall k | 0 <= k < j ensures !Under(base + [ModuleName(ms[..j][k])], q) {
          assert ms[..j][k] == ms[..j + 1][k];
        }
      }
      j := j + 1;
    }
    assert ms[..j] == ms;
    r := Done;
  }
}
