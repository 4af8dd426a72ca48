/**
 * The managed-path collector: every file and module directory a spec
 * declares, as the paths a user sees (`src/domain/`, `src/domain/model.rs`),
 * in pre-order with each module's directory before its contents.
 */
module PathCollector {
  import opened Text
  import opened Models

  /** One managed file or directory. */
  datatype ManagedFile = ManagedFile(
    displayPath: string,
    projectIndex: nat,
    fileName: string,
    modulePath: seq<string>,
    isProjectLevel: bool,
    isDirectory: bool)

  /** The display prefix of a project: nothing for a root project, "name/" otherwise. */
  function BasePath(p: Project): string {
    if p.root then "" else p.name + "/"
  }

  /** The display path of a module directory: base, the module path joined by '/', and a final '/'. */
  function ModuleDir(base: string, path: seq<string>): string {
    base + Join(path, "/") + "/"
  }

  function FileEntry(dir: string, f: CodeFile, language: string, projectIndex: nat, path: seq<string>, projectLevel: bool): ManagedFile {
    ManagedFile(dir + FilenameWithExtension(f, language), projectIndex, f.name, path, projectLevel, false)
  }

  /** The entries of a list of code files placed under `dir`, in list order. */
  function FileEntries(dir: string, files: seq<CodeFile>, language: string, projectIndex: nat, path: seq<string>, projectLevel: bool): seq<ManagedFile> {
    if files == [] then []
    else FileEntries(dir, files[..|files| - 1], language, projectIndex, path, projectLevel)
         + [FileEntry(dir, files[|files| - 1], language, projectIndex, path, projectLevel)]
  }

  /** The entries of one module under its parent modules: its directory, its files, then each submodule's entries. */
  function ModuleEntries(base: string, m: Module, language: string, projectIndex: nat, parents: seq<string>): seq<ManagedFile>
    decreases m, 1
  {
    var path := parents + [ModuleName(m)];
    var dir := ModuleDir(base, path);
    [ManagedFile(dir, projectIndex, ModuleName(m), parents, false, true)]
      + FileEntries(dir, m.file, language, projectIndex, path, false)
      + TreeEntries(base, m.tree, language, projectIndex, path)
  }

  /** The entries of a list of sibling modules, in list order. */
  function TreeEntries(base: string, ms: seq<Module>, language: string, projectIndex: nat, parents: seq<string>): seq<ManagedFile>
    decreases ms, 0
  {
    if ms == [] then []
    else TreeEntries(base, ms[..|ms| - 1], language, projectIndex, parents)
         + ModuleEntries(base, ms[|ms| - 1], language, projectIndex, parents)
  }

  /** The entries of one project: its project-level files, then its tree. */
  function ProjectEntries(p: Project, projectIndex: nat): seq<ManagedFile> {
    FileEntries(BasePath(p), p.file, p.lang, projectIndex, [], true)
      + TreeEntries(BasePath(p), p.tree, p.lang, projectIndex, [])
  }

  /** Each project's entries, as one block per project. */
  function ProjectBlocks(projects: seq<Project>): (blocks: seq<seq<ManagedFile>>)
    ensures |blocks| == |projects|
  {
    seq(|projects|, i requires 0 <= i < |projects| => ProjectEntries(projects[i], i))
  }

  /** The blocks laid end to end. */
  function Flatten(blocks: seq<seq<ManagedFile>>): seq<ManagedFile> {
    if blocks == [] then [] else Flatten(blocks[..|blocks| - 1]) + blocks[|blocks| - 1]
  }

  /** What collect_all_entries returns: the projects' blocks in spec order. */
  function AllEntries(projects: seq<Project>): seq<ManagedFile> {
    Flatten(ProjectBlocks(projects))
  }

  /** The number of entries a module yields: itself, its files, and its subtree's entries. */
  function ModuleSize(m: Module): nat
    decreases m, 1
  {
    1 + |m.file| + TreeSize(m.tree)
  }

  function TreeSize(ms: seq<Module>): nat
    decreases ms, 0
  {
    if ms == [] then 0 else TreeSize(ms[..|ms| - 1]) + ModuleSize(ms[|ms| - 1])
  }

  /** The k-th entry of a file list is the entry of its k-th file. */
  lemma {:induction false} FileEntriesAt(dir: string, files: seq<CodeFile>, language: string, projectIndex: nat, path: seq<string>, projectLevel: bool)
    ensures var es := FileEntries(dir, files, language, projectIndex, path, projectLevel);
            |es| == |files|
            && forall k :: 0 <= k < |files| ==> es[k] == FileEntry(dir, files[k], language, projectIndex, path, projectLevel)
  {
    if files != [] {
      var init := files[..|files| - 1];
      FileEntriesAt(dir, init, language, projectIndex, path, projectLevel);
      var es := FileEntries(dir, files, language, projectIndex, path, projectLevel);
      var pre := FileEntries(dir, init, language, projectIndex, path, projectLevel);
      assert es == pre + [FileEntry(dir, files[|files| - 1], language, projectIndex, path, projectLevel)];
      forall k | 0 <= k < |files| - 1
        ensures es[k] == FileEntry(dir, files[k], language, projectIndex, path, projectLevel)
      {
        assert es[k] == pre[k] && init[k] == files[k];
      }
    }
  }

  lemma FileEntriesSnoc(dir: string, files: seq<CodeFile>, language: string, projectIndex: nat, path: seq<string>, projectLevel: bool, i: nat)
    requires i < |files|
    ensures FileEntries(dir, files[..i + 1], language, projectIndex, path, projectLevel)
         == FileEntries(dir, files[..i], language, projectIndex, path, projectLevel) + [FileEntry(dir, files[i], language, projectIndex, path, projectLevel)]
  {
    assert files[..i + 1][..i] == files[..i];
  }

  lemma TreeEntriesSnoc(base: string, ms: seq<Module>, language: string, projectIndex: nat, parents: seq<string>, j: nat)
    requires j < |ms|
    ensures TreeEntries(base, ms[..j + 1], language, projectIndex, parents)
         == TreeEntries(base, ms[..j], language, projectIndex, parents) + ModuleEntries(base, ms[j], language, projectIndex, parents)
  {
    assert ms[..j + 1][..j] == ms[..j];
  }

  /** Adds one module's entries, directory first, to `entries`. */
  method CollectModuleEntries(base: string, m: Module, language: string, projectIndex: nat, parents: seq<string>, entries: seq<ManagedFile>)
    returns (out: seq<ManagedFile>)
    ensures out == entries + ModuleEntries(base, m, language, projectIndex, parents)
    decreases m
  {
    var name := ModuleName(m);
    var path := parents + [name];
    var dir := ModuleDir(base, path);
    var dirEntry := ManagedFile(dir, projectIndex, name, parents, false, true);
    out := entries + [dirEntry];
    var i := 0;
    while i < |m.file|
      invariant 0 <= i <= |m.file|
      invariant out == entries + [dirEntry] + FileEntries(dir, m.file[..i], language, projectIndex, path, false)
    {
      FileEntriesSnoc(dir, m.file, language, projectIndex, path, false, i);
      AppendAssoc(entries + [dirEntry], FileEntries(dir, m.file[..i], language, projectIndex, path, false), [FileEntry(dir, m.file[i], language, projectIndex, path, false)]);
      out := out + [FileEntry(dir, m.file[i], language, projectIndex, path, false)];
      i := i + 1;
    }
    assert m.file[..i] == m.file;
    ghost var files := FileEntries(dir, m.file, language, projectIndex, path, false);
    ghost var mid := out;
    var j := 0;
    while j < |m.tree|
      invariant 0 <= j <= |m.tree|
      invariant out == mid + TreeEntries(base, m.tree[..j], language, projectIndex, path)
    {
      TreeEntriesSnoc(base, m.tree, language, projectIndex, path, j);
      AppendAssoc(mid, TreeEntries(base, m.tree[..j], language, projectIndex, path), ModuleEntries(base, m.tree[j], language, projectIndex, path));
      out := CollectModuleEntries(base, m.tree[j], language, projectIndex, path, out);
      j := j + 1;
    }
    assert m.tree[..j] == m.tree;
    AppendAssoc(entries, [dirEntry] + files, TreeEntries(base, m.tree, language, projectIndex, path));
    AppendAssoc(entries, [dirEntry], files);
  }

  /** Adds one project's entries to `entries`: its project-level files, then its modules. */
  method CollectProjectEntries(project: Project, p: nat, entries: seq<ManagedFile>) returns (out: seq<ManagedFile>)
    ensures out == entries + ProjectEntries(project, p)
  {
    var base := BasePath(project);
    out := entries;
    var i := 0;
    while i < |project.file|
      invariant 0 <= i <= |project.file|
      invariant out == entries + FileEntries(base, project.file[..i], project.lang, p, [], true)
    {
      FileEntriesSnoc(base, project.file, project.lang, p, [], true, i);
      AppendAssoc(entries, FileEntries(base, project.file[..i], project.lang, p, [], true), [FileEntry(base, project.file[i], project.lang, p, [], true)]);
      out := out + [FileEntry(base, project.file[i], project.lang, p, [], true)];
      i := i + 1;
    }
    assert project.file[..i] == project.file;
    ghost var files := FileEntries(base, project.file, project.lang, p, [], true);
    ghost var mid := out;
    var j := 0;
    while j < |project.tree|
      invariant 0 <= j <= |project.tree|
      invariant out == mid + TreeEntries(base, project.tree[..j], project.lang, p, [])
    {
      TreeEntriesSnoc(base, project.tree, project.lang, p, [], j);
      AppendAssoc(mid, TreeEntries(base, project.tree[..j], project.lang, p, []), ModuleEntries(base, project.tree[j], project.lang, p, []));
      out := CollectModuleEntries(base, project.tree[j], project.lang, p, [], out);
      j := j + 1;
    }
    assert project.tree[..j] == project.tree;
    AppendAssoc(entries, files, TreeEntries(base, project.tree, project.lang, p, []));
  }

  /** Every managed file and directory of the spec, project by project. */
  method CollectAllEntries(projects: seq<Project>) returns (entries: seq<ManagedFile>)
    ensures entries == AllEntries(projects)
  {
    entries := [];
    ghost var blocks := ProjectBlocks(projects);
    var p := 0;
    while p < |projects|
      invariant 0 <= p <= |projects|
      invariant entries == Flatten(blocks[..p])
    {
      assert blocks[..p + 1][..p] == blocks[..p];
      entries := CollectProjectEntries(projects[p], p, entries);
      p := p + 1;
    }
    assert blocks[..p] == blocks;
  }

  /** The file entries of a list of entries, in order. */
  function FilesOnly(es: seq<ManagedFile>): (r: seq<ManagedFile>)
    ensures IsSubsequence(r, es)
    ensures forall k :: 0 <= k < |r| ==> !r[k].isDirectory
    ensures forall k :: 0 <= k < |es| && !es[k].isDirectory ==> es[k] in r
    ensures forall x :: multiset(r)[x] == if x.isDirectory then 0 else multiset(es)[x]
  {
    if es == [] then []
    else
      var rest := FilesOnly(es[1..]);
      HeadTail(es);
      if es[0].isDirectory then
        SubsequenceOfSuffix(rest, [es[0]], es[1..]);
        rest
      else
        assert ([es[0]] + rest)[1..] == rest;
        [es[0]] + rest
  }

  /** What collect_all_files returns: the entries that are not directories. */
  function CollectAllFiles(projects: seq<Project>): seq<ManagedFile> {
    FilesOnly(AllEntries(projects))
  }

  // ---------------------------------------------------------------------
  // Properties of the collected entries
  // ---------------------------------------------------------------------

  /** `pre` is a prefix of `s`. */
  predicate IsPrefix(pre: seq<string>, s: seq<string>) {
    |pre| <= |s| && s[..|pre|] == pre
  }

  /** An entry lies inside the module with path `path` whose directory is displayed as `dir`. */
  predicate Inside(e: ManagedFile, projectIndex: nat, path: seq<string>, dir: string) {
    e.projectIndex == projectIndex && !e.isProjectLevel && IsPrefix(path, e.modulePath) && StartsWith(e.displayPath, dir)
  }

  /** The directory of a submodule is displayed inside its parent's directory. */
  lemma SubDirInside(base: string, path: seq<string>, name: string)
    requires |path| > 0
    ensures StartsWith(ModuleDir(base, path + [name]), ModuleDir(base, path))
  {
    JoinSnoc(path, name, "/");
    assert ModuleDir(base, path + [name]) == ModuleDir(base, path) + (name + "/");
    StartsWithAppend(ModuleDir(base, path), name + "/");
  }

  /** What lies inside a submodule lies inside its parent. */
  lemma InsideWeaken(e: ManagedFile, projectIndex: nat, path: seq<string>, name: string, base: string)
    requires |path| > 0
    requires Inside(e, projectIndex, path + [name], ModuleDir(base, path + [name]))
    ensures Inside(e, projectIndex, path, ModuleDir(base, path))
  {
    SubDirInside(base, path, name);
    StartsWithTrans(e.displayPath, ModuleDir(base, path + [name]), ModuleDir(base, path));
    assert e.modulePath[..|path|] == e.modulePath[..|path| + 1][..|path|];
  }

  /**
   * A module's first entry is its own directory, whose module path is the
   * parent modules; the next are its files in order, each with module path
   * = parents plus the module and display path = the module directory plus
   * the resolved file name.
   */
  lemma ModuleEntriesHead(base: string, m: Module, language: string, projectIndex: nat, parents: seq<string>)
    ensures |ModuleEntries(base, m, language, projectIndex, parents)| > |m.file|
    ensures ModuleEntries(base, m, language, projectIndex, parents)[0]
         == ManagedFile(ModuleDir(base, parents + [ModuleName(m)]), projectIndex, ModuleName(m), parents, false, true)
    ensures forall k :: 0 <= k < |m.file| ==>
              ModuleEntries(base, m, language, projectIndex, parents)[k + 1]
              == ManagedFile(ModuleDir(base, parents + [ModuleName(m)]) + FilenameWithExtension(m.file[k], language),
                             projectIndex, m.file[k].name, parents + [ModuleName(m)], false, false)
  {
    var path := parents + [ModuleName(m)];
    var dir := ModuleDir(base, path);
    var head := ManagedFile(dir, projectIndex, ModuleName(m), parents, false, true);
    var files := FileEntries(dir, m.file, language, projectIndex, path, false);
    var tree := TreeEntries(base, m.tree, language, projectIndex, path);
    FileEntriesAt(dir, m.file, language, projectIndex, path, false);
    var es := ModuleEntries(base, m, language, projectIndex, parents);
    assert es == [head] + files + tree;
    AppendAssoc([head], files, tree);
    var rest := files + tree;
    forall k | 0 <= k < |m.file|
      ensures es[k + 1] == FileEntry(dir, m.file[k], language, projectIndex, path, false)
    {
      assert es[k + 1] == rest[k];
      assert rest[k] == files[k];
    }
  }

  /** Every entry of `es` lies inside the module with path `path` displayed as `dir`. */
  predicate AllInside(es: seq<ManagedFile>, projectIndex: nat, path: seq<string>, dir: string) {
    forall k :: 0 <= k < |es| ==> Inside(es[k], projectIndex, path, dir)
  }

  lemma AllInsideAppend(a: seq<ManagedFile>, b: seq<ManagedFile>, projectIndex: nat, path: seq<string>, dir: string)
    requires AllInside(a, projectIndex, path, dir) && AllInside(b, projectIndex, path, dir)
    ensures AllInside(a + b, projectIndex, path, dir)
  {
  }

  /** What lies inside a submodule lies inside its parent. */
  lemma AllInsideWeaken(es: seq<ManagedFile>, projectIndex: nat, path: seq<string>, name: string, base: string)
    requires |path| > 0
    requires AllInside(es, projectIndex, path + [name], ModuleDir(base, path + [name]))
    ensures AllInside(es, projectIndex, path, ModuleDir(base, path))
  {
    forall k | 0 <= k < |es| ensures Inside(es[k], projectIndex, path, ModuleDir(base, path)) {
      InsideWeaken(es[k], projectIndex, path, name, base);
    }
  }

  /** Every entry of a module after its directory entry lies inside the module's directory. */
  lemma {:induction false} ModuleEntriesInside(base: string, m: Module, language: string, projectIndex: nat, parents: seq<string>)
    ensures AllInside(ModuleEntries(base, m, language, projectIndex, parents)[1..], projectIndex,
                      parents + [ModuleName(m)], ModuleDir(base, parents + [ModuleName(m)]))
    decreases m, 1
  {
    var path := parents + [ModuleName(m)];
    var dir := ModuleDir(base, path);
    var files := FileEntries(dir, m.file, language, projectIndex, path, false);
    var sub := TreeEntries(base, m.tree, language, projectIndex, path);
    var es := ModuleEntries(base, m, language, projectIndex, parents);
    FilesInside(dir, m.file, language, projectIndex, path);
    TreeEntriesInside(base, m.tree, language, projectIndex, path);
    AllInsideAppend(files, sub, projectIndex, path, dir);
    assert es[1..] == files + sub;
  }

  /** The file entries of a module lie inside its directory. */
  lemma FilesInside(dir: string, files: seq<CodeFile>, language: string, projectIndex: nat, path: seq<string>)
    ensures AllInside(FileEntries(dir, files, language, projectIndex, path, false), projectIndex, path, dir)
  {
    FileEntriesAt(dir, files, language, projectIndex, path, false);
    forall k | 0 <= k < |files| ensures StartsWith(dir + FilenameWithExtension(files[k], language), dir) {
      StartsWithAppend(dir, FilenameWithExtension(files[k], language));
    }
  }

  /** Every entry of a list of submodules lies inside their parent's directory. */
  lemma {:induction false} TreeEntriesInside(base: string, ms: seq<Module>, language: string, projectIndex: nat, path: seq<string>)
    requires |path| > 0
    ensures AllInside(TreeEntries(base, ms, language, projectIndex, path), projectIndex, path, ModuleDir(base, path))
    decreases ms, 0
  {
    if ms != [] {
      var m := ms[|ms| - 1];
      var dir := ModuleDir(base, path);
      var init := TreeEntries(base, ms[..|ms| - 1], language, projectIndex, path);
      var last := ModuleEntries(base, m, language, projectIndex, path);
      assert TreeEntries(base, ms, language, projectIndex, path) == init + last;
      TreeEntriesInside(base, ms[..|ms| - 1], language, projectIndex, path);
      ModuleEntriesHead(base, m, language, projectIndex, path);
      ModuleEntriesInside(base, m, language, projectIndex, path);
      AllInsideWeaken(last[1..], projectIndex, path, ModuleName(m), base);
      SubDirInside(base, path, ModuleName(m));
      assert AllInside([last[0]], projectIndex, path, dir);
      AllInsideAppend([last[0]], last[1..], projectIndex, path, dir);
      assert last == [last[0]] + last[1..];
      AllInsideAppend(init, last, projectIndex, path, dir);
    }
  }

  /** Every entry of a project's tree belongs to the project, is not project-level and starts with the project prefix. */
  lemma {:induction false} TopTreeShape(base: string, ms: seq<Module>, language: string, projectIndex: nat)
    ensures forall k :: 0 <= k < |TreeEntries(base, ms, language, projectIndex, [])| ==>
              var e := TreeEntries(base, ms, language, projectIndex, [])[k];
              e.projectIndex == projectIndex && !e.isProjectLevel && StartsWith(e.displayPath, base)
    decreases ms
  {
    if ms != [] {
      var m := ms[|ms| - 1];
      var init := TreeEntries(base, ms[..|ms| - 1], language, projectIndex, []);
      var last := ModuleEntries(base, m, language, projectIndex, []);
      TopTreeShape(base, ms[..|ms| - 1], language, projectIndex);
      ModuleEntriesHead(base, m, language, projectIndex, []);
      ModuleEntriesInside(base, m, language, projectIndex, []);
      var dir := ModuleDir(base, [] + [ModuleName(m)]);
      assert dir == base + (Join([ModuleName(m)], "/") + "/");
      StartsWithAppend(base, Join([ModuleName(m)], "/") + "/");
      var es := TreeEntries(base, ms, language, projectIndex, []);
      assert es == init + last;
      forall k | 0 <= k < |es|
        ensures es[k].projectIndex == projectIndex && !es[k].isProjectLevel && StartsWith(es[k].displayPath, base)
      {
        if k < |init| {
          assert es[k] == init[k];
        } else if k == |init| {
          assert es[k] == last[0];
        } else {
          assert es[k] == last[k - |init|] == last[1..][k - |init| - 1];
          StartsWithTrans(es[k].displayPath, dir, base);
        }
      }
    }
  }

  /**
   * A project's entries start with its project-level files (empty module
   * path, project-level, not directories, display path = project prefix
   * plus resolved file name); every later entry is a tree entry of the
   * same project, not project-level, under the project prefix.
   */
  lemma ProjectEntriesShape(p: Project, projectIndex: nat)
    ensures |ProjectEntries(p, projectIndex)| >= |p.file|
    ensures forall k :: 0 <= k < |p.file| ==>
              ProjectEntries(p, projectIndex)[k]
              == ManagedFile(BasePath(p) + FilenameWithExtension(p.file[k], p.lang), projectIndex, p.file[k].name, [], true, false)
    ensures forall k :: |p.file| <= k < |ProjectEntries(p, projectIndex)| ==>
              var e := ProjectEntries(p, projectIndex)[k];
              !e.isProjectLevel && e.projectIndex == projectIndex && StartsWith(e.displayPath, BasePath(p))
  {
    var files := FileEntries(BasePath(p), p.file, p.lang, projectIndex, [], true);
    var tree := TreeEntries(BasePath(p), p.tree, p.lang, projectIndex, []);
    FileEntriesAt(BasePath(p), p.file, p.lang, projectIndex, [], true);
    TopTreeShape(BasePath(p), p.tree, p.lang, projectIndex);
    var es := ProjectEntries(p, projectIndex);
    forall k | 0 <= k < |p.file|
      ensures es[k] == FileEntry(BasePath(p), p.file[k], p.lang, projectIndex, [], true)
    {
      assert es[k] == files[k];
    }
    forall k | |p.file| <= k < |es|
      ensures !es[k].isProjectLevel && es[k].projectIndex == projectIndex && StartsWith(es[k].displayPath, BasePath(p))
    {
      assert es[k] == tree[k - |p.file|];
    }
  }

  /** Every display path starts with its project's prefix: "" for a root project, "name/" otherwise. */
  lemma DisplayPathPrefix(p: Project, projectIndex: nat)
    ensures forall k :: 0 <= k < |ProjectEntries(p, projectIndex)| ==>
              StartsWith(ProjectEntries(p, projectIndex)[k].displayPath, BasePath(p))
              && ProjectEntries(p, projectIndex)[k].projectIndex == projectIndex
  {
    ProjectEntriesShape(p, projectIndex);
    forall k | 0 <= k < |p.file|
      ensures StartsWith(ProjectEntries(p, projectIndex)[k].displayPath, BasePath(p))
    {
      StartsWithAppend(BasePath(p), FilenameWithExtension(p.file[k], p.lang));
    }
  }

  /** Every entry of `es` belongs to project `i`. */
  predicate AllOfProject(es: seq<ManagedFile>, i: nat) {
    forall k :: 0 <= k < |es| ==> es[k].projectIndex == i
  }

  /** Every entry of a project carries the project's index. */
  lemma ProjectEntriesIndex(p: Project, projectIndex: nat)
    ensures AllOfProject(ProjectEntries(p, projectIndex), projectIndex)
  {
    DisplayPathPrefix(p, projectIndex);
  }

  /** The number of entries of a module is one for its directory, one per file, plus those of its subtree. */
  lemma {:induction false} ModuleEntriesCount(base: string, m: Module, language: string, projectIndex: nat, parents: seq<string>)
    ensures |ModuleEntries(base, m, language, projectIndex, parents)| == ModuleSize(m)
    decreases m, 1
  {
    var path := parents + [ModuleName(m)];
    FileEntriesAt(ModuleDir(base, path), m.file, language, projectIndex, path, false);
    TreeEntriesCount(base, m.tree, language, projectIndex, path);
  }

  lemma {:induction false} TreeEntriesCount(base: string, ms: seq<Module>, language: string, projectIndex: nat, parents: seq<string>)
    ensures |TreeEntries(base, ms, language, projectIndex, parents)| == TreeSize(ms)
    decreases ms, 0
  {
    if ms != [] {
      TreeEntriesCount(base, ms[..|ms| - 1], language, projectIndex, parents);
      ModuleEntriesCount(base, ms[|ms| - 1], language, projectIndex, parents);
    }
  }

  /** A project yields one entry per project-level file, plus one per module and one per module file. */
  lemma ProjectEntriesCount(p: Project, projectIndex: nat)
    ensures |ProjectEntries(p, projectIndex)| == |p.file| + TreeSize(p.tree)
  {
    FileEntriesAt(BasePath(p), p.file, p.lang, projectIndex, [], true);
    TreeEntriesCount(BasePath(p), p.tree, p.lang, projectIndex, []);
  }

  /** Entries come project by project: every index is below `n`, and indices never decrease along the list. */
  predicate OrderedByProject(es: seq<ManagedFile>, n: nat) {
    (forall k :: 0 <= k < |es| ==> es[k].projectIndex < n)
    && (forall j, k :: 0 <= j < k < |es| ==> es[j].projectIndex <= es[k].projectIndex)
  }

  /** Appending a block of entries of project `i` to entries of earlier projects keeps them ordered. */
  lemma AppendProjectBlock(init: seq<ManagedFile>, last: seq<ManagedFile>, i: nat)
    requires OrderedByProject(init, i)
    requires AllOfProject(last, i)
    ensures OrderedByProject(init + last, i + 1)
  {
  }

  /** Blocks whose i-th block holds entries of project i flatten to entries ordered by project. */
  lemma {:induction false} FlattenOrdered(blocks: seq<seq<ManagedFile>>)
    requires forall i :: 0 <= i < |blocks| ==> AllOfProject(blocks[i], i)
    ensures OrderedByProject(Flatten(blocks), |blocks|)
  {
    if blocks != [] {
      var init := blocks[..|blocks| - 1];
      FlattenOrdered(init);
      AppendProjectBlock(Flatten(init), blocks[|blocks| - 1], |blocks| - 1);
    }
  }

  /** The collected entries come project by project: indices are below the project count and never decrease. */
  lemma EntriesOrderedByProject(projects: seq<Project>)
    ensures OrderedByProject(AllEntries(projects), |projects|)
  {
    var blocks := ProjectBlocks(projects);
    forall i | 0 <= i < |blocks| ensures AllOfProject(blocks[i], i) {
      ProjectEntriesIndex(projects[i], i);
    }
    FlattenOrdered(blocks);
  }
}
