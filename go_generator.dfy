/**
 * The Go package generator: one directory per module, each code file
 * created only where nothing exists, a Go file starting with a `package`
 * clause named after its module. No manifest is written; `go.mod`,
 * `go.sum` and `main.go` are created only where absent.
 */
module GoGenerator {
  import opened Text
  import opened Models
  import opened FileSystem
  import opened Generation

  /** A file that gets a `package` clause: its on-disk name ends in ".go". */
  predicate IsGoCodeFile(filename: string) {
    EndsWith(filename, ".go")
  }

  /** `sanitize_package_name`: hyphens become underscores, then ASCII letters are lowered. */
  function SanitizePackageName(name: string): string {
    ToLower(ReplaceChar(name, '-', '_'))
  }

  /** A sanitized name has the same length, no hyphen and no upper-case ASCII letter, and sanitizing again changes nothing. */
  lemma SanitizePackageNameSpec(name: string)
    ensures var s := SanitizePackageName(name);
            |s| == |name| && '-' !in s
            && (forall k :: 0 <= k < |s| ==> !('A' <= s[k] <= 'Z'))
            && SanitizePackageName(s) == s
  {
    var s := SanitizePackageName(name);
    forall k | 0 <= k < |s|
      ensures s[k] != '-' && !('A' <= s[k] <= 'Z')
    {
      assert ReplaceChar(name, '-', '_')[k] != '-';
    }
    assert ReplaceChar(s, '-', '_') == s;
    assert ToLower(s) == s;
  }

  /** Characters other than hyphens and upper-case letters are kept in place. */
  lemma SanitizeKeeps(name: string, k: nat)
    requires k < |name| && name[k] != '-' && !('A' <= name[k] <= 'Z')
    ensures SanitizePackageName(name)[k] == name[k]
  {
    assert ReplaceChar(name, '-', '_')[k] == name[k];
  }

  /** `generate_go_file_content`: a `package` clause followed by a blank line. */
  function PackageClause(packageName: string): string {
    "package " + packageName + "\n\n"
  }

  /**
   * The initial content of the code file `filename` in the module
   * `moduleName`: a `package` clause for Go files, named after the module
   * whatever the file is called, else nothing.
   */
  function InitialContent(moduleName: string): string -> string {
    filename => if IsGoCodeFile(filename) then PackageClause(SanitizePackageName(moduleName)) else ""
  }

  /** Every Go file of a module declares the same package, and other files start empty. */
  lemma InitialContentSpec(moduleName: string, a: string, b: string)
    ensures IsGoCodeFile(a) && IsGoCodeFile(b) ==> InitialContent(moduleName)(a) == InitialContent(moduleName)(b)
    ensures IsGoCodeFile(a) ==> StartsWith(InitialContent(moduleName)(a), "package ")
    ensures !IsGoCodeFile(a) ==> InitialContent(moduleName)(a) == ""
  {
    if IsGoCodeFile(a) {
      var c := InitialContent(moduleName)(a);
      assert c == "package " + SanitizePackageName(moduleName) + "\n\n";
      assert c[..|"package "|] == "package ";
    }
  }

  /** `Web-UI` is sanitized to `web_ui`. */
  lemma SanitizeExample()
    ensures SanitizePackageName("Web-UI") == "web_ui"
  {
    var replaced := ReplaceChar("Web-UI", '-', '_');
    assert replaced == "Web_UI";
    assert ToLower(replaced) == "web_ui";
  }

  /** In the module `Web-UI`, the Go file `handler.go` declares `package web_ui`. */
  lemma InitialContentExample()
    ensures InitialContent("Web-UI")("handler.go") == "package web_ui\n\n"
  {
    var n := "handler.go";
    assert n[|n| - 3..] == ".go";
    SanitizeExample();
  }

  /**
   * Every file that is new directly in `dir` carries a listed name and holds
   * that name's initial content (files deeper down are not constrained).
   */
  predicate CreatedDirectlyIn(before: map<Path, string>, after: map<Path, string>, dir: Path, names: seq<string>, content: string -> string) {
    forall q :: q in after && q !in before && |q| == |dir| + 1 && q[..|dir|] == dir ==>
      q[|dir|] in names && after[q] == content(q[|dir|])
  }

  /** Generating the submodules below `dir` leaves the files created directly in it as they are. */
  lemma CreatedDirectlyKept(f0: map<Path, string>, f1: map<Path, string>, f2: map<Path, string>,
                            dir: Path, names: seq<string>, content: string -> string)
    requires Kept(f0, f1) && CreatedIn(f0, f1, dir, names, content)
    requires Kept(f1, f2) && ChangedOnlyDeeper(f1, f2, dir)
    ensures CreatedDirectlyIn(f0, f2, dir, names, content) && ChangedOnlyUnder(f0, f2, dir)
  {
    CreatedUnder(f0, f1, dir, names, content);
    DeeperIsUnder(f1, f2, dir);
  }

  /**
   * `generate_module`: creates the module's directory, its code files where
   * nothing exists (Go files with the module's `package` clause), and its
   * submodules in order. No existing file changes and nothing is written
   * outside the module's directory.
   */
  method GenerateModule(fs: Fs, base: Path, m: Module) returns (r: Outcome)
    modifies fs
    decreases m, 1
    ensures old(fs.dirs) <= fs.dirs
    ensures Kept(old(fs.files), fs.files)
    ensures ChangedOnlyUnder(old(fs.files), fs.files, base + [ModuleName(m)])
    ensures CreatedDirectlyIn(old(fs.files), fs.files, base + [ModuleName(m)], FileNames(m.file, "go"), InitialContent(ModuleName(m)))
    ensures old(fs.Blocked(base + [ModuleName(m)])) ==> r == Failed(base + [ModuleName(m)])
    ensures r == Done ==> Generated(fs.files, fs.dirs, base, m, "go")
  {
    var dir := base + [ModuleName(m)];
    var names := FileNames(m.file, "go");
    var content := InitialContent(ModuleName(m));
    ghost var f0 := fs.files;
    r := fs.CreateDirAll(dir);
    if r.Failed? {
      return;
    }
    // The directory now exists, so creating the code files cannot fail.
    r := CreateCodeFiles(fs, dir, names, content);
    ghost var f1, d1 := fs.files, fs.dirs;
    r := GenerateSubmodules(fs, dir, m.tree);
    CreatedDirectlyKept(f0, f1, fs.files, dir, names, content);
    if r.Done? {
      FilesPresentGrows(f1, d1, fs.files, fs.dirs, dir, names);
    }
  }

  /** The submodule loop of `generate_module`: each submodule in order, stopping at the first failure. */
  method GenerateSubmodules(fs: Fs, dir: Path, ms: seq<Module>) returns (r: Outcome)
    modifies fs
    decreases ms, 0
    ensures old(fs.dirs) <= fs.dirs
    ensures Kept(old(fs.files), fs.files)
    ensures ChangedOnlyDeeper(old(fs.files), fs.files, dir)
    ensures r == Done ==> TreeGenerated(fs.files, fs.dirs, dir, ms, "go")
  {
    var j := 0;
    while j < |ms|
      invariant j <= |ms|
      invariant old(fs.dirs) <= fs.dirs
      invariant Kept(old(fs.files), fs.files)
      invariant ChangedOnlyDeeper(old(fs.files), fs.files, dir)
      invariant AllGenerated(fs.files, fs.dirs, dir, ms[..j], "go")
    {
      ghost var f, d := fs.files, fs.dirs;
      r := GenerateModule(fs, dir, ms[j]);
      ChangedOnlyUnderChild(f, fs.files, dir, ModuleName(ms[j]));
      ChangedOnlyDeeperTrans(old(fs.files), f, fs.files, dir);
      if r.Failed? {
        return;
      }
      AllGeneratedStep(f, d, fs.files, fs.dirs, dir, ms, "go", j);
      j := j + 1;
    }
    assert ms[..j] == ms;
    AllTreeGenerated(fs.files, fs.dirs, dir, ms, "go");
    return Done;
  }

  /** `generate_go_mod`: `go.mod` in the project directory, only if nothing is there. */
  method GenerateGoMod(fs: Fs, projectPath: Path, projectName: string) returns (r: Outcome)
    modifies fs
    ensures fs.dirs == old(fs.dirs)
    ensures WroteIfAbsent(old(fs.files), old(fs.dirs), fs.files, projectPath + ["go.mod"], GoModContent(projectName), r)
  {
    r := fs.CreateIfAbsent(projectPath + ["go.mod"], GoModContent(projectName));
  }

  /** `generate_go_sum`: an empty `go.sum` in the project directory, only if nothing is there. */
  method GenerateGoSum(fs: Fs, projectPath: Path) returns (r: Outcome)
    modifies fs
    ensures fs.dirs == old(fs.dirs)
    ensures WroteIfAbsent(old(fs.files), old(fs.dirs), fs.files, projectPath + ["go.sum"], "", r)
  {
    r := fs.CreateIfAbsent(projectPath + ["go.sum"], "");
  }

  /** `generate_main_go`: `main.go` in the project directory, only if nothing is there. */
  method GenerateMainGo(fs: Fs, projectPath: Path) returns (r: Outcome)
    modifies fs
    ensures fs.dirs == old(fs.dirs)
    ensures WroteIfAbsent(old(fs.files), old(fs.dirs), fs.files, projectPath + ["main.go"], MainGoContent, r)
  {
    r := fs.CreateIfAbsent(projectPath + ["main.go"], MainGoContent);
  }

  /**
   * `should_generate_main_go`: the project gets a `main.go` exactly when no
   * project-level file, and no file of any module at any depth, is named
   * `main` or `main.go`.
   */
  method ShouldGenerateMainGo(project: Project) returns (b: bool)
    ensures b <==> (forall k :: 0 <= k < |project.file| ==> !IsNamed(project.file[k], "main", "main.go", "go"))
                   && (forall k :: 0 <= k < |FlattenTree(project.tree)| ==> !AnyNamed(FlattenTree(project.tree)[k].file, "main", "main.go", "go"))
  {
    b := SearchProject(project, "main", "main.go", "go");
    NoneNamedSpec(project, "main", "main.go", "go");
  }

  /** `generate_go_mod_content`: the module path is the project name; Go 1.21. */
  function GoModContent(projectName: string): string {
    "module " + projectName + "\n\ngo 1.21\n"
  }

  /** `go.mod` names the project on its first line and the Go version on its third. */
  lemma GoModContentLines(projectName: string)
    requires '\n' !in projectName
    ensures Lines(GoModContent(projectName)) == ["module " + projectName, "", "go 1.21"]
  {
    var ls := ["module " + projectName, "", "go 1.21"];
    var first := "module " + projectName;
    assert ls[..2] == [first, ""] && [first, ""][..1] == [first] && [first][..0] == [];
    assert Terminated([first]) == first + "\n";
    assert Terminated([first, ""]) == first + "\n" + "\n";
    assert Terminated(ls) == first + "\n" + "\n" + "go 1.21\n";
    assert GoModContent(projectName) == Terminated(ls);
    assert NoneContains(ls, '\n');
    TerminatedLines(ls);
  }

  /** `generate_main_go_content`. */
  const MainGoContent: string :=
    "package main\n\nimport \"fmt\"\n\nfunc main() {\n    fmt.Println(\"Hello, world!\")\n}\n"
}
