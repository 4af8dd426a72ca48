/**
 * The file builder: after the directory skeleton exists, writes a project's
 * files. Rust and TypeScript projects go through their module generators;
 * every other language goes through the generic builder, which overwrites
 * each listed file with a small language-specific stub and creates no
 * directory. It also lists, without touching the disk, the files a build
 * is expected to produce.
 */
module FileBuilder {
  import opened Results
  import opened Text
  import opened Models
  import opened FileSystem
  import opened Generation
  import DirectoryBuilder
  import RustGenerator
  import TypeScriptGenerator

  // ---------------------------------------------------------------------
  // Initial content of the generic builder's files
  // ---------------------------------------------------------------------

  const GoPackageMain: string := "package main\n\n"
  const GoMainFunction: string := "func main()"
  const GoMainContent: string := GoPackageMain + GoMainFunction + " {\n\t// TODO: implement\n}\n"
  const GoStubContent: string := GoPackageMain + "// TODO: implement\n"
  const PythonInitContent: string := "# Package initialization\n"
  const PythonStubContent: string := "# TODO: implement\n"
  const EntryPointContent: string := "// Main entry point\nconsole.log('Hello, world!');\n"
  const ScriptStubContent: string := "// TODO: implement\n"

  /** `generate_file_content`: the stub the generic builder writes for a code file. */
  function GenerateFileContent(f: CodeFile, language: string): string {
    match language
    case "go" => if Contains(f.name, "main") then GoMainContent else GoStubContent
    case "python" => if f.name == "__init__" then PythonInitContent else PythonStubContent
    case "javascript" => if Contains(f.name, "index") then EntryPointContent else ScriptStubContent
    case "typescript" => if Contains(f.name, "index") then EntryPointContent else ScriptStubContent
    case _ => ""
  }

  /**
   * Every Go stub declares `package main`; languages without a stub get an
   * empty file; every non-empty stub ends with a newline; JavaScript and
   * TypeScript files get the same stub.
   */
  lemma GenerateFileContentSpec(f: CodeFile, language: string)
    ensures var c := GenerateFileContent(f, language);
            (language == "go" ==> StartsWith(c, "package main\n\n"))
            && (language !in ["go", "python", "javascript", "typescript"] ==> c == "")
            && (c != "" ==> c[|c| - 1] == '\n')
            && GenerateFileContent(f, "javascript") == GenerateFileContent(f, "typescript")
  {
    StartsWithAppend(GoPackageMain, GoMainFunction + " {\n\t// TODO: implement\n}\n");
    StartsWithAppend(GoPackageMain, "// TODO: implement\n");
  }

  /** A Go file whose name contains "main" gets a `main` function. */
  lemma GoMainFileHasMainFunction(f: CodeFile)
    requires Contains(f.name, "main")
    ensures Contains(GenerateFileContent(f, "go"), "func main()")
  {
    var n := |GoPackageMain|;
    assert GoMainContent[n..n + |GoMainFunction|] == GoMainFunction;
    ContainsAt(GoMainContent, GoMainFunction, n);
  }

  // ---------------------------------------------------------------------
  // The generic builder
  // ---------------------------------------------------------------------

  /**
   * The stub left under the on-disk name `n` once every file of the list has
   * been written in order: that of the last file with that name, as later
   * writes overwrite earlier ones.
   */
  function LastStub(files: seq<CodeFile>, n: string, language: string): string {
    if files == [] then ""
    else
      var last := files[|files| - 1];
      if FilenameWithExtension(last, language) == n then GenerateFileContent(last, language)
      else LastStub(files[..|files| - 1], n, language)
  }

  /** The stub left under a file's name is its own when no later file has the same name. */
  lemma {:induction false} LastStubIsLast(files: seq<CodeFile>, language: string, k: nat)
    requires k < |files|
    requires forall k2 :: k < k2 < |files| ==> FilenameWithExtension(files[k2], language) != FilenameWithExtension(files[k], language)
    ensures LastStub(files, FilenameWithExtension(files[k], language), language) == GenerateFileContent(files[k], language)
    decreases |files|
  {
    if k < |files| - 1 {
      var init := files[..|files| - 1];
      assert init[k] == files[k];
      LastStubIsLast(init, language, k);
    }
  }

  /** Every listed code file is in `dir`, holding the stub of the last file of its on-disk name. */
  predicate ContentWritten(fsFiles: map<Path, string>, dir: Path, files: seq<CodeFile>, language: string) {
    forall k :: 0 <= k < |files| ==>
      var p := dir + [FilenameWithExtension(files[k], language)];
      p in fsFiles && fsFiles[p] == LastStub(files, FilenameWithExtension(files[k], language), language)
  }

  lemma ContentWrittenStep(f1: map<Path, string>, f2: map<Path, string>, dir: Path, files: seq<CodeFile>, language: string, j: nat)
    requires j < |files| && ContentWritten(f1, dir, files[..j], language)
    requires f2 == f1[dir + [FilenameWithExtension(files[j], language)] := GenerateFileContent(files[j], language)]
    ensures ContentWritten(f2, dir, files[..j + 1], language)
  {
    var pre, done := files[..j], files[..j + 1];
    assert done[..j] == pre && done[j] == files[j];
    forall k | 0 <= k < |done|
      ensures var p := dir + [FilenameWithExtension(done[k], language)];
              p in f2 && f2[p] == LastStub(done, FilenameWithExtension(done[k], language), language)
    {
      var n := FilenameWithExtension(done[k], language);
      if k < j {
        assert done[k] == pre[k];
        if n != FilenameWithExtension(files[j], language) {
          assert [n] != [FilenameWithExtension(files[j], language)];
          assert dir + [n] != dir + [FilenameWithExtension(files[j], language)] by {
            assert (dir + [n])[|dir|] == n;
          }
        }
      }
    }
  }

  /** Changes at least two levels down leave the files directly in `dir` as they were. */
  lemma ContentWrittenKept(f1: map<Path, string>, f2: map<Path, string>, dir: Path, files: seq<CodeFile>, language: string)
    requires ContentWritten(f1, dir, files, language) && ChangedOnlyDeeper(f1, f2, dir) && f1.Keys <= f2.Keys
    ensures ContentWritten(f2, dir, files, language)
  {
    forall k | 0 <= k < |files| ensures Same(f1, f2, dir + [FilenameWithExtension(files[k], language)]) {
      DeeperChildSame(f1, f2, dir, FilenameWithExtension(files[k], language));
    }
  }

  /** Every code file of the module and of its submodules, recursively, is there. */
  predicate GenericWritten(fsFiles: map<Path, string>, base: Path, m: Module, language: string)
    decreases m, 1
  {
    var dir := base + [ModuleName(m)];
    (forall k :: 0 <= k < |m.file| ==> dir + [FilenameWithExtension(m.file[k], language)] in fsFiles)
    && TreeGenericWritten(fsFiles, dir, m.tree, language)
  }

  predicate TreeGenericWritten(fsFiles: map<Path, string>, base: Path, ms: seq<Module>, language: string)
    decreases ms, 0
  {
    forall k :: 0 <= k < |ms| ==> GenericWritten(fsFiles, base, ms[k], language)
  }

  lemma {:induction false} GenericWrittenGrows(f1: map<Path, string>, f2: map<Path, string>, base: Path, m: Module, language: string)
    requires f1.Keys <= f2.Keys && GenericWritten(f1, base, m, language)
    ensures GenericWritten(f2, base, m, language)
    decreases m, 1
  {
    TreeGenericWrittenGrows(f1, f2, base + [ModuleName(m)], m.tree, language);
  }

  lemma {:induction false} TreeGenericWrittenGrows(f1: map<Path, string>, f2: map<Path, string>, base: Path, ms: seq<Module>, language: string)
    requires f1.Keys <= f2.Keys && TreeGenericWritten(f1, base, ms, language)
    ensures TreeGenericWritten(f2, base, ms, language)
    decreases ms, 0
  {
    forall k | 0 <= k < |ms| ensures GenericWritten(f2, base, ms[k], language) {
      GenericWrittenGrows(f1, f2, base, ms[k], language);
    }
  }

  lemma TreeGenericStep(f1: map<Path, string>, f2: map<Path, string>, base: Path, ms: seq<Module>, language: string, j: nat)
    requires j < |ms| && f1.Keys <= f2.Keys
    requires TreeGenericWritten(f1, base, ms[..j], language) && GenericWritten(f2, base, ms[j], language)
    ensures TreeGenericWritten(f2, base, ms[..j + 1], language)
  {
    TreeGenericWrittenGrows(f1, f2, base, ms[..j], language);
    var done := ms[..j + 1];
    forall k | 0 <= k < |done| ensures GenericWritten(f2, base, done[k], language) {
      if k < j {
        assert done[k] == ms[..j][k];
      }
    }
  }

  /**
   * The file loop of `build_generic_module_files`: writes every code file
   * into `dir` with its stub, overwriting whatever was there; the first
   * failed write stops it. No directory is created, so a missing `dir`
   * fails on the first file.
   */
  method WriteCodeFiles(fs: Fs, dir: Path, files: seq<CodeFile>, language: string) returns (r: Outcome)
    modifies fs
    ensures fs.dirs == old(fs.dirs)
    ensures old(fs.files).Keys <= fs.files.Keys
    ensures ChangedOnlyUnder(old(fs.files), fs.files, dir)
    ensures files != [] && !old(fs.IsDir(dir)) ==> r == Failed(dir + [FilenameWithExtension(files[0], language)])
    ensures r == Done ==> ContentWritten(fs.files, dir, files, language)
  {
    r := Done;
    var j := 0;
    while j < |files|
      invariant j <= |files|
      invariant fs.dirs == old(fs.dirs)
      invariant old(fs.files).Keys <= fs.files.Keys
      invariant ChangedOnlyUnder(old(fs.files), fs.files, dir)
      invariant ContentWritten(fs.files, dir, files[..j], language)
      invariant j > 0 ==> old(fs.IsDir(dir))
    {
      var p := dir + [FilenameWithExtension(files[j], language)];
      assert p[..|p| - 1] == dir && p[..|dir|] == dir;
      ghost var before := fs.files;
      r := fs.Write(p, GenerateFileContent(files[j], language));
      if r.Failed? {
        return;
      }
      ContentWrittenStep(before, fs.files, dir, files, language, j);
      j := j + 1;
    }
    assert files[..j] == files;
  }

  /**
   * `build_generic_module_files`: the module's code files (see
   * `WriteCodeFiles`), then its submodules in order; the first failure
   * stops it.
   */
  method BuildGenericModuleFiles(fs: Fs, base: Path, m: Module, language: string) returns (r: Outcome)
    modifies fs
    decreases m, 1
    ensures fs.dirs == old(fs.dirs)
    ensures old(fs.files).Keys <= fs.files.Keys
    ensures ChangedOnlyUnder(old(fs.files), fs.files, base + [ModuleName(m)])
    ensures m.file != [] && !old(fs.IsDir(base + [ModuleName(m)]))
            ==> r == Failed(base + [ModuleName(m), FilenameWithExtension(m.file[0], language)])
    ensures r == Done ==> ContentWritten(fs.files, base + [ModuleName(m)], m.file, language)
    ensures r == Done ==> GenericWritten(fs.files, base, m, language)
  {
    var path := base + [ModuleName(m)];
    r := WriteCodeFiles(fs, path, m.file, language);
    if r.Failed? {
      assert m.file != [] ==> path + [FilenameWithExtension(m.file[0], language)] == base + [ModuleName(m), FilenameWithExtension(m.file[0], language)];
      return;
    }
    ghost var f1 := fs.files;
    r := BuildGenericSubmodules(fs, path, m.tree, language);
    DeeperIsUnder(f1, fs.files, path);
    if r.Done? {
      ContentWrittenKept(f1, fs.files, path, m.file, language);
    }
  }

  /** The submodule loop of `build_generic_module_files`: each submodule in order, stopping at the first failure. */
  method BuildGenericSubmodules(fs: Fs, dir: Path, ms: seq<Module>, language: string) returns (r: Outcome)
    modifies fs
    decreases ms, 0
    ensures fs.dirs == old(fs.dirs)
    ensures old(fs.files).Keys <= fs.files.Keys
    ensures ChangedOnlyDeeper(old(fs.files), fs.files, dir)
    ensures r == Done ==> TreeGenericWritten(fs.files, dir, ms, language)
  {
    var i := 0;
    while i < |ms|
      invariant i <= |ms|
      invariant fs.dirs == old(fs.dirs)
      invariant old(fs.files).Keys <= fs.files.Keys
      invariant ChangedOnlyDeeper(old(fs.files), fs.files, dir)
      invariant TreeGenericWritten(fs.files, dir, ms[..i], language)
    {
      ghost var f := fs.files;
      r := BuildGenericModuleFiles(fs, dir, ms[i], language);
      ChangedOnlyUnderChild(f, fs.files, dir, ModuleName(ms[i]));
      ChangedOnlyDeeperTrans(old(fs.files), f, fs.files, dir);
      if r.Failed? {
        return;
      }
      TreeGenericStep(f, fs.files, dir, ms, language, i);
      i := i + 1;
    }
    assert ms[..i] == ms;
    r := Done;
  }

  /** `build_generic_project_files`: each top-level module in order, stopping at the first failure. */
  method BuildGenericProjectFiles(fs: Fs, projectPath: Path, project: Project) returns (r: Outcome)
    modifies fs
    ensures fs.dirs == old(fs.dirs)
    ensures old(fs.files).Keys <= fs.files.Keys
    ensures ChangedOnlyUnder(old(fs.files), fs.files, projectPath)
    ensures r == Done ==> TreeGenericWritten(fs.files, projectPath, project.tree, project.lang)
  {
    r := BuildGenericSubmodules(fs, projectPath, project.tree, project.lang);
    DeeperIsUnder(old(fs.files), fs.files, projectPath);
  }

  // ---------------------------------------------------------------------
  // The Rust and TypeScript builders
  // ---------------------------------------------------------------------

  /** `tree().iter().find(|m| m.name() == "src")`: the first top-level module named `src`. */
  function FirstSrc(ms: seq<Module>): Option<Module> {
    if ms == [] then None
    else if ModuleName(ms[0]) == "src" then Some(ms[0])
    else FirstSrc(ms[1..])
  }

  /** `FirstSrc` finds a module named `src` with none before it, and finds nothing only when there is none. */
  lemma {:induction false} FirstSrcSpec(ms: seq<Module>)
    ensures FirstSrc(ms).None? <==> forall k :: 0 <= k < |ms| ==> ModuleName(ms[k]) != "src"
    ensures FirstSrc(ms).Some? ==> exists i :: 0 <= i < |ms| && ms[i] == FirstSrc(ms).value && ModuleName(ms[i]) == "src"
                                              && forall k :: 0 <= k < i ==> ModuleName(ms[k]) != "src"
  {
    if ms != [] && ModuleName(ms[0]) != "src" {
      FirstSrcSpec(ms[1..]);
      if FirstSrc(ms).Some? {
        var i :| 0 <= i < |ms[1..]| && ms[1..][i] == FirstSrc(ms).value && ModuleName(ms[1..][i]) == "src"
                 && forall k :: 0 <= k < i ==> ModuleName(ms[1..][k]) != "src";
        assert ms[i + 1] == FirstSrc(ms).value;
        forall k | 0 <= k < i + 1 ensures ModuleName(ms[k]) != "src" {
          if k > 0 {
            assert ms[k] == ms[1..][k - 1];
          }
        }
      } else {
        forall k | 0 <= k < |ms| ensures ModuleName(ms[k]) != "src" {
          if k > 0 {
            assert ms[k] == ms[1..][k - 1];
          }
        }
      }
    }
  }

  /** Existing files keep their content, except files whose last component is one of `leaves`. */
  predicate KeptBut(before: map<Path, string>, after: map<Path, string>, leaves: set<string>) {
    forall p :: p in before ==> p in after && (after[p] == before[p] || (|p| > 0 && p[|p| - 1] in leaves))
  }

  /**
   * The Rust entry file after a successful build: with a top-level `src`,
   * `src/main.rs` holds what the updater made of the first `src` module's
   * declarations when a `main` is asked for, else `src/lib.rs` when a `lib`
   * is asked for.
   */
  ghost predicate EntryWritten(fsFiles: map<Path, string>, projectPath: Path, project: Project, update: Updater) {
    var src := FirstSrc(project.tree);
    var main, lib := projectPath + ["src", "main.rs"], projectPath + ["src", "lib.rs"];
    src.Some? ==>
      (RustGenerator.ShouldGenerateMainRs(project) ==>
         main in fsFiles && exists prior :: fsFiles[main] == update(prior, RustGenerator.RootDecls([src.value], "main")))
      && (!RustGenerator.ShouldGenerateMainRs(project) && RustGenerator.ShouldGenerateLibRs(project) ==>
         lib in fsFiles && exists prior :: fsFiles[lib] == update(prior, RustGenerator.RootDecls([src.value], "lib")))
  }

  lemma KeptButFrom(a: map<Path, string>, b: map<Path, string>, c: map<Path, string>, leaf: string, leaves: set<string>)
    requires leaf in leaves && KeptExcept(a, b, leaf) && KeptBut(b, c, leaves)
    ensures KeptBut(a, c, leaves)
  {
  }

  /**
   * `build_rust_project_files`: generates every top-level module, then,
   * with a top-level `src`, `src/main.rs` if a `main` is asked for, else
   * `src/lib.rs` if a `lib` is, else neither.
   */
  method BuildRustProjectFiles(fs: Fs, projectPath: Path, project: Project, update: Updater) returns (r: Outcome)
    modifies fs
    ensures old(fs.dirs) <= fs.dirs
    ensures ChangedOnlyUnder(old(fs.files), fs.files, projectPath)
    ensures KeptBut(old(fs.files), fs.files, {"mod.rs", "main.rs", "lib.rs"})
    ensures r == Done ==> TreeGenerated(fs.files, fs.dirs, projectPath, project.tree, "rust")
    ensures r == Done ==> EntryWritten(fs.files, projectPath, project, update)
  {
    r := RustGenerator.GenerateSubmodules(fs, projectPath, project.tree, update);
    DeeperIsUnder(old(fs.files), fs.files, projectPath);
    ghost var f, d := fs.files, fs.dirs;
    if r.Failed? {
      KeptButFrom(old(fs.files), f, fs.files, "mod.rs", {"mod.rs", "main.rs", "lib.rs"});
      return;
    }
    KeptExceptKeys(old(fs.files), f, "mod.rs");
    r := WriteRustEntry(fs, projectPath, project, update);
    ChangedOnlyUnderTrans(old(fs.files), f, fs.files, projectPath);
    KeptButFrom(old(fs.files), f, fs.files, "mod.rs", {"mod.rs", "main.rs", "lib.rs"});
    if r == Done {
      TreeGeneratedGrows(f, d, fs.files, fs.dirs, projectPath, project.tree, "rust");
    }
  }

  /** The entry-file step of `build_rust_project_files`. */
  method WriteRustEntry(fs: Fs, projectPath: Path, project: Project, update: Updater) returns (r: Outcome)
    modifies fs
    ensures fs.dirs == old(fs.dirs) && old(fs.files).Keys <= fs.files.Keys
    ensures ChangedOnlyUnder(old(fs.files), fs.files, projectPath)
    ensures KeptBut(old(fs.files), fs.files, {"mod.rs", "main.rs", "lib.rs"})
    ensures r == Done ==> EntryWritten(fs.files, projectPath, project, update)
  {
    r := Done;
    var src := FirstSrc(project.tree);
    if src.Some? {
      if RustGenerator.ShouldGenerateMainRs(project) {
        var p := projectPath + ["src", "main.rs"];
        assert p[..|projectPath|] == projectPath && p[|p| - 1] == "main.rs";
        ghost var prior := if p in fs.files then Some(fs.files[p]) else None;
        r := RustGenerator.GenerateMainRs(fs, projectPath, [src.value], update);
        if r == Done {
          assert fs.files[p] == update(prior, RustGenerator.RootDecls([src.value], "main"));
        }
      } else if RustGenerator.ShouldGenerateLibRs(project) {
        var p := projectPath + ["src", "lib.rs"];
        assert p[..|projectPath|] == projectPath && p[|p| - 1] == "lib.rs";
        ghost var prior := if p in fs.files then Some(fs.files[p]) else None;
        r := RustGenerator.GenerateLibRs(fs, projectPath, [src.value], update);
        if r == Done {
          assert fs.files[p] == update(prior, RustGenerator.RootDecls([src.value], "lib"));
        }
      }
    }
  }

  /** The manifest step of `build_typescript_project_files`: `package.json`, then `tsconfig.json`, each only where absent. */
  method WriteTypeScriptManifests(fs: Fs, projectPath: Path, projectName: string) returns (r: Outcome)
    modifies fs
    ensures fs.dirs == old(fs.dirs)
    ensures Kept(old(fs.files), fs.files) && ChangedOnlyUnder(old(fs.files), fs.files, projectPath)
    ensures r == Done ==> Present(fs.files, fs.dirs, projectPath + ["package.json"])
                          && Present(fs.files, fs.dirs, projectPath + ["tsconfig.json"])
  {
    var pkg, tsconfig := projectPath + ["package.json"], projectPath + ["tsconfig.json"];
    assert pkg[..|projectPath|] == projectPath && tsconfig[..|projectPath|] == projectPath;
    r := TypeScriptGenerator.GeneratePackageJson(fs, projectPath, projectName);
    if r.Failed? {
      return;
    }
    r := TypeScriptGenerator.GenerateTsconfigJson(fs, projectPath);
  }

  /**
   * `build_typescript_project_files`: `package.json` and `tsconfig.json`
   * where absent, then every top-level module; the first failure stops it.
   */
  method BuildTypeScriptProjectFiles(fs: Fs, projectPath: Path, project: Project, update: Updater) returns (r: Outcome)
    modifies fs
    ensures old(fs.dirs) <= fs.dirs
    ensures ChangedOnlyUnder(old(fs.files), fs.files, projectPath)
    ensures KeptExcept(old(fs.files), fs.files, "index.ts")
    ensures r == Done ==> TreeGenerated(fs.files, fs.dirs, projectPath, project.tree, "typescript")
    ensures r == Done ==> Present(fs.files, fs.dirs, projectPath + ["package.json"])
                          && Present(fs.files, fs.dirs, projectPath + ["tsconfig.json"])
  {
    r := WriteTypeScriptManifests(fs, projectPath, project.name);
    KeptIsKeptExcept(old(fs.files), fs.files, "index.ts");
    if r.Failed? {
      return;
    }
    ghost var f, d := fs.files, fs.dirs;
    r := TypeScriptGenerator.GenerateSubmodules(fs, projectPath, project.tree, update);
    DeeperIsUnder(f, fs.files, projectPath);
    KeptExceptKeys(f, fs.files, "index.ts");
    KeptExceptTrans(old(fs.files), f, fs.files, "index.ts");
  }

  /**
   * `build_project_files`: the project's files go under the base for the
   * root project and under `base/<name>` otherwise; Rust and TypeScript
   * projects use their own builders and every other language the generic
   * one, which creates no directory.
   */
  method BuildProjectFiles(fs: Fs, base: Path, project: Project, update: Updater) returns (r: Outcome)
    modifies fs
    ensures old(fs.dirs) <= fs.dirs
    ensures ChangedOnlyUnder(old(fs.files), fs.files, DirectoryBuilder.ProjectPath(base, project))
    ensures project.lang == "rust" ==>
              KeptBut(old(fs.files), fs.files, {"mod.rs", "main.rs", "lib.rs"})
              && (r == Done ==> TreeGenerated(fs.files, fs.dirs, DirectoryBuilder.ProjectPath(base, project), project.tree, "rust")
                                && EntryWritten(fs.files, DirectoryBuilder.ProjectPath(base, project), project, update))
    ensures project.lang == "typescript" ==>
              KeptExcept(old(fs.files), fs.files, "index.ts")
              && (r == Done ==> TreeGenerated(fs.files, fs.dirs, DirectoryBuilder.ProjectPath(base, project), project.tree, "typescript"))
    ensures project.lang !in {"rust", "typescript"} ==>
              fs.dirs == old(fs.dirs)
              && (r == Done ==> TreeGenericWritten(fs.files, DirectoryBuilder.ProjectPath(base, project), project.tree, project.lang))
  {
    var projectPath := if project.root then base else base + [project.name];
    match project.lang
    case "rust" =>
      r := BuildRustProjectFiles(fs, projectPath, project, update);
    case "typescript" =>
      r := BuildTypeScriptProjectFiles(fs, projectPath, project, update);
    case _ =>
      r := BuildGenericProjectFiles(fs, projectPath, project);
  }

  // ---------------------------------------------------------------------
  // The expected file list
  // ---------------------------------------------------------------------

  /** The manifest `collect_module_files` expects in a module: `mod.rs` for a non-`src` Rust module, `index.ts` for a TypeScript one, when the module has files or submodules. */
  function SpecialFiles(m: Module, language: string): seq<string> {
    if language == "rust" && ModuleName(m) != "src" && (m.tree != [] || m.file != []) then ["mod.rs"]
    else if language == "typescript" && (m.tree != [] || m.file != []) then ["index.ts"]
    else []
  }

  /** The paths in `dir` of the given names, in order. */
  function PathsIn(dir: Path, names: seq<string>): (ps: seq<Path>)
    ensures |ps| == |names|
    ensures forall k :: 0 <= k < |names| ==> ps[k] == dir + [names[k]]
  {
    seq(|names|, k requires 0 <= k < |names| => dir + [names[k]])
  }

  lemma PathsInAppend(dir: Path, a: seq<string>, b: seq<string>)
    ensures PathsIn(dir, a + b) == PathsIn(dir, a) + PathsIn(dir, b)
  {
  }

  /** What `collect_module_files` pushes for a module: its code files, its manifest, then each submodule's list. */
  function ModuleFiles(base: Path, m: Module, language: string): seq<Path>
    decreases m, 1
  {
    var dir := base + [ModuleName(m)];
    PathsIn(dir, FileNames(m.file, language) + SpecialFiles(m, language)) + TreeFiles(dir, m.tree, language)
  }

  function TreeFiles(base: Path, ms: seq<Module>, language: string): seq<Path>
    decreases ms, 0
  {
    if ms == [] then [] else TreeFiles(base, ms[..|ms| - 1], language) + ModuleFiles(base, ms[|ms| - 1], language)
  }

  /** The relative directory of a project's files: empty for the root project, its name otherwise. */
  function ProjectBase(project: Project): Path {
    if project.root then [] else [project.name]
  }

  /** The language-specific files `get_project_files` appends. */
  function ExtraFiles(project: Project): seq<Path> {
    var b := ProjectBase(project);
    if project.lang == "rust" then (if FirstSrc(project.tree).Some? then [b + ["src", "main.rs"]] else [])
    else if project.lang == "typescript" then [b + ["package.json"], b + ["tsconfig.json"]]
    else []
  }

  /** `get_project_files`: the module files of every top-level module, then the extra files. */
  function ProjectFiles(project: Project): seq<Path> {
    TreeFiles(ProjectBase(project), project.tree, project.lang) + ExtraFiles(project)
  }

  /** Every path listed for a module lies in its directory, one or more levels down. */
  lemma {:induction false} ModuleFilesUnder(base: Path, m: Module, language: string)
    ensures forall p :: p in ModuleFiles(base, m, language) ==> |p| > |base| + 1 && p[..|base| + 1] == base + [ModuleName(m)]
    decreases m, 1
  {
    var dir := base + [ModuleName(m)];
    TreeFilesUnder(dir, m.tree, language);
    forall p | p in ModuleFiles(base, m, language) ensures |p| > |base| + 1 && p[..|base| + 1] == dir {
      if p in TreeFiles(dir, m.tree, language) {
        assert p[..|base| + 1] == p[..|dir| + 1][..|dir|];
      }
    }
  }

  /** Every path listed for submodules of `base` lies at least two levels under `base`. */
  lemma {:induction false} TreeFilesUnder(base: Path, ms: seq<Module>, language: string)
    ensures forall p :: p in TreeFiles(base, ms, language) ==> |p| > |base| + 1 && p[..|base|] == base
    decreases ms, 0
  {
    if ms != [] {
      TreeFilesUnder(base, ms[..|ms| - 1], language);
      ModuleFilesUnder(base, ms[|ms| - 1], language);
      forall p | p in ModuleFiles(base, ms[|ms| - 1], language) ensures |p| > |base| + 1 && p[..|base|] == base {
        assert p[..|base|] == p[..|base| + 1][..|base|];
      }
    }
  }

  /**
   * The paths listed directly in a module's directory are exactly its code
   * files and its manifest.
   */
  lemma DirectFilesListed(base: Path, m: Module, language: string, x: string)
    ensures base + [ModuleName(m), x] in ModuleFiles(base, m, language)
            <==> x in FileNames(m.file, language) || x in SpecialFiles(m, language)
  {
    var dir := base + [ModuleName(m)];
    var names := FileNames(m.file, language) + SpecialFiles(m, language);
    assert base + [ModuleName(m), x] == dir + [x];
    TreeFilesUnder(dir, m.tree, language);
    if dir + [x] in PathsIn(dir, names) {
      var k :| 0 <= k < |names| && PathsIn(dir, names)[k] == dir + [x];
      assert (dir + [names[k]])[|dir|] == names[k];
    }
    if x in names {
      var k :| 0 <= k < |names| && names[k] == x;
      assert PathsIn(dir, names)[k] == dir + [x];
    }
  }

  /**
   * `collect_module_files`: pushes the module's code files, its manifest,
   * then each submodule's files, recursively, onto `acc`.
   */
  method CollectModuleFiles(base: Path, m: Module, language: string, acc: seq<Path>) returns (files: seq<Path>)
    decreases m, 1
    ensures files == acc + ModuleFiles(base, m, language)
  {
    var dir := base + [ModuleName(m)];
    var names := FileNames(m.file, language);
    files := acc;
    var j := 0;
    while j < |m.file|
      invariant j <= |m.file|
      invariant files == acc + PathsIn(dir, names[..j])
    {
      files := files + [dir + [FilenameWithExtension(m.file[j], language)]];
      assert PathsIn(dir, names[..j + 1]) == PathsIn(dir, names[..j]) + [dir + [names[j]]];
      j := j + 1;
    }
    assert names[..j] == names;
    files := PushSpecialFiles(dir, m, language, files);
    PathsInAppend(dir, names, SpecialFiles(m, language));
    files := CollectTreeFiles(dir, m.tree, language, files);
    assert ModuleFiles(base, m, language) == PathsIn(dir, names + SpecialFiles(m, language)) + TreeFiles(dir, m.tree, language);
  }

  /** The manifest push of `collect_module_files`: `mod.rs` for Rust modules other than `src`, `index.ts` for TypeScript, only for a non-empty module. */
  method PushSpecialFiles(dir: Path, m: Module, language: string, acc: seq<Path>) returns (files: seq<Path>)
    ensures files == acc + PathsIn(dir, SpecialFiles(m, language))
  {
    files := acc;
    if language == "rust" {
      if ModuleName(m) != "src" && (|m.tree| > 0 || |m.file| > 0) {
        files := files + [dir + ["mod.rs"]];
      }
    } else if language == "typescript" {
      if |m.tree| > 0 || |m.file| > 0 {
        files := files + [dir + ["index.ts"]];
      }
    }
  }

  /** The submodule loop of `collect_module_files`. */
  method CollectTreeFiles(base: Path, ms: seq<Module>, language: string, acc: seq<Path>) returns (files: seq<Path>)
    decreases ms, 0
    ensures files == acc + TreeFiles(base, ms, language)
  {
    files := acc;
    var j := 0;
    while j < |ms|
      invariant j <= |ms|
      invariant files == acc + TreeFiles(base, ms[..j], language)
    {
      files := CollectModuleFiles(base, ms[j], language, files);
      TreeFilesSnoc(base, ms, language, j);
      AppendAssoc(acc, TreeFiles(base, ms[..j], language), ModuleFiles(base, ms[j], language));
      j := j + 1;
    }
    assert ms[..j] == ms;
  }

  lemma TreeFilesSnoc(base: Path, ms: seq<Module>, language: string, j: nat)
    requires j < |ms|
    ensures TreeFiles(base, ms[..j + 1], language) == TreeFiles(base, ms[..j], language) + ModuleFiles(base, ms[j], language)
  {
    assert ms[..j + 1][..j] == ms[..j] && ms[..j + 1][j] == ms[j];
  }

  /** `get_project_files`. */
  method GetProjectFiles(project: Project) returns (files: seq<Path>)
    ensures files == ProjectFiles(project)
  {
    var b := if project.root then [] else [project.name];
    files := CollectTreeFiles(b, project.tree, project.lang, []);
    if project.lang == "rust" {
      if FirstSrc(project.tree).Some? {
        files := files + [b + ["src", "main.rs"]];
      }
    } else if project.lang == "typescript" {
      files := files + [b + ["package.json"], b + ["tsconfig.json"]];
    }
  }

  /** `files_exist`: every expected path, taken from `base`, is a file. */
  predicate FilesExist(fsFiles: map<Path, string>, base: Path, project: Project) {
    forall k :: 0 <= k < |ProjectFiles(project)| ==> base + ProjectFiles(project)[k] in fsFiles
  }

  /**
   * The generic builder writes every file the list expects for its
   * languages: after a successful generic build, every expected path is a
   * file.
   */
  lemma GenericBuildFilesExist(fsFiles: map<Path, string>, base: Path, project: Project)
    requires project.lang !in {"rust", "typescript"}
    requires TreeGenericWritten(fsFiles, DirectoryBuilder.ProjectPath(base, project), project.tree, project.lang)
    ensures FilesExist(fsFiles, base, project)
  {
    assert DirectoryBuilder.ProjectPath(base, project) == base + ProjectBase(project);
    TreeFilesWritten(fsFiles, base, ProjectBase(project), project.tree, project.lang);
    assert ProjectFiles(project) == TreeFiles(ProjectBase(project), project.tree, project.lang);
  }

  lemma {:induction false} ModuleFilesWritten(fsFiles: map<Path, string>, root: Path, b: Path, m: Module, language: string)
    requires language !in {"rust", "typescript"}
    requires GenericWritten(fsFiles, root + b, m, language)
    ensures forall p :: p in ModuleFiles(b, m, language) ==> root + p in fsFiles
    decreases m, 1
  {
    var dir := b + [ModuleName(m)];
    assert root + dir == (root + b) + [ModuleName(m)];
    TreeFilesWritten(fsFiles, root, dir, m.tree, language);
    var names := FileNames(m.file, language);
    assert SpecialFiles(m, language) == [] && names + [] == names;
    forall p | p in PathsIn(dir, names) ensures root + p in fsFiles {
      var k :| 0 <= k < |names| && PathsIn(dir, names)[k] == p;
      assert root + p == (root + b) + [ModuleName(m)] + [FilenameWithExtension(m.file[k], language)];
    }
  }

  lemma {:induction false} TreeFilesWritten(fsFiles: map<Path, string>, root: Path, b: Path, ms: seq<Module>, language: string)
    requires language !in {"rust", "typescript"}
    requires TreeGenericWritten(fsFiles, root + b, ms, language)
    ensures forall p :: p in TreeFiles(b, ms, language) ==> root + p in fsFiles
    decreases ms, 0
  {
    if ms != [] {
      var n := |ms| - 1;
      assert TreeGenericWritten(fsFiles, root + b, ms[..n], language) by {
        forall k | 0 <= k < n ensures GenericWritten(fsFiles, root + b, ms[..n][k], language) {
          assert ms[..n][k] == ms[k];
        }
      }
      TreeFilesWritten(fsFiles, root, b, ms[..n], language);
      ModuleFilesWritten(fsFiles, root, b, ms[n], language);
    }
  }

  /** The files expected in `src/domain` with the code file `model`: `model.rs`, then `mod.rs`. */
  lemma DomainFilesExample()
    ensures ModuleFiles(["src"], Module(Some("domain"), None, None, [], [CodeFile("model", None)]), "rust")
            == [["src", "domain", "model.rs"], ["src", "domain", "mod.rs"]]
  {
    var model := CodeFile("model", None);
    var domain := Module(Some("domain"), None, None, [], [model]);
    var dir: Path := ["src", "domain"];
    assert ["src"] + [ModuleName(domain)] == dir;
    assert '.' !in model.name;
    assert FilenameWithExtension(model, "rust") == "model.rs";
    assert FileNames([model], "rust") == ["model.rs"];
    assert ModuleName(domain) != "src";
    assert SpecialFiles(domain, "rust") == ["mod.rs"];
    assert PathsIn(dir, ["model.rs"] + ["mod.rs"]) == [dir + ["model.rs"], dir + ["mod.rs"]];
    assert dir + ["model.rs"] == ["src", "domain", "model.rs"] && dir + ["mod.rs"] == ["src", "domain", "mod.rs"];
  }

  /**
   * The expected files of the root Rust project `app` with a module `src`
   * holding a module `domain` with the file `model`: `src` gets no
   * `mod.rs`, `domain` does, and `src/main.rs` closes the list.
   */
  lemma ProjectFilesExample()
    ensures var domain := Module(Some("domain"), None, None, [], [CodeFile("model", None)]);
            var src := Module(Some("src"), None, None, [domain], []);
            ProjectFiles(Project("app", true, "rust", [], [src]))
            == [["src", "domain", "model.rs"], ["src", "domain", "mod.rs"], ["src", "main.rs"]]
  {
    var domain := Module(Some("domain"), None, None, [], [CodeFile("model", None)]);
    var src := Module(Some("src"), None, None, [domain], []);
    var project := Project("app", true, "rust", [], [src]);
    DomainFilesExample();
    assert [src][..0] == [] && [domain][..0] == [];
    assert ([] + [ModuleName(src)]) == ["src"];
    assert TreeFiles(["src"], [domain], "rust") == ModuleFiles(["src"], domain, "rust");
    assert SpecialFiles(src, "rust") == [] && FileNames(src.file, "rust") == [];
    assert PathsIn(["src"], [] + []) == [];
    assert ModuleFiles([], src, "rust") == TreeFiles(["src"], [domain], "rust");
    assert TreeFiles([], [src], "rust") == ModuleFiles([], src, "rust");
    assert FirstSrc(project.tree) == Some(src);
    assert ProjectBase(project) == [] && [] + ["src", "main.rs"] == ["src", "main.rs"];
    assert ExtraFiles(project) == [["src", "main.rs"]];
  }
}
