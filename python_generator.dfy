/**
 * The Python package generator: one directory per module, an empty file per
 * code file (only where nothing exists), and in every module an
 * `__init__.py` importing everything from the module's Python files and
 * submodules. `requirements.txt`, `setup.py` and `main.py` are created only
 * where absent.
 */
module PythonGenerator {
  import opened Results
  import opened Text
  import opened Models
  import opened FileSystem
  import opened Generation
  import opened ExportBlock

  /** A file `__init__.py` imports from: its on-disk name ends in ".py". */
  predicate IsPythonCodeFile(filename: string) {
    EndsWith(filename, ".py")
  }

  /** `get_module_name_for_import`: the spec name without a final ".py". */
  function ImportName(f: CodeFile): string {
    if EndsWith(f.name, ".py") then f.name[..|f.name| - 3] else f.name
  }

  function ImportFrom(name: string): string {
    "from ." + name + " import *"
  }

  /** A code file is imported when it is a Python file other than `__init__.py`. */
  predicate ImportsFile(f: CodeFile) {
    var n := FilenameWithExtension(f, "python");
    IsPythonCodeFile(n) && n != "__init__.py"
  }

  function FileImport(f: CodeFile): string {
    ImportFrom(ImportName(f))
  }

  function SubmoduleImport(m: Module): string {
    ImportFrom(ModuleName(m))
  }

  /** What a module's `__init__.py` imports: its code files, then its submodules. */
  function InitImports(m: Module): seq<string> {
    FileEntries(m.file, ImportsFile, FileImport) + SubmoduleEntries(m.tree, SubmoduleImport)
  }

  /**
   * An imported file's module name is the file that was created, without
   * ".py": the import resolves to that file, whether or not the spec name
   * carried the extension.
   */
  lemma ImportNameResolves(f: CodeFile)
    requires ImportsFile(f)
    ensures ImportName(f) + ".py" == FilenameWithExtension(f, "python")
  {
    var n := FilenameWithExtension(f, "python");
    FilenameWithExtensionSpec(f, "python");
    if '.' in f.name {
      assert n == f.name;
      assert f.name[..|f.name| - 3] + f.name[|f.name| - 3..] == f.name;
    } else {
      assert n == f.name + ".py";
      if |f.name| >= 3 {
        assert f.name[|f.name| - 3] in f.name;
      }
    }
  }

  /** `__init__.py` never imports itself: a file named `__init__` is listed but not imported. */
  lemma InitNotImported(f: CodeFile)
    requires f.name == "__init__" || FilenameWithExtension(f, "python") == "__init__.py"
    ensures FilenameWithExtension(f, "python") == "__init__.py" && !ImportsFile(f)
  {
    if f.name == "__init__" {
      assert '.' !in f.name by {
        assert f.name == ['_', '_', 'i', 'n', 'i', 't', '_', '_'];
      }
    }
  }

  /** Of the code files `models.py` and `__init__`, only the first is imported, by its stem. */
  lemma FileImportsExample()
    ensures FileEntries([CodeFile("models.py", None), CodeFile("__init__", None)], ImportsFile, FileImport) == ["from .models import *"]
  {
    var models, init := CodeFile("models.py", None), CodeFile("__init__", None);
    assert models.name[6] == '.';
    var n := "models.py";
    assert FilenameWithExtension(models, "python") == n;
    assert n[|n| - 3..] == ".py";
    assert n != "__init__.py" by {
      assert |n| != |"__init__.py"|;
    }
    assert ImportName(models) == "models";
    assert FileImport(models) == "from .models import *";
    InitNotImported(init);
    assert [models, init][..1] == [models] && [models][..0] == [];
    assert FileEntries([models], ImportsFile, FileImport) == [FileImport(models)];
  }

  /** The submodule `api` is imported by its directory name. */
  lemma SubmoduleImportExample()
    ensures SubmoduleEntries([Module(Some("api"), None, None, [], [])], SubmoduleImport) == ["from .api import *"]
  {
    var api := Module(Some("api"), None, None, [], []);
    assert [api][..0] == [];
    assert SubmoduleEntries([api], SubmoduleImport) == [SubmoduleImport(api)];
    assert ModuleName(api) == "api";
    assert ImportFrom("api") == "from .api import *";
  }

  /** The imports of `app` with code files `models.py` and `__init__`, and submodule `api`. */
  lemma InitImportsExample()
    ensures var api := Module(Some("api"), None, None, [], []);
            InitImports(Module(Some("app"), None, None, [api], [CodeFile("models.py", None), CodeFile("__init__", None)]))
            == ["from .models import *", "from .api import *"]
  {
    var api := Module(Some("api"), None, None, [], []);
    FileImportsExample();
    SubmoduleImportExample();
    assert InitImports(Module(Some("app"), None, None, [api], [CodeFile("models.py", None), CodeFile("__init__", None)]))
           == ["from .models import *"] + ["from .api import *"];
  }

  /**
   * The import loops of `generate_module`: the code files' imports are
   * pushed first, then one per submodule.
   */
  method ImportStatements(m: Module) returns (imports: seq<string>)
    ensures imports == InitImports(m)
  {
    imports := [];
    var j := 0;
    while j < |m.file|
      invariant j <= |m.file|
      invariant imports == FileEntries(m.file[..j], ImportsFile, FileImport)
    {
      var f := m.file[j];
      var filename := FilenameWithExtension(f, "python");
      FileEntriesSnoc(m.file, ImportsFile, FileImport, j);
      if IsPythonCodeFile(filename) && filename != "__init__.py" {
        imports := imports + [ImportFrom(ImportName(f))];
      }
      j := j + 1;
    }
    assert m.file[..j] == m.file;
    ghost var fileImports := imports;
    var k := 0;
    while k < |m.tree|
      invariant k <= |m.tree|
      invariant imports == fileImports + SubmoduleEntries(m.tree[..k], SubmoduleImport)
    {
      SubmoduleEntriesSnoc(m.tree, SubmoduleImport, k);
      imports := imports + [ImportFrom(ModuleName(m.tree[k]))];
      k := k + 1;
    }
    assert m.tree[..k] == m.tree;
  }

  /**
   * The module's `__init__.py` after a successful generation: the updater
   * rewrote it, seeing its earlier content, or the empty file just created
   * when `__init__` is one of the code files, or nothing.
   */
  predicate InitPyResult(before: map<Path, string>, after: map<Path, string>, base: Path, m: Module, update: Updater, r: Outcome) {
    var p := base + [ModuleName(m), "__init__.py"];
    r == Done ==> Updated(before, after, p, "__init__.py" in FileNames(m.file, "python"), InitImports(m), update)
  }

  /**
   * `generate_module`: creates the module's directory, its code files
   * where nothing exists, its submodules in order, and always passes the
   * imports to the `__init__.py` updater. Files that existed keep their
   * content, except `__init__.py` files; nothing is written outside the
   * module's directory.
   */
  method GenerateModule(fs: Fs, base: Path, m: Module, update: Updater) returns (r: Outcome)
    modifies fs
    decreases m, 1
    ensures old(fs.dirs) <= fs.dirs
    ensures KeptExcept(old(fs.files), fs.files, "__init__.py")
    ensures ChangedOnlyUnder(old(fs.files), fs.files, base + [ModuleName(m)])
    ensures old(fs.Blocked(base + [ModuleName(m)])) ==> r == Failed(base + [ModuleName(m)])
    ensures r == Done ==> Generated(fs.files, fs.dirs, base, m, "python")
    ensures InitPyResult(old(fs.files), fs.files, base, m, update, r)
  {
    var dir := base + [ModuleName(m)];
    var names := FileNames(m.file, "python");
    ghost var f0 := fs.files;
    r := fs.CreateDirAll(dir);
    if r.Failed? {
      return;
    }
    // The directory now exists, so creating the code files cannot fail.
    r := CreateCodeFiles(fs, dir, names, NoContent);
    ghost var f1, d1 := fs.files, fs.dirs;
    r := GenerateSubmodules(fs, dir, m.tree, update);
    ghost var f2, d2 := fs.files, fs.dirs;
    SubtreeFrame(f0, f1, f2, dir, names, NoContent, "__init__.py");
    assert dir + ["__init__.py"] == base + [ModuleName(m), "__init__.py"];
    if r.Failed? {
      return;
    }
    FilesPresentGrows(f1, d1, f2, d2, dir, names);
    assert Generated(f2, d2, base, m, "python");
    var imports := ImportStatements(m);
    var p := dir + ["__init__.py"];
    ghost var prior;
    r, prior := fs.Update(p, imports, update);
    if r == Done {
      ManifestFrame(f0, f2, dir, "__init__.py", update(prior, imports));
      PriorContent(f0, f1, f2, d1, dir, names, NoContent, "__init__.py");
      GeneratedGrows(f2, d2, fs.files, fs.dirs, base, m, "python");
    }
  }

  /** The submodule loop of `generate_module`: each submodule in order, stopping at the first failure. */
  method GenerateSubmodules(fs: Fs, dir: Path, ms: seq<Module>, update: Updater) returns (r: Outcome)
    modifies fs
    decreases ms, 0
    ensures old(fs.dirs) <= fs.dirs
    ensures KeptExcept(old(fs.files), fs.files, "__init__.py")
    ensures ChangedOnlyDeeper(old(fs.files), fs.files, dir)
    ensures r == Done ==> TreeGenerated(fs.files, fs.dirs, dir, ms, "python")
  {
    var j := 0;
    while j < |ms|
      invariant j <= |ms|
      invariant old(fs.dirs) <= fs.dirs
      invariant KeptExcept(old(fs.files), fs.files, "__init__.py")
      invariant ChangedOnlyDeeper(old(fs.files), fs.files, dir)
      invariant AllGenerated(fs.files, fs.dirs, dir, ms[..j], "python")
    {
      ghost var f, d := fs.files, fs.dirs;
      r := GenerateModule(fs, dir, ms[j], update);
      KeptExceptTrans(old(fs.files), f, fs.files, "__init__.py");
      ChangedOnlyUnderChild(f, fs.files, dir, ModuleName(ms[j]));
      ChangedOnlyDeeperTrans(old(fs.files), f, fs.files, dir);
      if r.Failed? {
        return;
      }
      KeptExceptKeys(f, fs.files, "__init__.py");
      AllGeneratedStep(f, d, fs.files, fs.dirs, dir, ms, "python", j);
      j := j + 1;
    }
    assert ms[..j] == ms;
    AllTreeGenerated(fs.files, fs.dirs, dir, ms, "python");
    return Done;
  }

  /** `generate_requirements_txt`: `requirements.txt` in the project directory, only if nothing is there. */
  method GenerateRequirementsTxt(fs: Fs, projectPath: Path) returns (r: Outcome)
    modifies fs
    ensures fs.dirs == old(fs.dirs)
    ensures WroteIfAbsent(old(fs.files), old(fs.dirs), fs.files, projectPath + ["requirements.txt"], RequirementsContent, r)
  {
    r := fs.CreateIfAbsent(projectPath + ["requirements.txt"], RequirementsContent);
  }

  /** `generate_setup_py`: `setup.py` in the project directory, only if nothing is there. */
  method GenerateSetupPy(fs: Fs, projectPath: Path, projectName: string) returns (r: Outcome)
    modifies fs
    ensures fs.dirs == old(fs.dirs)
    ensures WroteIfAbsent(old(fs.files), old(fs.dirs), fs.files, projectPath + ["setup.py"], SetupPyContent(projectName), r)
  {
    r := fs.CreateIfAbsent(projectPath + ["setup.py"], SetupPyContent(projectName));
  }

  /** `generate_main_py`: `main.py` in the project directory, only if nothing is there. */
  method GenerateMainPy(fs: Fs, projectPath: Path) returns (r: Outcome)
    modifies fs
    ensures fs.dirs == old(fs.dirs)
    ensures WroteIfAbsent(old(fs.files), old(fs.dirs), fs.files, projectPath + ["main.py"], MainPyContent, r)
  {
    r := fs.CreateIfAbsent(projectPath + ["main.py"], MainPyContent);
  }

  /**
   * `should_generate_main_py`: the project gets a `main.py` exactly when no
   * project-level file, and no file of any module at any depth, is named
   * `main` or `main.py`.
   */
  method ShouldGenerateMainPy(project: Project) returns (b: bool)
    ensures b <==> (forall k :: 0 <= k < |project.file| ==> !IsNamed(project.file[k], "main", "main.py", "python"))
                   && (forall k :: 0 <= k < |FlattenTree(project.tree)| ==> !AnyNamed(FlattenTree(project.tree)[k].file, "main", "main.py", "python"))
  {
    b := SearchProject(project, "main", "main.py", "python");
    NoneNamedSpec(project, "main", "main.py", "python");
  }

  /** `generate_init_py_content`: the imports between "#" markers. */
  function InitPyContent(imports: seq<string>): string {
    Block("#", imports)
  }

  /** Read back line by line, `__init__.py` holds the markers around exactly the imports. */
  lemma InitPyContentLines(imports: seq<string>)
    requires NoneContains(imports, '\n')
    ensures Lines(InitPyContent(imports)) == BlockLineSeq("#", imports)
  {
    BlockLines("#", imports);
  }

  /** `generate_requirements_content`: comments only. */
  const RequirementsContent: string :=
    "# Add your Python dependencies here\n# Example:\n# requests>=2.25.0\n# numpy>=1.21.0\n"

  /** `generate_setup_py_content`: a `setuptools` setup for a package named after the project. */
  function SetupPyContent(projectName: string): string {
    SetupPyHead + projectName + SetupPyTail
  }

  const SetupPyHead: string := "from setuptools import setup, find_packages\n\nsetup(\n    name=\""

  const SetupPyTail: string :=
    "\",\n    version=\"1.0.0\",\n    description=\"\",\n    packages=find_packages(),\n"
    + "    install_requires=[\n        # Add your dependencies here\n    ],\n"
    + "    python_requires=\">=3.8\",\n    author=\"\",\n    author_email=\"\",\n    url=\"\",\n"
    + "    classifiers=[\n        \"Development Status :: 3 - Alpha\",\n        \"Intended Audience :: Developers\",\n"
    + "        \"License :: OSI Approved :: MIT License\",\n        \"Programming Language :: Python :: 3\",\n"
    + "        \"Programming Language :: Python :: 3.8\",\n        \"Programming Language :: Python :: 3.9\",\n"
    + "        \"Programming Language :: Python :: 3.10\",\n        \"Programming Language :: Python :: 3.11\",\n"
    + "    ],\n)\n"

  /** `generate_main_py_content`. */
  const MainPyContent: string :=
    "#!/usr/bin/env python3\n\"\"\"Main entry point for the application.\"\"\"\n\n"
    + "def main():\n    \"\"\"Main function.\"\"\"\n    print(\"Hello, world!\")\n\n"
    + "if __name__ == \"__main__\":\n    main()\n"
}
