/**
 * The JavaScript module generator: one directory per module, an empty file
 * per code file (only where nothing exists), and, in a module that lists
 * `index` among its code files, an `index.js` manifest re-exporting the
 * module's JavaScript files by their file names and each submodule's
 * `index.js`. `package.json` and the project's `index.js` are created
 * only where absent.
 */
module JavaScriptGenerator {
  import opened Results
  import opened Text
  import opened Models
  import opened FileSystem
  import opened Generation
  import opened ExportBlock

  /** A file the manifest re-exports: its on-disk name ends in ".js", ".jsx" or ".mjs". */
  predicate IsJavaScriptCodeFile(filename: string) {
    EndsWith(filename, ".js") || EndsWith(filename, ".jsx") || EndsWith(filename, ".mjs")
  }

  function ExportFrom(importPath: string): string {
    "export * from '" + importPath + "';"
  }

  /**
   * The import path of a code file's export: the file name as written when
   * the spec name has a '.', else the spec name with ".js".
   */
  function ImportPath(f: CodeFile): string {
    if '.' in f.name then "./" + FilenameWithExtension(f, "javascript") else "./" + f.name + ".js"
  }

  /** Either way the export imports the file that was created. */
  lemma ImportPathIsFileName(f: CodeFile)
    ensures ImportPath(f) == "./" + FilenameWithExtension(f, "javascript")
  {
    FilenameWithExtensionSpec(f, "javascript");
    if '.' !in f.name {
      assert f.name + "." + ExtensionFor("javascript") == f.name + ".js";
    }
  }

  /** A code file is re-exported when it is a JavaScript file other than `index.js`. */
  predicate ExportsFile(f: CodeFile) {
    var n := FilenameWithExtension(f, "javascript");
    IsJavaScriptCodeFile(n) && n != "index.js"
  }

  function FileExport(f: CodeFile): string {
    ExportFrom(ImportPath(f))
  }

  /** The export of a submodule: the `index.js` in its directory. */
  function SubmoduleExport(m: Module): string {
    ExportFrom("./" + ModuleName(m) + "/index.js")
  }

  /** What a module's `index.js` re-exports: its code files, then its submodules. */
  function IndexExports(m: Module): seq<string> {
    FileEntries(m.file, ExportsFile, FileExport) + SubmoduleEntries(m.tree, SubmoduleExport)
  }

  /** `index.js` never re-exports itself: a file named `index` is listed but not exported. */
  lemma IndexNotExported(f: CodeFile)
    requires f.name == "index" || FilenameWithExtension(f, "javascript") == "index.js"
    ensures FilenameWithExtension(f, "javascript") == "index.js" && !ExportsFile(f)
  {
    if f.name == "index" {
      assert '.' !in f.name by {
        assert f.name == ['i', 'n', 'd', 'e', 'x'];
      }
    }
  }

  /** A file given as `button.jsx` keeps its name and is exported by it. */
  lemma JsxFileExported()
    ensures var button := CodeFile("button.jsx", None);
            ExportsFile(button) && FileExport(button) == "export * from './button.jsx';"
  {
    var button := CodeFile("button.jsx", None);
    var n := "button.jsx";
    assert button.name[6] == '.';
    assert FilenameWithExtension(button, "javascript") == n;
    assert n[|n| - 4..] == ".jsx";
    assert n != "index.js" by {
      assert |n| != |"index.js"|;
    }
    assert ImportPath(button) == "./" + n;
  }

  /**
   * The exports of `components` with code files `button.jsx` and `index`,
   * and submodule `forms`: files keep their extension, submodules point
   * at their `index.js`.
   */
  lemma IndexExportsExample()
    ensures var forms := Module(Some("forms"), None, None, [], []);
            IndexExports(Module(Some("components"), None, None, [forms], [CodeFile("button.jsx", None), CodeFile("index", None)]))
            == ["export * from './button.jsx';", "export * from './forms/index.js';"]
  {
    var forms := Module(Some("forms"), None, None, [], []);
    var button, index := CodeFile("button.jsx", None), CodeFile("index", None);
    FileExportsExample();
    SubmoduleExportExample();
    assert IndexExports(Module(Some("components"), None, None, [forms], [button, index]))
           == ["export * from './button.jsx';"] + ["export * from './forms/index.js';"];
  }

  /** Of the code files `button.jsx` and `index`, only the first is exported. */
  lemma FileExportsExample()
    ensures FileEntries([CodeFile("button.jsx", None), CodeFile("index", None)], ExportsFile, FileExport) == ["export * from './button.jsx';"]
  {
    ButtonIndexExports(CodeFile("button.jsx", None), CodeFile("index", None));
  }

  lemma ButtonIndexExports(button: CodeFile, index: CodeFile)
    requires button == CodeFile("button.jsx", None) && index.name == "index"
    ensures FileEntries([button, index], ExportsFile, FileExport) == ["export * from './button.jsx';"]
  {
    JsxFileExported();
    IndexNotExported(index);
    ExportsOnlyFirst(button, index);
  }

  /** Of two code files, when only the first is exported, the export list is the first's export. */
  lemma ExportsOnlyFirst(a: CodeFile, b: CodeFile)
    requires ExportsFile(a) && !ExportsFile(b)
    ensures FileEntries([a, b], ExportsFile, FileExport) == [FileExport(a)]
  {
    assert [a, b][..1] == [a] && [a][..0] == [];
    assert FileEntries([a], ExportsFile, FileExport) == [FileExport(a)];
  }

  /** The submodule `forms` is exported through its `index.js`. */
  lemma SubmoduleExportExample()
    ensures SubmoduleEntries([Module(Some("forms"), None, None, [], [])], SubmoduleExport) == ["export * from './forms/index.js';"]
  {
    var forms := Module(Some("forms"), None, None, [], []);
    assert [forms][..0] == [];
    assert ModuleName(forms) == "forms";
    assert "./" + "forms" + "/index.js" == "./forms/index.js";
    assert SubmoduleEntries([forms], SubmoduleExport) == [SubmoduleExport(forms)];
    assert SubmoduleExport(forms) == ExportFrom("./forms/index.js");
    assert ExportFrom("./forms/index.js") == "export * from './forms/index.js';";
  }

  /**
   * The export loops of `generate_module`: the code files' exports are
   * pushed first, then one per submodule.
   */
  method ExportDeclarations(m: Module) returns (decls: seq<string>)
    ensures decls == IndexExports(m)
  {
    var fileExports := FileExportDeclarations(m.file);
    var submoduleExports := SubmoduleExportDeclarations(m.tree);
    decls := fileExports + submoduleExports;
  }

  /** The first loop of the export list: one export per re-exported code file, in order. */
  method FileExportDeclarations(files: seq<CodeFile>) returns (exports: seq<string>)
    ensures exports == FileEntries(files, ExportsFile, FileExport)
  {
    exports := [];
    var j := 0;
    while j < |files|
      invariant j <= |files|
      invariant exports == FileEntries(files[..j], ExportsFile, FileExport)
    {
      var f := files[j];
      var filename := FilenameWithExtension(f, "javascript");
      FileEntriesSnoc(files, ExportsFile, FileExport, j);
      if IsJavaScriptCodeFile(filename) && filename != "index.js" {
        var importPath := if '.' in f.name then "./" + filename else "./" + f.name + ".js";
        exports := exports + [ExportFrom(importPath)];
      }
      j := j + 1;
    }
    assert files[..j] == files;
  }

  /** The second loop of the export list: one export per submodule, in order. */
  method SubmoduleExportDeclarations(ms: seq<Module>) returns (exports: seq<string>)
    ensures exports == SubmoduleEntries(ms, SubmoduleExport)
  {
    exports := [];
    var k := 0;
    while k < |ms|
      invariant k <= |ms|
      invariant exports == SubmoduleEntries(ms[..k], SubmoduleExport)
    {
      SubmoduleEntriesSnoc(ms, SubmoduleExport, k);
      exports := exports + [ExportFrom("./" + ModuleName(ms[k]) + "/index.js")];
      k := k + 1;
    }
    assert ms[..k] == ms;
  }

  /** Whether the module lists `index` (or `index.js`) among its code files. */
  function HasExplicitIndex(files: seq<CodeFile>): bool {
    AnyNamed(files, "index", "index.js", "javascript")
  }

  /** A module lists `index` exactly when one of its code files is written as `index.js`. */
  lemma HasExplicitIndexSpec(files: seq<CodeFile>)
    ensures HasExplicitIndex(files) <==> "index.js" in FileNames(files, "javascript")
  {
    assert "index" == ['i', 'n', 'd', 'e', 'x'];
    AnyNamedListed(files, "index", "index.js", "javascript");
  }

  /**
   * What happens to the module's `index.js`: when the module lists `index`,
   * the updater rewrote it, seeing its earlier content or the empty file
   * just created; otherwise it is left as it was.
   */
  predicate IndexJsResult(before: map<Path, string>, after: map<Path, string>, base: Path, m: Module, update: Updater, r: Outcome) {
    var p := base + [ModuleName(m), "index.js"];
    (r == Done && HasExplicitIndex(m.file) ==> Updated(before, after, p, true, IndexExports(m), update))
    && (!HasExplicitIndex(m.file) ==> Same(before, after, p))
  }

  /**
   * `generate_module`: creates the module's directory, its code files
   * where nothing exists, its submodules in order, and, when the module
   * lists `index`, passes the exports to the `index.js` updater. Files
   * that existed keep their content, except `index.js` manifests; nothing
   * is written outside the module's directory.
   */
  method GenerateModule(fs: Fs, base: Path, m: Module, update: Updater) returns (r: Outcome)
    modifies fs
    decreases m, 1
    ensures old(fs.dirs) <= fs.dirs
    ensures KeptExcept(old(fs.files), fs.files, "index.js")
    ensures ChangedOnlyUnder(old(fs.files), fs.files, base + [ModuleName(m)])
    ensures old(fs.Blocked(base + [ModuleName(m)])) ==> r == Failed(base + [ModuleName(m)])
    ensures r == Done ==> Generated(fs.files, fs.dirs, base, m, "javascript")
    ensures IndexJsResult(old(fs.files), fs.files, base, m, update, r)
  {
    var dir := base + [ModuleName(m)];
    var names := FileNames(m.file, "javascript");
    ghost var f0 := fs.files;
    r := fs.CreateDirAll(dir);
    if r.Failed? {
      return;
    }
    // The directory now exists, so creating the code files cannot fail.
    r := CreateCodeFiles(fs, dir, names, NoContent);
    ghost var f1, d1 := fs.files, fs.dirs;
    r := GenerateSubmodules(fs, dir, m.tree, update);
    ghost var f2, d2 := fs.files, fs.dirs;
    SubtreeFrame(f0, f1, f2, dir, names, NoContent, "index.js");
    HasExplicitIndexSpec(m.file);
    assert dir + ["index.js"] == base + [ModuleName(m), "index.js"];
    if r.Failed? {
      return;
    }
    FilesPresentGrows(f1, d1, f2, d2, dir, names);
    assert Generated(f2, d2, base, m, "javascript");
    if HasExplicitIndex(m.file) {
      var decls := ExportDeclarations(m);
      var p := dir + ["index.js"];
      ghost var prior;
      r, prior := fs.Update(p, decls, update);
      if r == Done {
        ManifestFrame(f0, f2, dir, "index.js", update(prior, decls));
        PriorContent(f0, f1, f2, d1, dir, names, NoContent, "index.js");
        GeneratedGrows(f2, d2, fs.files, fs.dirs, base, m, "javascript");
      }
    }
  }

  /** The submodule loop of `generate_module`: each submodule in order, stopping at the first failure. */
  method GenerateSubmodules(fs: Fs, dir: Path, ms: seq<Module>, update: Updater) returns (r: Outcome)
    modifies fs
    decreases ms, 0
    ensures old(fs.dirs) <= fs.dirs
    ensures KeptExcept(old(fs.files), fs.files, "index.js")
    ensures ChangedOnlyDeeper(old(fs.files), fs.files, dir)
    ensures r == Done ==> TreeGenerated(fs.files, fs.dirs, dir, ms, "javascript")
  {
    var j := 0;
    while j < |ms|
      invariant j <= |ms|
      invariant old(fs.dirs) <= fs.dirs
      invariant KeptExcept(old(fs.files), fs.files, "index.js")
      invariant ChangedOnlyDeeper(old(fs.files), fs.files, dir)
      invariant AllGenerated(fs.files, fs.dirs, dir, ms[..j], "javascript")
    {
      ghost var f, d := fs.files, fs.dirs;
      r := GenerateModule(fs, dir, ms[j], update);
      KeptExceptTrans(old(fs.files), f, fs.files, "index.js");
      ChangedOnlyUnderChild(f, fs.files, dir, ModuleName(ms[j]));
      ChangedOnlyDeeperTrans(old(fs.files), f, fs.files, dir);
      if r.Failed? {
        return;
      }
      KeptExceptKeys(f, fs.files, "index.js");
      AllGeneratedStep(f, d, fs.files, fs.dirs, dir, ms, "javascript", j);
      j := j + 1;
    }
    assert ms[..j] == ms;
    AllTreeGenerated(fs.files, fs.dirs, dir, ms, "javascript");
    return Done;
  }

  /** `get_module_name_for_export`: the spec name up to its last '.', when it ends in ".js", ".mjs" or ".jsx". */
  function ExportName(f: CodeFile): string {
    var name := f.name;
    if EndsWith(name, ".js") || EndsWith(name, ".mjs") || EndsWith(name, ".jsx") then
      assert '.' in name by {
        var ext := if EndsWith(name, ".js") then ".js" else if EndsWith(name, ".mjs") then ".mjs" else ".jsx";
        StrippedExtensionShape(ext);
        LastDotOfExtension(name, ext);
      }
      name[..LastIndexOf(name, '.')]
    else
      name
  }

  /** The extensions `get_module_name_for_export` drops. */
  const StrippedExtensions: seq<string> := [".js", ".mjs", ".jsx"]

  lemma StrippedExtensionShape(ext: string)
    requires ext in StrippedExtensions
    ensures |ext| > 0 && ext[0] == '.' && '.' !in ext[1..]
  {
    if ext == ".js" {
      assert ext[1..] == "js";
    } else if ext == ".mjs" {
      assert ext[1..] == "mjs";
    } else {
      assert ext[1..] == "jsx";
    }
  }

  /** A name ending in one of the dropped extensions loses exactly that extension. */
  lemma ExportNameStrips(f: CodeFile, ext: string)
    requires ext in StrippedExtensions && EndsWith(f.name, ext)
    ensures ExportName(f) + ext == f.name
  {
    StrippedExtensionShape(ext);
    LastDotOfExtension(f.name, ext);
  }

  /** `generate_package_json`: `package.json` in the project directory, only if nothing is there. */
  method GeneratePackageJson(fs: Fs, projectPath: Path, projectName: string) returns (r: Outcome)
    modifies fs
    ensures fs.dirs == old(fs.dirs)
    ensures WroteIfAbsent(old(fs.files), old(fs.dirs), fs.files, projectPath + ["package.json"], PackageJsonContent(projectName), r)
  {
    r := fs.CreateIfAbsent(projectPath + ["package.json"], PackageJsonContent(projectName));
  }

  /** `generate_main_index_js`: the project's `index.js`, only if nothing is there. */
  method GenerateMainIndexJs(fs: Fs, projectPath: Path) returns (r: Outcome)
    modifies fs
    ensures fs.dirs == old(fs.dirs)
    ensures WroteIfAbsent(old(fs.files), old(fs.dirs), fs.files, projectPath + ["index.js"], MainIndexJsContent, r)
  {
    r := fs.CreateIfAbsent(projectPath + ["index.js"], MainIndexJsContent);
  }

  /**
   * `should_generate_main_index_js`: the project gets an `index.js` exactly
   * when no project-level file, and no file of any module at any depth, is
   * named `index` or `index.js`.
   */
  method ShouldGenerateMainIndexJs(project: Project) returns (b: bool)
    ensures b <==> (forall k :: 0 <= k < |project.file| ==> !IsNamed(project.file[k], "index", "index.js", "javascript"))
                   && (forall k :: 0 <= k < |FlattenTree(project.tree)| ==> !AnyNamed(FlattenTree(project.tree)[k].file, "index", "index.js", "javascript"))
  {
    b := SearchProject(project, "index", "index.js", "javascript");
    NoneNamedSpec(project, "index", "index.js", "javascript");
  }

  /** `generate_index_js_content`: the exports between the markers. */
  function IndexJsContent(decls: seq<string>): string {
    Block("//", decls)
  }

  /** Read back line by line, `index.js` holds the markers around exactly the exports. */
  lemma IndexJsContentLines(decls: seq<string>)
    requires NoneContains(decls, '\n')
    ensures Lines(IndexJsContent(decls)) == BlockLineSeq("//", decls)
  {
    BlockLines("//", decls);
  }

  /** `generate_package_json_content`: an ES-module package named after the project. */
  function PackageJsonContent(projectName: string): string {
    PackageJsonHead + projectName + PackageJsonTail
  }

  const PackageJsonHead: string := "{\n  \"name\": \""

  const PackageJsonTail: string :=
    "\",\n"
    + "  \"version\": \"1.0.0\",\n  \"description\": \"\",\n  \"main\": \"index.js\",\n  \"type\": \"module\",\n"
    + "  \"scripts\": {\n    \"start\": \"node index.js\",\n    \"dev\": \"node --watch index.js\",\n"
    + "    \"test\": \"echo \\\"Error: no test specified\\\" && exit 1\"\n  },\n"
    + "  \"keywords\": [],\n  \"author\": \"\",\n  \"license\": \"ISC\"\n}\n"

  /** `generate_main_index_js_content`. */
  const MainIndexJsContent: string := "console.log(\"Hello, world!\");\n"
}
