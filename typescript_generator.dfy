/**
 * The TypeScript module generator: one directory per module, an empty file
 * per code file (only where nothing exists), and, in a module that lists
 * `index` among its code files, an `index.ts` manifest re-exporting the
 * module's TypeScript files and submodules. `package.json` and
 * `tsconfig.json` are created only where absent.
 */
module TypeScriptGenerator {
  import opened Results
  import opened Text
  import opened Models
  import opened FileSystem
  import opened Generation
  import opened ExportBlock

  /** A file the manifest re-exports: its on-disk name ends in ".ts" or ".tsx". */
  predicate IsTypeScriptCodeFile(filename: string) {
    EndsWith(filename, ".ts") || EndsWith(filename, ".tsx")
  }

  /** The extensions an export drops so that the module path resolves. */
  const StrippedExtensions: seq<string> := [".ts", ".tsx", ".vue", ".js", ".jsx"]

  predicate HasStrippedExtension(name: string) {
    EndsWith(name, ".ts") || EndsWith(name, ".tsx") || EndsWith(name, ".vue") || EndsWith(name, ".js") || EndsWith(name, ".jsx")
  }

  /** Each stripped extension is a '.' followed by letters. */
  lemma StrippedExtensionShape(ext: string)
    requires ext in StrippedExtensions
    ensures |ext| > 0 && ext[0] == '.' && '.' !in ext[1..]
  {
    if ext == ".ts" {
      assert ext[1..] == "ts";
    } else if ext == ".tsx" {
      assert ext[1..] == "tsx";
    } else if ext == ".vue" {
      assert ext[1..] == "vue";
    } else if ext == ".js" {
      assert ext[1..] == "js";
    } else {
      assert ext[1..] == "jsx";
    }
  }

  /** `get_module_name_for_export`: the spec name up to its last '.', when it ends in a stripped extension. */
  function ExportName(f: CodeFile): string {
    var name := f.name;
    if HasStrippedExtension(name) then
      assert '.' in name by {
        var ext := if EndsWith(name, ".ts") then ".ts" else if EndsWith(name, ".tsx") then ".tsx"
                   else if EndsWith(name, ".vue") then ".vue" else if EndsWith(name, ".js") then ".js" else ".jsx";
        StrippedExtensionShape(ext);
        LastDotOfExtension(name, ext);
      }
      name[..LastIndexOf(name, '.')]
    else
      name
  }

  /** A name ending in one of the stripped extensions loses exactly that extension. */
  lemma ExportNameStrips(f: CodeFile, ext: string)
    requires ext in StrippedExtensions && EndsWith(f.name, ext)
    ensures ExportName(f) + ext == f.name
  {
    StrippedExtensionShape(ext);
    LastDotOfExtension(f.name, ext);
  }

  function ExportDecl(target: string): string {
    "export * from './" + target + "';"
  }

  /** A code file is re-exported when it is a TypeScript file other than `index.ts`. */
  predicate ExportsFile(f: CodeFile) {
    var n := FilenameWithExtension(f, "typescript");
    IsTypeScriptCodeFile(n) && n != "index.ts"
  }

  /** The export of a code file: its spec name, without a stripped extension. */
  function FileExport(f: CodeFile): string {
    ExportDecl(ExportName(f))
  }

  /** The export of a submodule: its directory. */
  function SubmoduleExport(m: Module): string {
    ExportDecl(ModuleName(m))
  }

  /** What a module's `index.ts` re-exports: its code files, then its submodules. */
  function IndexExports(m: Module): seq<string> {
    FileEntries(m.file, ExportsFile, FileExport) + SubmoduleEntries(m.tree, SubmoduleExport)
  }

  /** `index.ts` never re-exports itself: a file named `index` is listed but not exported. */
  lemma IndexNotExported(f: CodeFile)
    requires f.name == "index" || FilenameWithExtension(f, "typescript") == "index.ts"
    ensures FilenameWithExtension(f, "typescript") == "index.ts" && !ExportsFile(f)
  {
    if f.name == "index" {
      assert '.' !in f.name by {
        assert f.name == ['i', 'n', 'd', 'e', 'x'];
      }
    }
  }

  /** The exports of `services` with code files `api` and `index`, and submodule `auth`. */
  lemma IndexExportsExample()
    ensures var auth := Module(Some("auth"), None, None, [], []);
            IndexExports(Module(Some("services"), None, None, [auth], [CodeFile("api", None), CodeFile("index", None)]))
            == ["export * from './api';", "export * from './auth';"]
  {
    var auth := Module(Some("auth"), None, None, [], []);
    var api, index := CodeFile("api", None), CodeFile("index", None);
    var m := Module(Some("services"), None, None, [auth], [api, index]);
    ApiIndexExports(api, index);
    AuthExport(auth);
    assert IndexExports(m) == FileEntries([api, index], ExportsFile, FileExport) + SubmoduleEntries([auth], SubmoduleExport);
  }

  lemma AuthExport(auth: Module)
    requires auth.name == Some("auth")
    ensures SubmoduleEntries([auth], SubmoduleExport) == ["export * from './auth';"]
  {
    assert [auth][..0] == [];
    assert SubmoduleEntries([auth], SubmoduleExport) == [SubmoduleExport(auth)];
    assert ModuleName(auth) == "auth";
    assert ExportDecl("auth") == "export * from './auth';";
  }

  lemma ApiIndexExports(api: CodeFile, index: CodeFile)
    requires api.name == "api" && index.name == "index"
    ensures FileEntries([api, index], ExportsFile, FileExport) == ["export * from './api';"]
  {
    ApiExported(api);
    IndexNotExported(index);
    assert [api, index][..1] == [api] && [api][..0] == [];
    assert FileEntries([api], ExportsFile, FileExport) == [FileExport(api)];
  }

  /** A file named `api` is written as `api.ts` and re-exported from `./api`. */
  lemma ApiExported(api: CodeFile)
    requires api.name == "api"
    ensures ExportsFile(api) && FileExport(api) == "export * from './api';"
  {
    assert '.' !in api.name by {
      assert api.name == ['a', 'p', 'i'];
    }
    var n := FilenameWithExtension(api, "typescript");
    assert n == "api.ts";
    assert n[|n| - 3..] == ".ts";
    NoDotNotStripped(api.name);
  }

  /** A name without a '.' ends in no stripped extension, so its export keeps it whole. */
  lemma NoDotNotStripped(name: string)
    requires '.' !in name
    ensures !HasStrippedExtension(name)
  {
    forall ext | ext in StrippedExtensions
      ensures EndsWith(name, ext) ==> '.' in name
    {
      StrippedExtensionShape(ext);
      ExtensionHasDot(name, ext);
    }
  }

  /** A name ending in an extension holds that extension's '.'. */
  lemma ExtensionHasDot(name: string, ext: string)
    requires |ext| > 0 && ext[0] == '.'
    ensures EndsWith(name, ext) ==> '.' in name
  {
    if EndsWith(name, ext) {
      assert name[|name| - |ext|] == ext[0];
    }
  }

  /**
   * The export loops of `generate_module`: the code files' exports are
   * pushed first, then one per submodule.
   */
  method ExportDeclarations(m: Module) returns (decls: seq<string>)
    ensures decls == IndexExports(m)
  {
    var fileExports := FileExportDeclarations(m.file);
    var submoduleExports := SubmoduleExportDeclarations(m.tree);
    decls := fileExports + submoduleExports;
  }

  /** The first loop of the export list: one export per re-exported code file, in order. */
  method FileExportDeclarations(files: seq<CodeFile>) returns (exports: seq<string>)
    ensures exports == FileEntries(files, ExportsFile, FileExport)
  {
    exports := [];
    var j := 0;
    while j < |files|
      invariant j <= |files|
      invariant exports == FileEntries(files[..j], ExportsFile, FileExport)
    {
      var f := files[j];
      var filename := FilenameWithExtension(f, "typescript");
      FileEntriesSnoc(files, ExportsFile, FileExport, j);
      if IsTypeScriptCodeFile(filename) && filename != "index.ts" {
        assert ExportsFile(f);
        exports := exports + [ExportDecl(ExportName(f))];
      } else {
        assert !ExportsFile(f);
      }
      j := j + 1;
    }
    assert files[..j] == files;
  }

  /** The second loop of the export list: one export per submodule, in order. */
  method SubmoduleExportDeclarations(ms: seq<Module>) returns (exports: seq<string>)
    ensures exports == SubmoduleEntries(ms, SubmoduleExport)
  {
    exports := [];
    var k := 0;
    while k < |ms|
      invariant k <= |ms|
      invariant exports == SubmoduleEntries(ms[..k], SubmoduleExport)
    {
      SubmoduleEntriesSnoc(ms, SubmoduleExport, k);
      exports := exports + [ExportDecl(ModuleName(ms[k]))];
      k := k + 1;
    }
    assert ms[..k] == ms;
  }

  /** Whether the module lists `index` (or `index.ts`) among its code files. */
  function HasExplicitIndex(files: seq<CodeFile>): bool {
    AnyNamed(files, "index", "index.ts", "typescript")
  }

  /** A module lists `index` exactly when one of its code files is written as `index.ts`. */
  lemma HasExplicitIndexSpec(files: seq<CodeFile>)
    ensures HasExplicitIndex(files) <==> "index.ts" in FileNames(files, "typescript")
  {
    assert "index" == ['i', 'n', 'd', 'e', 'x'];
    AnyNamedListed(files, "index", "index.ts", "typescript");
  }

  /**
   * What happens to the module's `index.ts`: when the module lists `index`,
   * the updater rewrote it, seeing its earlier content or the empty file
   * just created; otherwise it is left as it was.
   */
  predicate IndexTsResult(before: map<Path, string>, after: map<Path, string>, base: Path, m: Module, update: Updater, r: Outcome) {
    var p := base + [ModuleName(m), "index.ts"];
    (r == Done && HasExplicitIndex(m.file) ==> Updated(before, after, p, true, IndexExports(m), update))
    && (!HasExplicitIndex(m.file) ==> Same(before, after, p))
  }

  /**
   * `generate_module`: creates the module's directory, its code files
   * where nothing exists, its submodules in order, and, when the module
   * lists `index`, passes the exports to the `index.ts` updater. Files
   * that existed keep their content, except `index.ts` manifests; nothing
   * is written outside the module's directory.
   */
  method GenerateModule(fs: Fs, base: Path, m: Module, update: Updater) returns (r: Outcome)
    modifies fs
    decreases m, 1
    ensures old(fs.dirs) <= fs.dirs
    ensures KeptExcept(old(fs.files), fs.files, "index.ts")
    ensures ChangedOnlyUnder(old(fs.files), fs.files, base + [ModuleName(m)])
    ensures old(fs.Blocked(base + [ModuleName(m)])) ==> r == Failed(base + [ModuleName(m)])
    ensures r == Done ==> Generated(fs.files, fs.dirs, base, m, "typescript")
    ensures IndexTsResult(old(fs.files), fs.files, base, m, update, r)
  {
    var dir := base + [ModuleName(m)];
    var names := FileNames(m.file, "typescript");
    ghost var f0 := fs.files;
    r := fs.CreateDirAll(dir);
    if r.Failed? {
      return;
    }
    // The directory now exists, so creating the code files cannot fail.
    r := CreateCodeFiles(fs, dir, names, NoContent);
    ghost var f1, d1 := fs.files, fs.dirs;
    CreatedUnder(f0, f1, dir, names, NoContent);
    KeptIsKeptExcept(f0, f1, "index.ts");
    r := GenerateSubmodules(fs, dir, m.tree, update);
    ghost var f2, d2 := fs.files, fs.dirs;
    DeeperIsUnder(f1, f2, dir);
    ChangedOnlyUnderTrans(f0, f1, f2, dir);
    KeptExceptTrans(f0, f1, f2, "index.ts");
    KeptExceptKeys(f1, f2, "index.ts");
    DeeperChildSame(f1, f2, dir, "index.ts");
    assert dir + ["index.ts"] == base + [ModuleName(m), "index.ts"];
    HasExplicitIndexSpec(m.file);
    ghost var explicit := HasExplicitIndex(m.file);
    assert explicit <==> "index.ts" in names;
    if r.Failed? {
      return;
    }
    FilesPresentGrows(f1, d1, f2, d2, dir, names);
    assert Generated(f2, d2, base, m, "typescript");
    if HasExplicitIndex(m.file) {
      var decls := ExportDeclarations(m);
      var p := dir + ["index.ts"];
      ghost var prior;
      r, prior := fs.Update(p, decls, update);
      if r == Done {
        ManifestFrame(f0, f2, dir, "index.ts", update(prior, decls));
        PriorContent(f0, f1, f2, d1, dir, names, NoContent, "index.ts");
        GeneratedGrows(f2, d2, fs.files, fs.dirs, base, m, "typescript");
      }
    }
  }

  /** The submodule loop of `generate_module`: each submodule in order, stopping at the first failure. */
  method GenerateSubmodules(fs: Fs, dir: Path, ms: seq<Module>, update: Updater) returns (r: Outcome)
    modifies fs
    decreases ms, 0
    ensures old(fs.dirs) <= fs.dirs
    ensures KeptExcept(old(fs.files), fs.files, "index.ts")
    ensures ChangedOnlyDeeper(old(fs.files), fs.files, dir)
    ensures r == Done ==> TreeGenerated(fs.files, fs.dirs, dir, ms, "typescript")
  {
    var j := 0;
    while j < |ms|
      invariant j <= |ms|
      invariant old(fs.dirs) <= fs.dirs
      invariant KeptExcept(old(fs.files), fs.files, "index.ts")
      invariant ChangedOnlyDeeper(old(fs.files), fs.files, dir)
      invariant AllGenerated(fs.files, fs.dirs, dir, ms[..j], "typescript")
    {
      ghost var f, d := fs.files, fs.dirs;
      r := GenerateModule(fs, dir, ms[j], update);
      KeptExceptTrans(old(fs.files), f, fs.files, "index.ts");
      ChangedOnlyUnderChild(f, fs.files, dir, ModuleName(ms[j]));
      ChangedOnlyDeeperTrans(old(fs.files), f, fs.files, dir);
      if r.Failed? {
        return;
      }
      KeptExceptKeys(f, fs.files, "index.ts");
      AllGeneratedStep(f, d, fs.files, fs.dirs, dir, ms, "typescript", j);
      j := j + 1;
    }
    assert ms[..j] == ms;
    AllTreeGenerated(fs.files, fs.dirs, dir, ms, "typescript");
    return Done;
  }

  /** `generate_package_json`: `package.json` in the project directory, only if nothing is there. */
  method GeneratePackageJson(fs: Fs, projectPath: Path, projectName: string) returns (r: Outcome)
    modifies fs
    ensures fs.dirs == old(fs.dirs)
    ensures WroteIfAbsent(old(fs.files), old(fs.dirs), fs.files, projectPath + ["package.json"], PackageJsonContent(projectName), r)
  {
    r := fs.CreateIfAbsent(projectPath + ["package.json"], PackageJsonContent(projectName));
  }

  /** `generate_tsconfig_json`: `tsconfig.json` in the project directory, only if nothing is there. */
  method GenerateTsconfigJson(fs: Fs, projectPath: Path) returns (r: Outcome)
    modifies fs
    ensures fs.dirs == old(fs.dirs)
    ensures WroteIfAbsent(old(fs.files), old(fs.dirs), fs.files, projectPath + ["tsconfig.json"], TsconfigContent, r)
  {
    r := fs.CreateIfAbsent(projectPath + ["tsconfig.json"], TsconfigContent);
  }

  /** `generate_index_ts_content`: the exports between the markers. */
  function IndexTsContent(decls: seq<string>): string {
    Block("//", decls)
  }

  /** Read back line by line, `index.ts` holds the markers around exactly the exports. */
  lemma IndexTsContentLines(decls: seq<string>)
    requires NoneContains(decls, '\n')
    ensures Lines(IndexTsContent(decls)) == BlockLineSeq("//", decls)
  {
    BlockLines("//", decls);
  }

  /** `generate_package_json_content`: a package named after the project, built with `tsc`. */
  function PackageJsonContent(projectName: string): string {
    PackageJsonHead + projectName + PackageJsonTail
  }

  const PackageJsonHead: string := "{\n  \"name\": \""

  const PackageJsonTail: string :=
    "\",\n"
    + "  \"version\": \"1.0.0\",\n  \"description\": \"\",\n  \"main\": \"dist/index.js\",\n"
    + "  \"scripts\": {\n    \"build\": \"tsc\",\n    \"dev\": \"tsc --watch\",\n    \"start\": \"node dist/index.js\"\n  },\n"
    + "  \"devDependencies\": {\n    \"typescript\": \"^5.0.0\",\n    \"@types/node\": \"^18.0.0\"\n  },\n"
    + "  \"keywords\": [],\n  \"author\": \"\",\n  \"license\": \"ISC\"\n}\n"

  /** `generate_tsconfig_content`. */
  const TsconfigContent: string :=
    "{\n  \"compilerOptions\": {\n    \"target\": \"ES2020\",\n    \"module\": \"commonjs\",\n"
    + "    \"outDir\": \"./dist\",\n    \"rootDir\": \"./src\",\n    \"strict\": true,\n"
    + "    \"esModuleInterop\": true,\n    \"skipLibCheck\": true,\n"
    + "    \"forceConsistentCasingInFileNames\": true,\n    \"declaration\": true,\n"
    + "    \"declarationMap\": true,\n    \"sourceMap\": true\n  },\n"
    + "  \"include\": [\"src/**/*\"],\n  \"exclude\": [\"node_modules\", \"dist\"]\n}\n"
}
