/**
 * The Rust module generator: one directory per module, an empty `.rs` file
 * per code file (only where nothing exists), and a `mod.rs` manifest per
 * module other than `src` listing `mod` declarations for the module's code
 * files and submodules. `src/main.rs` or `src/lib.rs` declares the contents
 * of the top-level `src` module.
 */
module RustGenerator {
  import opened Results
  import opened Text
  import opened Models
  import opened FileSystem
  import opened Generation
  import opened ExportBlock

  /** A file the manifests declare: its on-disk name ends in ".rs". */
  predicate IsRustCodeFile(filename: string) {
    EndsWith(filename, ".rs")
  }

  /**
   * The visibility written before `mod`: from the `pub` setting, or, with
   * none, private in `main.rs` and public in `lib.rs` and `mod.rs`.
   * `target` is "main", "lib" or "mod".
   */
  function VisibilityPrefix(pub: Option<string>, target: string): string {
    match pub
    case Some("yes") => "pub "
    case Some("no") => ""
    case Some("crate") => "pub(crate) "
    case Some("super") => "pub(super) "
    case None => if target == "main" then "" else "pub "
    case Some(_) => "pub "
  }

  /**
   * Exactly four prefixes occur: private only for "no" or an unset setting
   * in `main.rs`; crate- and super-visibility only when asked for; public
   * in every other case, unknown settings included.
   */
  lemma VisibilityPrefixSpec(pub: Option<string>, target: string)
    ensures var v := VisibilityPrefix(pub, target);
            (v == "" <==> pub == Some("no") || (pub == None && target == "main"))
            && (v == "pub(crate) " <==> pub == Some("crate"))
            && (v == "pub(super) " <==> pub == Some("super"))
            && (v == "pub " <==> !(pub in {Some("no"), Some("crate"), Some("super")}) && !(pub == None && target == "main"))
  {
    var v := VisibilityPrefix(pub, target);
    assert "" != "pub " && "pub(crate) " != "pub " && "pub(super) " != "pub " && "pub(crate) " != "pub(super) ";
    assert "" != "pub(crate) " && "" != "pub(super) ";
  }

  function Declaration(vis: string, name: string): string {
    vis + "mod " + name + ";"
  }

  /** The on-disk names a module's own `mod.rs` never declares. */
  const ModReserved: seq<string> := ["mod.rs"]

  /** The on-disk names `main.rs` and `lib.rs` never declare. */
  const RootReserved: seq<string> := ["mod.rs", "main.rs", "lib.rs"]

  /** A code file gets a declaration when it is a Rust file whose name is not reserved. */
  predicate DeclaresFile(f: CodeFile, reserved: seq<string>) {
    var n := FilenameWithExtension(f, "rust");
    IsRustCodeFile(n) && n !in reserved
  }

  /** The declaration of a code file names the code file as written in the spec. */
  function FileDecl(f: CodeFile, target: string): string {
    Declaration(VisibilityPrefix(f.pub, target), f.name)
  }

  /** One declaration per declared code file, in order. */
  function FileDecls(files: seq<CodeFile>, target: string, reserved: seq<string>): seq<string> {
    if files == [] then []
    else
      var f := files[|files| - 1];
      FileDecls(files[..|files| - 1], target, reserved) + (if DeclaresFile(f, reserved) then [FileDecl(f, target)] else [])
  }

  function SubmoduleDecl(m: Module, target: string): string {
    Declaration(VisibilityPrefix(m.pub, target), ModuleName(m))
  }

  /** One declaration per submodule, in order. */
  function SubmoduleDecls(ms: seq<Module>, target: string): seq<string> {
    if ms == [] then [] else SubmoduleDecls(ms[..|ms| - 1], target) + [SubmoduleDecl(ms[|ms| - 1], target)]
  }

  /** What a module's `mod.rs` declares: its code files, then its submodules. */
  function ModDecls(m: Module): seq<string> {
    FileDecls(m.file, "mod", ModReserved) + SubmoduleDecls(m.tree, "mod")
  }

  /** What `main.rs` (`target` "main") or `lib.rs` ("lib") declares: the contents of every module named `src`. */
  function RootDecls(ms: seq<Module>, target: string): seq<string> {
    if ms == [] then []
    else
      var m := ms[|ms| - 1];
      RootDecls(ms[..|ms| - 1], target)
      + (if ModuleName(m) == "src" then FileDecls(m.file, target, RootReserved) + SubmoduleDecls(m.tree, target) else [])
  }

  lemma FileDeclsSnoc(files: seq<CodeFile>, target: string, reserved: seq<string>, j: nat)
    requires j < |files|
    ensures FileDecls(files[..j + 1], target, reserved)
            == FileDecls(files[..j], target, reserved) + (if DeclaresFile(files[j], reserved) then [FileDecl(files[j], target)] else [])
  {
    assert files[..j + 1][..j] == files[..j];
  }

  lemma SubmoduleDeclsSnoc(ms: seq<Module>, target: string, j: nat)
    requires j < |ms|
    ensures SubmoduleDecls(ms[..j + 1], target) == SubmoduleDecls(ms[..j], target) + [SubmoduleDecl(ms[j], target)]
  {
    assert ms[..j + 1][..j] == ms[..j];
  }

  /**
   * A declaration is listed exactly when some declared code file has it:
   * no Rust file outside the reserved names is left out, and nothing else
   * is added.
   */
  lemma FileDeclsMember(files: seq<CodeFile>, target: string, reserved: seq<string>, d: string)
    ensures d in FileDecls(files, target, reserved)
            <==> exists k :: 0 <= k < |files| && DeclaresFile(files[k], reserved) && d == FileDecl(files[k], target)
  {
    if d in FileDecls(files, target, reserved) {
      FileDeclsWitness(files, target, reserved, d);
    }
    if exists k :: 0 <= k < |files| && DeclaresFile(files[k], reserved) && d == FileDecl(files[k], target) {
      var k :| 0 <= k < |files| && DeclaresFile(files[k], reserved) && d == FileDecl(files[k], target);
      FileDeclsAt(files, target, reserved, k);
    }
  }

  lemma {:induction false} FileDeclsWitness(files: seq<CodeFile>, target: string, reserved: seq<string>, d: string)
    requires d in FileDecls(files, target, reserved)
    ensures exists k :: 0 <= k < |files| && DeclaresFile(files[k], reserved) && d == FileDecl(files[k], target)
  {
    var init, f := files[..|files| - 1], files[|files| - 1];
    if !(DeclaresFile(f, reserved) && d == FileDecl(f, target)) {
      assert d in FileDecls(init, target, reserved);
      FileDeclsWitness(init, target, reserved, d);
      var k :| 0 <= k < |init| && DeclaresFile(init[k], reserved) && d == FileDecl(init[k], target);
      assert files[k] == init[k];
    }
  }

  lemma {:induction false} FileDeclsAt(files: seq<CodeFile>, target: string, reserved: seq<string>, k: nat)
    requires k < |files| && DeclaresFile(files[k], reserved)
    ensures FileDecl(files[k], target) in FileDecls(files, target, reserved)
  {
    if k < |files| - 1 {
      var init := files[..|files| - 1];
      assert init[k] == files[k];
      FileDeclsAt(init, target, reserved, k);
    }
  }

  /** There is one submodule declaration per submodule, at the submodule's position. */
  lemma {:induction false} SubmoduleDeclsSpec(ms: seq<Module>, target: string)
    ensures |SubmoduleDecls(ms, target)| == |ms|
    ensures forall k :: 0 <= k < |ms| ==> SubmoduleDecls(ms, target)[k] == SubmoduleDecl(ms[k], target)
  {
    if ms != [] {
      var init := ms[..|ms| - 1];
      SubmoduleDeclsSpec(init, target);
      forall k | 0 <= k < |ms| ensures SubmoduleDecls(ms, target)[k] == SubmoduleDecl(ms[k], target) {
        if k < |init| {
          assert init[k] == ms[k];
        }
      }
    }
  }

  /** A project with only non-`src` top-level modules declares nothing in its root file. */
  lemma {:induction false} RootDeclsWithoutSrc(ms: seq<Module>, target: string)
    requires forall k :: 0 <= k < |ms| ==> ModuleName(ms[k]) != "src"
    ensures RootDecls(ms, target) == []
  {
    if ms != [] {
      RootDeclsWithoutSrc(ms[..|ms| - 1], target);
    }
  }

  /** With one top-level module `src`, the root file declares its Rust files, then its submodules. */
  lemma RootDeclsOfSrc(src: Module, target: string)
    requires ModuleName(src) == "src"
    ensures RootDecls([src], target) == FileDecls(src.file, target, RootReserved) + SubmoduleDecls(src.tree, target)
  {
    assert [src][..0] == [];
  }

  /** A spec name without a '.' becomes a declared Rust file. */
  lemma PlainNameDeclared(f: CodeFile, reserved: seq<string>)
    requires '.' !in f.name && f.name + ".rs" !in reserved
    ensures FilenameWithExtension(f, "rust") == f.name + ".rs" && DeclaresFile(f, reserved)
  {
    var n := f.name + ".rs";
    assert n[|n| - 3..] == ".rs";
  }

  /** The `mod.rs` of `domain` with code files `model` and `repository`. */
  lemma ModDeclsExample()
    ensures ModDecls(Module(Some("domain"), None, None, [], [CodeFile("model", None), CodeFile("repository", None)]))
            == ["pub mod model;", "pub mod repository;"]
  {
    var model, repo := CodeFile("model", None), CodeFile("repository", None);
    var m := Module(Some("domain"), None, None, [], [model, repo]);
    ModelRepositoryDecls(model, repo);
    assert SubmoduleDecls([], "mod") == [];
    assert ModDecls(m) == FileDecls([model, repo], "mod", ModReserved) + SubmoduleDecls([], "mod");
  }

  lemma ModelRepositoryDecls(model: CodeFile, repo: CodeFile)
    requires model == CodeFile("model", None) && repo == CodeFile("repository", None)
    ensures FileDecls([model, repo], "mod", ModReserved) == ["pub mod model;", "pub mod repository;"]
  {
    assert '.' !in model.name by {
      assert model.name == ['m', 'o', 'd', 'e', 'l'];
    }
    assert '.' !in repo.name by {
      assert repo.name == ['r', 'e', 'p', 'o', 's', 'i', 't', 'o', 'r', 'y'];
    }
    assert model.name != "mod" && repo.name != "mod";
    TwoFileDecls(model, repo);
    ModelRepositoryDeclText(model, repo);
  }

  lemma ModelRepositoryDeclText(model: CodeFile, repo: CodeFile)
    requires model == CodeFile("model", None) && repo == CodeFile("repository", None)
    ensures FileDecl(model, "mod") == "pub mod model;" && FileDecl(repo, "mod") == "pub mod repository;"
  {
    assert VisibilityPrefix(None, "mod") == "pub ";
  }

  /** Two plain code files are both declared in `mod.rs`, in order. */
  lemma TwoFileDecls(a: CodeFile, b: CodeFile)
    requires '.' !in a.name && '.' !in b.name && a.name != "mod" && b.name != "mod"
    ensures FileDecls([a, b], "mod", ModReserved) == [FileDecl(a, "mod"), FileDecl(b, "mod")]
  {
    assert a.name + ".rs" != "mod.rs" && b.name + ".rs" != "mod.rs" by {
      assert (a.name + ".rs")[..|a.name|] == a.name;
      assert (b.name + ".rs")[..|b.name|] == b.name;
    }
    PlainNameDeclared(a, ModReserved);
    PlainNameDeclared(b, ModReserved);
    assert [a, b][..1] == [a] && [a][..0] == [];
    assert FileDecls([a], "mod", ModReserved) == [FileDecl(a, "mod")];
  }

  /** `main.rs` of a project whose `src` holds only the submodule `domain`. */
  lemma RootDeclsExample()
    ensures var domain := Module(Some("domain"), None, None, [], []);
            RootDecls([Module(Some("src"), None, None, [domain], [])], "main") == ["mod domain;"]
  {
    var domain := Module(Some("domain"), None, None, [], []);
    var src := Module(Some("src"), None, None, [domain], []);
    RootDeclsOfSrc(src, "main");
    assert [domain][..0] == [];
    assert SubmoduleDecls([domain], "main") == [SubmoduleDecl(domain, "main")];
    assert FileDecls([], "main", RootReserved) == [];
    assert VisibilityPrefix(None, "main") == "";
    assert ModuleName(domain) == "domain";
    assert SubmoduleDecl(domain, "main") == "mod domain;";
  }

  /**
   * The `main.rs`/`lib.rs` declaration loops: over the given modules, those
   * named `src` contribute their declared code files, then their
   * submodules.
   */
  method CollectRootDeclarations(srcModules: seq<Module>, target: string) returns (decls: seq<string>)
    ensures decls == RootDecls(srcModules, target)
  {
    decls := [];
    var i := 0;
    while i < |srcModules|
      invariant i <= |srcModules|
      invariant decls == RootDecls(srcModules[..i], target)
    {
      assert srcModules[..i + 1][..i] == srcModules[..i];
      if ModuleName(srcModules[i]) == "src" {
        var ds := SrcDeclarations(srcModules[i], target);
        decls := decls + ds;
      }
      i := i + 1;
    }
    assert srcModules[..i] == srcModules;
  }

  /** The body of the declaration loop for one `src` module. */
  method SrcDeclarations(m: Module, target: string) returns (decls: seq<string>)
    ensures decls == FileDecls(m.file, target, RootReserved) + SubmoduleDecls(m.tree, target)
  {
    var fileDecls := FileDeclarations(m.file, target, RootReserved);
    var submoduleDecls := SubmoduleDeclarations(m.tree, target);
    decls := fileDecls + submoduleDecls;
  }

  /**
   * The declaration loops of `generate_module`: the code files'
   * declarations are pushed first, then one per submodule.
   */
  method ModDeclarations(m: Module) returns (decls: seq<string>)
    ensures decls == ModDecls(m)
  {
    var fileDecls := FileDeclarations(m.file, "mod", ModReserved);
    var submoduleDecls := SubmoduleDeclarations(m.tree, "mod");
    decls := fileDecls + submoduleDecls;
  }

  /**
   * The code-file loop: a declaration for each Rust file whose on-disk
   * name is not reserved ("mod.rs" in `mod.rs`; "mod.rs", "main.rs" and
   * "lib.rs" in `main.rs` and `lib.rs`), in order.
   */
  method FileDeclarations(files: seq<CodeFile>, target: string, reserved: seq<string>) returns (decls: seq<string>)
    ensures decls == FileDecls(files, target, reserved)
  {
    decls := [];
    var j := 0;
    while j < |files|
      invariant j <= |files|
      invariant decls == FileDecls(files[..j], target, reserved)
    {
      var f := files[j];
      var filename := FilenameWithExtension(f, "rust");
      FileDeclsSnoc(files, target, reserved, j);
      if IsRustCodeFile(filename) && filename !in reserved {
        decls := decls + [Declaration(VisibilityPrefix(f.pub, target), f.name)];
      }
      j := j + 1;
    }
    assert files[..j] == files;
  }

  /** The submodule loop: one declaration per submodule, in order. */
  method SubmoduleDeclarations(ms: seq<Module>, target: string) returns (decls: seq<string>)
    ensures decls == SubmoduleDecls(ms, target)
  {
    decls := [];
    var k := 0;
    while k < |ms|
      invariant k <= |ms|
      invariant decls == SubmoduleDecls(ms[..k], target)
    {
      SubmoduleDeclsSnoc(ms, target, k);
      decls := decls + [Declaration(VisibilityPrefix(ms[k].pub, target), ModuleName(ms[k]))];
      k := k + 1;
    }
    assert ms[..k] == ms;
  }

  /**
   * `generate_module`: creates the module's directory, its code files
   * where nothing exists, its submodules in order, and, unless the module
   * is `src`, passes the declarations to the `mod.rs` updater. Files that
   * existed keep their content, except `mod.rs` manifests; nothing is
   * written outside the module's directory.
   */
  method GenerateModule(fs: Fs, base: Path, m: Module, update: Updater) returns (r: Outcome)
    modifies fs
    decreases m, 1
    ensures old(fs.dirs) <= fs.dirs
    ensures KeptExcept(old(fs.files), fs.files, "mod.rs")
    ensures ChangedOnlyUnder(old(fs.files), fs.files, base + [ModuleName(m)])
    ensures old(fs.Blocked(base + [ModuleName(m)])) ==> r == Failed(base + [ModuleName(m)])
    ensures r == Done ==> Generated(fs.files, fs.dirs, base, m, "rust")
    ensures ModRsResult(old(fs.files), fs.files, base, m, update, r)
  {
    var dir := base + [ModuleName(m)];
    var names := FileNames(m.file, "rust");
    ghost var f0 := fs.files;
    r := fs.CreateDirAll(dir);
    if r.Failed? {
      return;
    }
    // The directory now exists, so creating the code files cannot fail.
    r := CreateCodeFiles(fs, dir, names, NoContent);
    ghost var f1, d1 := fs.files, fs.dirs;
    r := GenerateSubmodules(fs, dir, m.tree, update);
    ghost var f2, d2 := fs.files, fs.dirs;
    SubtreeFrame(f0, f1, f2, dir, names, NoContent, "mod.rs");
    assert dir + ["mod.rs"] == base + [ModuleName(m), "mod.rs"];
    if r.Failed? {
      return;
    }
    FilesPresentGrows(f1, d1, f2, d2, dir, names);
    assert Generated(f2, d2, base, m, "rust");
    if ModuleName(m) != "src" {
      var decls := ModDeclarations(m);
      var p := dir + ["mod.rs"];
      ghost var prior;
      r, prior := fs.Update(p, decls, update);
      if r == Done {
        ManifestFrame(f0, f2, dir, "mod.rs", update(prior, decls));
        PriorContent(f0, f1, f2, d1, dir, names, NoContent, "mod.rs");
        GeneratedGrows(f2, d2, fs.files, fs.dirs, base, m, "rust");
      }
    }
  }

  /**
   * What happens to the module's `mod.rs`: outside `src` the updater
   * rewrote it, seeing its earlier content (or the empty file just created
   * when `mod.rs` is one of the code files); `src` keeps no `mod.rs`
   * unless one is listed.
   */
  predicate ModRsResult(before: map<Path, string>, after: map<Path, string>, base: Path, m: Module, update: Updater, r: Outcome) {
    var p := base + [ModuleName(m), "mod.rs"];
    (r == Done && ModuleName(m) != "src" ==> Updated(before, after, p, "mod.rs" in FileNames(m.file, "rust"), ModDecls(m), update))
    && (ModuleName(m) == "src" && "mod.rs" !in FileNames(m.file, "rust") ==> Same(before, after, p))
  }

  /** The submodule loop of `generate_module`: each submodule is generated under `dir`, in order, stopping at the first failure. */
  method GenerateSubmodules(fs: Fs, dir: Path, ms: seq<Module>, update: Updater) returns (r: Outcome)
    modifies fs
    decreases ms, 0
    ensures old(fs.dirs) <= fs.dirs
    ensures KeptExcept(old(fs.files), fs.files, "mod.rs")
    ensures ChangedOnlyDeeper(old(fs.files), fs.files, dir)
    ensures r == Done ==> TreeGenerated(fs.files, fs.dirs, dir, ms, "rust")
  {
    var j := 0;
    while j < |ms|
      invariant j <= |ms|
      invariant old(fs.dirs) <= fs.dirs
      invariant KeptExcept(old(fs.files), fs.files, "mod.rs")
      invariant ChangedOnlyDeeper(old(fs.files), fs.files, dir)
      invariant AllGenerated(fs.files, fs.dirs, dir, ms[..j], "rust")
    {
      ghost var f, d := fs.files, fs.dirs;
      r := GenerateModule(fs, dir, ms[j], update);
      KeptExceptTrans(old(fs.files), f, fs.files, "mod.rs");
      ChangedOnlyUnderChild(f, fs.files, dir, ModuleName(ms[j]));
      ChangedOnlyDeeperTrans(old(fs.files), f, fs.files, dir);
      if r.Failed? {
        return;
      }
      KeptExceptKeys(f, fs.files, "mod.rs");
      AllGeneratedStep(f, d, fs.files, fs.dirs, dir, ms, "rust", j);
      j := j + 1;
    }
    assert ms[..j] == ms;
    AllTreeGenerated(fs.files, fs.dirs, dir, ms, "rust");
    return Done;
  }

  /** `generate_main_rs`: the updater rewrites `src/main.rs` with the declarations of `src`. */
  method GenerateMainRs(fs: Fs, projectPath: Path, srcModules: seq<Module>, update: Updater) returns (r: Outcome)
    modifies fs
    ensures fs.dirs == old(fs.dirs)
    ensures r == Done <==> old(fs.Writable(projectPath + ["src", "main.rs"]))
    ensures r == Done ==> Updated(old(fs.files), fs.files, projectPath + ["src", "main.rs"], false, RootDecls(srcModules, "main"), update)
    ensures r == Done ==> fs.files == old(fs.files)[projectPath + ["src", "main.rs"] := fs.files[projectPath + ["src", "main.rs"]]]
    ensures r.Failed? ==> fs.files == old(fs.files)
  {
    var decls := CollectRootDeclarations(srcModules, "main");
    ghost var prior;
    r, prior := fs.Update(projectPath + ["src", "main.rs"], decls, update);
  }

  /** `generate_lib_rs`: the updater rewrites `src/lib.rs` with the declarations of `src`. */
  method GenerateLibRs(fs: Fs, projectPath: Path, srcModules: seq<Module>, update: Updater) returns (r: Outcome)
    modifies fs
    ensures fs.dirs == old(fs.dirs)
    ensures r == Done <==> old(fs.Writable(projectPath + ["src", "lib.rs"]))
    ensures r == Done ==> Updated(old(fs.files), fs.files, projectPath + ["src", "lib.rs"], false, RootDecls(srcModules, "lib"), update)
    ensures r == Done ==> fs.files == old(fs.files)[projectPath + ["src", "lib.rs"] := fs.files[projectPath + ["src", "lib.rs"]]]
    ensures r.Failed? ==> fs.files == old(fs.files)
  {
    var decls := CollectRootDeclarations(srcModules, "lib");
    ghost var prior;
    r, prior := fs.Update(projectPath + ["src", "lib.rs"], decls, update);
  }

  /** `generate_mod_rs_content`: the declarations between the markers. */
  function ModRsContent(decls: seq<string>): string {
    Block("//", decls)
  }

  /** The lines of the `main` function that follows the declarations in `main.rs`. */
  const MainFnLines: seq<string> := ["fn main() {", "    println!(\"Hello, world!\");", "}"]

  /** The `main` function that follows the declarations in `main.rs`. */
  const MainFn: string := "fn main() {" + "\n" + "    println!(\"Hello, world!\");" + "\n" + "}" + "\n"

  /** `generate_main_rs_content`: the marker block, left out when there is nothing to declare, then `main`. */
  function MainRsContent(decls: seq<string>): string {
    (if decls == [] then "" else Block("//", decls)) + MainFn
  }

  /** `generate_lib_rs_content`: the marker block, or a lone comment when there is nothing to declare. */
  function LibRsContent(decls: seq<string>): string {
    if decls == [] then "// Library root\n" else Block("//", decls)
  }

  lemma MainFnTerminated()
    ensures Terminated(MainFnLines) == MainFn
  {
    var a, b, c := "fn main() {", "    println!(\"Hello, world!\");", "}";
    assert [a][..0] == [] && [a, b][..1] == [a] && [a, b, c][..2] == [a, b];
    assert MainFnLines == [a, b, c];
    assert Terminated([a]) == a + "\n";
    assert Terminated([a, b]) == a + "\n" + b + "\n";
    assert Terminated([a, b, c]) == a + "\n" + b + "\n" + c + "\n";
  }

  /** Read back line by line, `mod.rs` holds the markers around exactly the declarations. */
  lemma ModRsContentLines(decls: seq<string>)
    requires NoneContains(decls, '\n')
    ensures Lines(ModRsContent(decls)) == BlockLineSeq("//", decls)
  {
    BlockLines("//", decls);
  }

  /** Read back line by line, `main.rs` holds the block only when something is declared, then `main`. */
  lemma MainRsContentLines(decls: seq<string>)
    requires NoneContains(decls, '\n')
    ensures Lines(MainRsContent(decls)) == (if decls == [] then [] else BlockLineSeq("//", decls)) + MainFnLines
  {
    MainFnTerminated();
    var block := if decls == [] then [] else BlockLineSeq("//", decls);
    if decls != [] {
      BlockTerminated("//", decls);
    }
    assert Terminated([]) == "";
    TerminatedAppend(block, MainFnLines);
    MainRsLinesNoNewline(decls, block);
    TerminatedLines(block + MainFnLines);
  }

  lemma MainRsLinesNoNewline(decls: seq<string>, block: seq<string>)
    requires NoneContains(decls, '\n')
    requires block == if decls == [] then [] else BlockLineSeq("//", decls)
    ensures NoneContains(block + MainFnLines, '\n')
  {
    if decls != [] {
      BlockPiecesNoNewline("//", decls);
      var pieces := BlockPieces("//", decls);
      assert block == pieces[..|pieces| - 1];
      forall k | 0 <= k < |block| ensures '\n' !in block[k] {
        assert block[k] == pieces[k];
      }
    }
    assert NoneContains(MainFnLines, '\n');
    NoneContainsAppend(block, MainFnLines, '\n');
  }

  /** Read back line by line, `lib.rs` holds the block, or only the "Library root" comment. */
  lemma LibRsContentLines(decls: seq<string>)
    requires NoneContains(decls, '\n')
    ensures Lines(LibRsContent(decls)) == if decls == [] then ["// Library root"] else BlockLineSeq("//", decls)
  {
    if decls == [] {
      assert Terminated(["// Library root"]) == "// Library root\n" by {
        assert ["// Library root"][..0] == [];
      }
      TerminatedLines(["// Library root"]);
    } else {
      BlockLines("//", decls);
    }
  }

  /** Whether a project-level file, or a file of a top-level module `src`, is named `stem` or `stem` + ".rs". */
  function EntryRequested(project: Project, stem: string): bool {
    AnyNamed(project.file, stem, stem + ".rs", "rust") || SrcNamed(project.tree, stem)
  }

  function SrcNamed(ms: seq<Module>, stem: string): bool {
    ms != [] && (SrcNamed(ms[..|ms| - 1], stem) || (ModuleName(ms[|ms| - 1]) == "src" && AnyNamed(ms[|ms| - 1].file, stem, stem + ".rs", "rust")))
  }

  /** `should_generate_main_rs`. */
  function ShouldGenerateMainRs(project: Project): bool {
    EntryRequested(project, "main")
  }

  /** `should_generate_lib_rs`. */
  function ShouldGenerateLibRs(project: Project): bool {
    EntryRequested(project, "lib")
  }

  lemma {:induction false} SrcNamedSpec(ms: seq<Module>, stem: string)
    ensures SrcNamed(ms, stem)
            <==> exists i, k :: 0 <= i < |ms| && ModuleName(ms[i]) == "src" && 0 <= k < |ms[i].file|
                                && IsNamed(ms[i].file[k], stem, stem + ".rs", "rust")
  {
    if ms != [] {
      var init, m := ms[..|ms| - 1], ms[|ms| - 1];
      SrcNamedSpec(init, stem);
      AnyNamedSpec(m.file, stem, stem + ".rs", "rust");
      if exists i, k :: 0 <= i < |init| && ModuleName(init[i]) == "src" && 0 <= k < |init[i].file|
                        && IsNamed(init[i].file[k], stem, stem + ".rs", "rust") {
        var i, k :| 0 <= i < |init| && ModuleName(init[i]) == "src" && 0 <= k < |init[i].file|
                    && IsNamed(init[i].file[k], stem, stem + ".rs", "rust");
        assert ms[i] == init[i];
      }
      if exists i, k :: 0 <= i < |ms| && ModuleName(ms[i]) == "src" && 0 <= k < |ms[i].file|
                        && IsNamed(ms[i].file[k], stem, stem + ".rs", "rust") {
        var i, k :| 0 <= i < |ms| && ModuleName(ms[i]) == "src" && 0 <= k < |ms[i].file|
                    && IsNamed(ms[i].file[k], stem, stem + ".rs", "rust");
        if i < |init| {
          assert init[i] == ms[i];
        }
      }
    }
  }

  /**
   * `main.rs` (stem "main") or `lib.rs` ("lib") is asked for exactly when a
   * project-level file, or a file of some top-level module named `src`, is
   * named the stem or the stem with ".rs"; files of deeper modules never
   * count.
   */
  lemma EntryRequestedSpec(project: Project, stem: string)
    ensures EntryRequested(project, stem)
            <==> (exists k :: 0 <= k < |project.file| && IsNamed(project.file[k], stem, stem + ".rs", "rust"))
                 || (exists i, k :: 0 <= i < |project.tree| && ModuleName(project.tree[i]) == "src" && 0 <= k < |project.tree[i].file|
                                    && IsNamed(project.tree[i].file[k], stem, stem + ".rs", "rust"))
  {
    AnyNamedSpec(project.file, stem, stem + ".rs", "rust");
    SrcNamedSpec(project.tree, stem);
  }

  /**
   * As written, a code file given as `model.rs` is declared `pub mod
   * model.rs;`, which names no module file: the declared name plus ".rs" is
   * not the file that was written.
   */
  lemma DeclaredNameKeepsExtension()
    ensures var f := CodeFile("model.rs", None);
            ModDecls(Module(Some("domain"), None, None, [], [f])) == ["pub mod model.rs;"]
            && FilenameWithExtension(f, "rust") == "model.rs"
            && f.name + ".rs" != FilenameWithExtension(f, "rust")
  {
    var f := CodeFile("model.rs", None);
    assert '.' in f.name by {
      assert f.name[5] == '.';
    }
    assert FilenameWithExtension(f, "rust") == "model.rs";
    assert "model.rs"[5..] == ".rs";
    assert DeclaresFile(f, ModReserved);
    assert [f][..0] == [];
    assert FileDecls([f], "mod", ModReserved) == [FileDecl(f, "mod")];
    assert SubmoduleDecls([], "mod") == [];
    assert VisibilityPrefix(None, "mod") == "pub ";
    assert FileDecl(f, "mod") == "pub mod model.rs;";
  }
}
