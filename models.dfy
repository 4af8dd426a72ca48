/**
 * The typed form of a moli.yml spec: a list of projects, each with a
 * language, project-level code files and a tree of modules. A module is
 * either a named directory or a `from:` clone target.
 */
module Models {
  import opened Results
  import opened Text

  /** A code file entry (`- name: x` under `file:`), with an optional `pub` setting. */
  datatype CodeFile = CodeFile(name: string, pub: Option<string>)

  /** A module entry under `tree:`: named, or a clone target (`from:`), or both. */
  datatype Module = Module(
    name: Option<string>,
    from: Option<string>,
    pub: Option<string>,
    tree: seq<Module>,
    file: seq<CodeFile>)

  /** A project of the spec. */
  datatype Project = Project(
    name: string,
    root: bool,
    lang: string,
    file: seq<CodeFile>,
    tree: seq<Module>)

  /** A clone target is a module with a `from` URL. */
  predicate IsGitClone(m: Module) {
    m.from.Some?
  }

  predicate HasSubtree(m: Module) {
    |m.tree| > 0
  }

  predicate HasFiles(m: Module) {
    |m.file| > 0
  }

  /** `url` with one trailing ".git" removed, if it has one. */
  function StripGitSuffix(url: string): (u: string)
    ensures EndsWith(url, ".git") ==> u + ".git" == url
    ensures !EndsWith(url, ".git") ==> u == url
  {
    if EndsWith(url, ".git") then url[..|url| - 4] else url
  }

  /** The repository name of a clone URL (HTTPS or SSH form): the text after the last '/', once ".git" is dropped. */
  function ExtractRepoName(url: string): string {
    var u := StripGitSuffix(url);
    if '/' in u then u[LastIndexOf(u, '/') + 1..] else u
  }

  /**
   * After dropping one ".git" suffix, the repository name is the longest
   * suffix holding no '/': the whole text when it has no '/', else what
   * follows the last '/'.
   */
  lemma ExtractRepoNameSpec(url: string)
    ensures var u := StripGitSuffix(url);
            var r := ExtractRepoName(url);
            EndsWith(u, r) && '/' !in r
            && (|r| == |u| <==> '/' !in u)
            && (|r| < |u| ==> u[|u| - |r| - 1] == '/')
  {
    var u := StripGitSuffix(url);
    if '/' in u {
      LastIndexOfSpec(u, '/');
    }
  }

  /** A module's name: the explicit name, else the clone URL's repository name, else "unknown". */
  function ModuleName(m: Module): string {
    match m.name
    case Some(n) => n
    case None => if m.from.Some? then ExtractRepoName(m.from.value) else "unknown"
  }

  /**
   * An explicit name wins; a clone module without one is named by a
   * '/'-free tail of its URL (once ".git" is dropped); anything else is
   * "unknown".
   */
  lemma ModuleNameSpec(m: Module)
    ensures m.name.Some? ==> ModuleName(m) == m.name.value
    ensures m.name.None? && m.from.Some? ==>
              '/' !in ModuleName(m) && EndsWith(StripGitSuffix(m.from.value), ModuleName(m))
    ensures m.name.None? && m.from.None? ==> ModuleName(m) == "unknown"
  {
    if m.name.None? && m.from.Some? {
      ExtractRepoNameSpec(m.from.value);
    }
  }

  /** The extension a language gives to a file named without one. */
  function ExtensionFor(language: string): (ext: string)
    ensures ext == "rs" <==> language == "rust"
    ensures ext == "go" <==> language == "go"
    ensures ext == "py" <==> language == "python"
    ensures ext == "js" <==> language == "javascript"
    ensures ext == "ts" <==> language == "typescript"
    ensures ext == "md" <==> language == "markdown"
    ensures ext == "txt" <==> language !in ["rust", "go", "python", "javascript", "typescript", "markdown"]
  {
    match language
    case "rust" => "rs"
    case "go" => "go"
    case "python" => "py"
    case "javascript" => "js"
    case "typescript" => "ts"
    case "markdown" => "md"
    case _ => "txt"
  }

  /** The on-disk file name: the name as written if it has a '.', else name + "." + the language's extension. */
  function FilenameWithExtension(f: CodeFile, language: string): string {
    if '.' in f.name then f.name else f.name + "." + ExtensionFor(language)
  }

  /**
   * The name is kept exactly when it already holds a '.'; otherwise the
   * result is the name, a '.', and the language's extension. Either way the
   * result starts with the name and holds a '.'.
   */
  lemma FilenameWithExtensionSpec(f: CodeFile, language: string)
    ensures var r := FilenameWithExtension(f, language);
            ('.' in f.name <==> r == f.name)
            && ('.' !in f.name ==> r == f.name + "." + ExtensionFor(language))
            && StartsWith(r, f.name) && '.' in r
  {
    var r := FilenameWithExtension(f, language);
    if '.' !in f.name {
      assert r[|f.name|] == '.';
    }
  }

  /** Resolving an extension twice changes nothing, whatever the second language. */
  lemma FilenameWithExtensionIdempotent(f: CodeFile, language: string, other: string)
    ensures FilenameWithExtension(CodeFile(FilenameWithExtension(f, language), f.pub), other)
         == FilenameWithExtension(f, language)
  {
    FilenameWithExtensionSpec(f, language);
  }

  /** The root project: the first project marked `root: true`, if any. */
  function RootProject(projects: seq<Project>): (r: Option<Project>)
    ensures r.None? <==> forall k :: 0 <= k < |projects| ==> !projects[k].root
    ensures r.Some? ==> exists k :: 0 <= k < |projects| && projects[k] == r.value && r.value.root
                          && forall j :: 0 <= j < k ==> !projects[j].root
  {
    if projects == [] then None
    else if projects[0].root then Some(projects[0])
    else
      var r := RootProject(projects[1..]);
      assert forall k :: 1 <= k < |projects| ==> projects[k] == projects[1..][k - 1];
      r
  }

  /** The projects not marked root, in spec order. */
  function SubProjects(projects: seq<Project>): (r: seq<Project>)
    ensures forall k :: 0 <= k < |r| ==> !r[k].root
    ensures IsSubsequence(r, projects)
    ensures forall k :: 0 <= k < |projects| && !projects[k].root ==> projects[k] in r
    ensures forall x :: multiset(r)[x] == if x.root then 0 else multiset(projects)[x]
  {
    if projects == [] then []
    else
      var rest := SubProjects(projects[1..]);
      HeadTail(projects);
      if projects[0].root then
        SubsequenceOfSuffix(rest, [projects[0]], projects[1..]);
        rest
      else
        assert ([projects[0]] + rest)[1..] == rest;
        [projects[0]] + rest
  }

  /** A spec is in single-project mode exactly when it has a root project. */
  function IsSingleProject(projects: seq<Project>): (b: bool)
    ensures b <==> exists k :: 0 <= k < |projects| && projects[k].root
  {
    RootProject(projects).Some?
  }

  /** Without a root project nothing is dropped; the root projects are exactly what sub_projects leaves out. */
  lemma {:induction false} SubProjectsAll(projects: seq<Project>)
    requires !IsSingleProject(projects)
    ensures SubProjects(projects) == projects
  {
    if projects != [] {
      assert !IsSingleProject(projects[1..]) by {
        forall k | 0 <= k < |projects[1..]| ensures !projects[1..][k].root {
          assert projects[1..][k] == projects[k + 1];
        }
      }
      SubProjectsAll(projects[1..]);
    }
  }
}
