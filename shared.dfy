/**
 * Helpers shared by `load` and `sync`: which project a path on disk belongs
 * to, and whether adding an entry would change the spec text.
 */
module Shared {
  import opened Results
  import opened Text
  import opened Models
  import opened FilesystemScanner

  /**
   * A child found under a directory that is being added. Only its shape
   * matters here; the spec-editing code that consumes it is a parameter.
   */
  datatype AddChild = AddChild(name: string, isDirectory: bool, children: seq<AddChild>)

  /** What a project is searched by: being root, or its name. */
  datatype Criterion = IsRoot | NamedAs(name: string)

  predicate Matches(c: Criterion, p: Project) {
    match c
    case IsRoot => p.root
    case NamedAs(name) => p.name == name
  }

  /** The index of the first project matching `c`, if any (`iter().enumerate().find`). */
  function FindProject(projects: seq<Project>, c: Criterion): (r: Option<nat>)
    ensures r.None? <==> forall k :: 0 <= k < |projects| ==> !Matches(c, projects[k])
    ensures r.Some? ==> r.value < |projects| && Matches(c, projects[r.value])
                        && forall j :: 0 <= j < r.value ==> !Matches(c, projects[j])
  {
    if projects == [] then None
    else if Matches(c, projects[0]) then Some(0)
    else
      var r := FindProject(projects[1..], c);
      assert forall k :: 1 <= k < |projects| ==> projects[k] == projects[1..][k - 1];
      if r.Some? then Some(r.value + 1) else None
  }

  /** A component that names something: not empty, not "." and not "..". */
  predicate IsNormalComponent(part: string) {
    part != "" && part != "." && part != ".."
  }

  /** The normal components of a relative path, in order (root, "." and ".." components are dropped). */
  function NormalComponents(parts: seq<string>): (r: seq<string>)
    ensures forall k :: 0 <= k < |r| ==> IsNormalComponent(r[k])
    ensures IsSubsequence(r, parts)
    ensures forall x :: multiset(r)[x] == if IsNormalComponent(x) then multiset(parts)[x] else 0
  {
    if parts == [] then []
    else
      var rest := NormalComponents(parts[1..]);
      HeadTail(parts);
      if IsNormalComponent(parts[0]) then
        assert ([parts[0]] + rest)[1..] == rest;
        [parts[0]] + rest
      else
        SubsequenceOfSuffix(rest, [parts[0]], parts[1..]);
        rest
  }

  function PathSegments(relativePath: string): seq<string> {
    NormalComponents(Split(relativePath, '/'))
  }

  /** The message of the last resolution failure. */
  function NoMatchMessage(displayPath: string): string {
    "No matching project found for '" + displayPath
      + "'. Consider adding a project with `- name: .` to moli.yml, or add the entry under an existing project directory."
  }

  /**
   * `resolve_project`: the project an unmanaged entry belongs to and its
   * path segments inside that project. A root project takes every path;
   * otherwise the first segment picks the project by name, and a project
   * named "." takes paths that match no name.
   */
  function ResolveProject(projects: seq<Project>, entry: UnmanagedEntry): (r: Result<(nat, seq<string>)>)
    ensures r.Ok? ==> r.value.0 < |projects|
  {
    var segments := PathSegments(entry.relativePath);
    match FindProject(projects, IsRoot)
    case Some(root) => Ok((root, segments))
    case None =>
      if segments == [] then Err("Cannot resolve empty path to a project")
      else
        match FindProject(projects, NamedAs(segments[0]))
        case Some(k) => Ok((k, segments[1..]))
        case None =>
          match FindProject(projects, NamedAs("."))
          case Some(k) => Ok((k, segments))
          case None => Err(NoMatchMessage(entry.displayPath))
  }

  /** With a root project, the first root project takes the entry with all its segments, possibly none. */
  lemma ResolveWithRoot(projects: seq<Project>, entry: UnmanagedEntry, k: nat)
    requires k < |projects| && projects[k].root && forall j :: 0 <= j < k ==> !projects[j].root
    ensures ResolveProject(projects, entry) == Ok((k, PathSegments(entry.relativePath)))
  {
  }

  /** Without a root project, a path with no segments cannot be resolved. */
  lemma ResolveEmptyPath(projects: seq<Project>, entry: UnmanagedEntry)
    requires forall j :: 0 <= j < |projects| ==> !projects[j].root
    requires PathSegments(entry.relativePath) == []
    ensures ResolveProject(projects, entry) == Err("Cannot resolve empty path to a project")
  {
  }

  /** Without a root project, the first project named like the first segment takes the remaining segments. */
  lemma ResolveByName(projects: seq<Project>, entry: UnmanagedEntry, k: nat)
    requires forall j :: 0 <= j < |projects| ==> !projects[j].root
    requires var segments := PathSegments(entry.relativePath);
             segments != [] && k < |projects| && projects[k].name == segments[0]
             && forall j :: 0 <= j < k ==> projects[j].name != segments[0]
    ensures ResolveProject(projects, entry) == Ok((k, PathSegments(entry.relativePath)[1..]))
  {
  }

  /** Without a root project or a name match, the first project named "." takes every segment. */
  lemma ResolveToDotProject(projects: seq<Project>, entry: UnmanagedEntry, k: nat)
    requires forall j :: 0 <= j < |projects| ==> !projects[j].root
    requires var segments := PathSegments(entry.relativePath);
             segments != [] && forall j :: 0 <= j < |projects| ==> projects[j].name != segments[0]
    requires k < |projects| && projects[k].name == "." && forall j :: 0 <= j < k ==> projects[j].name != "."
    ensures ResolveProject(projects, entry) == Ok((k, PathSegments(entry.relativePath)))
  {
  }

  /** Without a root project, a name match or a "." project, resolution fails and names the entry. */
  lemma ResolveNoMatch(projects: seq<Project>, entry: UnmanagedEntry)
    requires forall j :: 0 <= j < |projects| ==> !projects[j].root && projects[j].name != "."
    requires var segments := PathSegments(entry.relativePath);
             segments != [] && forall j :: 0 <= j < |projects| ==> projects[j].name != segments[0]
    ensures ResolveProject(projects, entry) == Err(NoMatchMessage(entry.displayPath))
  {
    var segments := PathSegments(entry.relativePath);
    assert FindProject(projects, IsRoot).None?;
    assert FindProject(projects, NamedAs(segments[0])).None?;
    assert FindProject(projects, NamedAs(".")).None?;
  }

  /** The root project, when there is one, is exactly the one `root_project` returns. */
  lemma ResolveToRootProject(projects: seq<Project>, entry: UnmanagedEntry)
    requires IsSingleProject(projects)
    ensures ResolveProject(projects, entry).Ok?
    ensures Some(projects[ResolveProject(projects, entry).value.0]) == RootProject(projects)
  {
    var r := FindProject(projects, IsRoot);
    var k := r.value;
    var root := RootProject(projects).value;
    var j :| 0 <= j < |projects| && projects[j] == root && root.root && forall i :: 0 <= i < j ==> !projects[i].root;
    assert j == k;
  }

  /** Every child added in turn, stopping at the first failure. */
  function AddAll(text: string, projectIndex: nat, children: seq<AddChild>, language: string,
                  addEntry: (string, nat, seq<string>, bool, string, seq<AddChild>) -> Result<string>): Result<string>
  {
    if children == [] then Ok(text)
    else
      var prev := AddAll(text, projectIndex, children[..|children| - 1], language, addEntry);
      var child := children[|children| - 1];
      if prev.Err? then prev else addEntry(prev.value, projectIndex, [child.name], child.isDirectory, language, child.children)
  }

  lemma AddAllSnoc(text: string, projectIndex: nat, children: seq<AddChild>, language: string,
                   addEntry: (string, nat, seq<string>, bool, string, seq<AddChild>) -> Result<string>, i: nat)
    requires i < |children|
    ensures var prev := AddAll(text, projectIndex, children[..i], language, addEntry);
            var child := children[i];
            AddAll(text, projectIndex, children[..i + 1], language, addEntry)
              == if prev.Err? then prev else addEntry(prev.value, projectIndex, [child.name], child.isDirectory, language, child.children)
  {
    assert children[..i + 1][..i] == children[..i];
  }

  /** Once an addition fails, adding the remaining children fails too. */
  lemma {:induction false} AddAllFailureSticks(text: string, projectIndex: nat, children: seq<AddChild>, language: string,
                                               addEntry: (string, nat, seq<string>, bool, string, seq<AddChild>) -> Result<string>, i: nat)
    requires i <= |children| && AddAll(text, projectIndex, children[..i], language, addEntry).Err?
    ensures AddAll(text, projectIndex, children, language, addEntry).Err?
    decreases |children| - i
  {
    if i < |children| {
      AddAllSnoc(text, projectIndex, children, language, addEntry, i);
      AddAllFailureSticks(text, projectIndex, children, language, addEntry, i + 1);
    } else {
      assert children[..i] == children;
    }
  }

  /**
   * The spec text adding `entry` would produce: a directory resolving to the
   * project itself adds each of its children at the top; anything else is
   * added at its segments.
   */
  function AddedText(text: string, projectIndex: nat, segments: seq<string>, entry: UnmanagedEntry, children: seq<AddChild>,
                     language: string, addEntry: (string, nat, seq<string>, bool, string, seq<AddChild>) -> Result<string>): Result<string>
  {
    if segments == [] && entry.isDirectory then AddAll(text, projectIndex, children, language, addEntry)
    else addEntry(text, projectIndex, segments, entry.isDirectory, language, children)
  }

  /**
   * `would_produce_changes`: true when adding the entry would change the spec
   * text, and also when it cannot be decided (the entry does not resolve, its
   * children cannot be read, or an addition fails) so that the entry stays
   * visible. `children` is what reading the directory gives (`None` for a
   * failed read; it is not read for a file), and `addEntry` is the spec
   * editor's `add_entry`.
   */
  method WouldProduceChanges(projects: seq<Project>, yaml: string, entry: UnmanagedEntry, children: Option<seq<AddChild>>,
                             addEntry: (string, nat, seq<string>, bool, string, seq<AddChild>) -> Result<string>)
    returns (changes: bool)
    ensures ResolveProject(projects, entry).Err? ==> changes
    ensures entry.isDirectory && children.None? ==> changes
    ensures ResolveProject(projects, entry).Ok? && (entry.isDirectory ==> children.Some?) ==>
              var (k, segments) := ResolveProject(projects, entry).value;
              var added := AddedText(yaml, k, segments, entry, if entry.isDirectory then children.value else [],
                                     projects[k].lang, addEntry);
              changes <==> added.Err? || added.value != yaml
  {
    var resolved := ResolveProject(projects, entry);
    if resolved.Err? {
      return true;
    }
    var (projectIndex, pathSegments) := resolved.value;
    var language := projects[projectIndex].lang;
    var kids: seq<AddChild> := [];
    if entry.isDirectory {
      if children.None? {
        return true;
      }
      kids := children.value;
    }
    var newYaml: string;
    if pathSegments == [] && entry.isDirectory {
      var result := yaml;
      var i := 0;
      while i < |kids|
        invariant 0 <= i <= |kids|
        invariant AddAll(yaml, projectIndex, kids[..i], language, addEntry) == Ok(result)
      {
        var child := kids[i];
        AddAllSnoc(yaml, projectIndex, kids, language, addEntry, i);
        var added := addEntry(result, projectIndex, [child.name], child.isDirectory, language, child.children);
        if added.Err? {
          AddAllFailureSticks(yaml, projectIndex, kids, language, addEntry, i + 1);
          return true;
        }
        result := added.value;
        i := i + 1;
      }
      assert kids[..i] == kids;
      newYaml := result;
    } else {
      var added := addEntry(yaml, projectIndex, pathSegments, entry.isDirectory, language, kids);
      if added.Err? {
        return true;
      }
      newYaml := added.value;
    }
    return yaml != newYaml;
  }
}
