/**
 * The removal side of the spec editor. The spec text is treated as a list of
 * lines whose only structure is indentation: an anchor line `- name: X` is
 * found, a contiguous span starting there is cut out, `file:` or `tree:`
 * keys left without entries are dropped, and a final newline is kept.
 */
module YamlModifier {
  import opened Results
  import opened Text
  import opened PathCollector

  /** A line whose trimmed text is `- name: <name>`. */
  predicate IsNameLine(line: string, name: string) {
    Trim(line) == "- name: " + name
  }

  /** A line whose trimmed text starts an entry, whatever its name. */
  predicate IsEntryLine(line: string) {
    StartsWith(Trim(line), "- name:")
  }

  /** A key line is not a name line. */
  lemma NameLineIsNotKey(line: string, name: string, key: string)
    requires key == "tree:" || key == "file:"
    ensures Trim(line) == key ==> !IsNameLine(line, name)
  {
    assert ("- name: " + name)[0] == '-';
  }

  /** An entry at indent 0 opens the next project. */
  predicate IsProjectStart(line: string) {
    IsEntryLine(line) && Indent(line) == 0
  }

  /** The key line `key` (such as `file:` or `tree:`) at the given indent. */
  predicate IsKeyLine(line: string, key: string, indent: nat) {
    Trim(line) == key && Indent(line) == indent
  }

  /**
   * A non-blank line at `indent` (or shallower, when `orShallower`) that is
   * neither an entry nor a `pub:` attribute closes an open `file:` section.
   */
  predicate ClosesFileSection(line: string, indent: nat, orShallower: bool) {
    !IsBlank(line)
    && (if orShallower then Indent(line) <= indent else Indent(line) == indent)
    && !StartsWith(Trim(line), "- name:") && !StartsWith(Trim(line), "pub:")
  }

  /** The number of project-opening lines among the first `n` lines. */
  function ProjectStarts(lines: seq<string>, n: nat): nat
    requires n <= |lines|
  {
    if n == 0 then 0
    else ProjectStarts(lines, n - 1) + (if IsProjectStart(lines[n - 1]) then 1 else 0)
  }

  /** The index of the project line `i` belongs to; -1 before the first project. */
  function ProjectOrdinal(lines: seq<string>, i: nat): int
    requires i < |lines|
  {
    ProjectStarts(lines, i + 1) - 1
  }

  /** After the first `n` lines, a `tree:` key at indent 2 has been seen in the current project. */
  function TreeOpen(lines: seq<string>, n: nat): bool
    requires n <= |lines|
  {
    if n == 0 then false
    else if IsProjectStart(lines[n - 1]) then false
    else if IsKeyLine(lines[n - 1], "tree:", 2) then true
    else TreeOpen(lines, n - 1)
  }

  /** After the first `n` lines, the current project's own `file:` section (key at indent 2) is open. */
  function ProjectFileOpen(lines: seq<string>, n: nat): bool
    requires n <= |lines|
  {
    if n == 0 then false
    else if IsProjectStart(lines[n - 1]) then false
    else if IsKeyLine(lines[n - 1], "file:", 2) then true
    else if ClosesFileSection(lines[n - 1], 2, true) then false
    else ProjectFileOpen(lines, n - 1)
  }

  /**
   * After the lines strictly between the module line `start` and line `n`,
   * the module's `file:` section (key two columns deeper than the module
   * line) is open.
   */
  function ModuleFileOpen(lines: seq<string>, start: nat, n: nat): bool
    requires start < n <= |lines|
    decreases n
  {
    var keyIndent := Indent(lines[start]) + 2;
    if n == start + 1 then false
    else if IsKeyLine(lines[n - 1], "file:", keyIndent) then true
    else if ClosesFileSection(lines[n - 1], keyIndent, false) then false
    else ModuleFileOpen(lines, start, n - 1)
  }

  /** Every line after `start` up to and including `i` is blank or deeper than line `start`. */
  predicate InBlock(lines: seq<string>, start: nat, i: nat)
    requires start < |lines| && i < |lines|
  {
    forall m :: start < m <= i ==> IsBlank(lines[m]) || Indent(lines[m]) > Indent(lines[start])
  }

  /** What an anchor search looks for. */
  datatype Anchor =
    | Named(name: string)                                  // any `- name: X` line
    | TopLevelModule(projectIndex: nat, name: string)      // a module directly under a project's `tree:`
    | ProjectFile(projectIndex: nat, name: string)         // a file directly under a project's `file:`
    | ModuleFile(moduleStart: nat, name: string)           // a file under the module whose line is `moduleStart`

  /** Line `i` is what `a` looks for. */
  predicate AnchorAt(lines: seq<string>, a: Anchor, i: nat)
    requires i < |lines|
  {
    match a
    case Named(name) => IsNameLine(lines[i], name)
    case TopLevelModule(p, name) =>
      ProjectOrdinal(lines, i) == p && TreeOpen(lines, i + 1) && Indent(lines[i]) == 4 && IsNameLine(lines[i], name)
    case ProjectFile(p, name) =>
      ProjectOrdinal(lines, i) == p && ProjectFileOpen(lines, i + 1) && Indent(lines[i]) == 4 && IsNameLine(lines[i], name)
    case ModuleFile(start, name) =>
      start < i && InBlock(lines, start, i) && ModuleFileOpen(lines, start, i + 1)
      && Indent(lines[i]) == Indent(lines[start]) + 4 && IsNameLine(lines[i], name)
  }

  /** The first line at or after `from` that `a` looks for. */
  function FirstAnchor(lines: seq<string>, a: Anchor, from: nat): (r: Option<nat>)
    ensures r.Some? ==> from <= r.value < |lines|
    decreases |lines| - from
  {
    if from >= |lines| then None
    else if AnchorAt(lines, a, from) then Some(from)
    else FirstAnchor(lines, a, from + 1)
  }

  /** The search finds a line `a` looks for, and no earlier one; when it finds nothing, there is nothing to find. */
  lemma {:induction false} FirstAnchorSpec(lines: seq<string>, a: Anchor, from: nat)
    ensures var r := FirstAnchor(lines, a, from);
            (r.Some? ==> AnchorAt(lines, a, r.value))
            && forall j :: from <= j < |lines| && (r.None? || j < r.value) ==> !AnchorAt(lines, a, j)
    decreases |lines| - from
  {
    if from < |lines| && !AnchorAt(lines, a, from) {
      FirstAnchorSpec(lines, a, from + 1);
    }
  }

  /** `find_module_start`: the first `- name: <name>` line at or after `from`. */
  method FindModuleStart(lines: seq<string>, from: nat, name: string) returns (r: Option<nat>)
    ensures r == FirstAnchor(lines, Named(name), from)
  {
    var i := from;
    while i < |lines|
      invariant from <= i
      invariant FirstAnchor(lines, Named(name), i) == FirstAnchor(lines, Named(name), from)
      decreases |lines| - i
    {
      if Trim(lines[i]) == "- name: " + name {
        return Some(i);
      }
      i := i + 1;
    }
    return None;
  }

  /** The result of following a path of module names. */
  datatype Search = Reached(next: nat) | MissingAt(name: string)

  /**
   * Each name of `path` is searched for from just after the line where the
   * previous one was found; the result is the line after the last one, or
   * the first name not found.
   */
  function Navigate(lines: seq<string>, from: nat, path: seq<string>): (r: Search)
    decreases |path|
  {
    if path == [] then Reached(from)
    else
      match FirstAnchor(lines, Named(path[0]), from)
      case None => MissingAt(path[0])
      case Some(i) => Navigate(lines, i + 1, path[1..])
  }

  /** A path that is followed to its end ends just after a line naming its last element; a missing name is one of the path. */
  lemma {:induction false} NavigateSpec(lines: seq<string>, from: nat, path: seq<string>)
    ensures var r := Navigate(lines, from, path);
            (r.Reached? && path != [] ==> 1 <= r.next <= |lines| && IsNameLine(lines[r.next - 1], path[|path| - 1]))
            && (r.MissingAt? ==> r.name in path)
    decreases |path|
  {
    if path != [] {
      var f := FirstAnchor(lines, Named(path[0]), from);
      if f.Some? {
        FirstAnchorFound(lines, Named(path[0]), from);
        NavigateSpec(lines, f.value + 1, path[1..]);
        assert path[1..] != [] ==> path[1..][|path| - 2] == path[|path| - 1];
        assert forall x :: x in path[1..] ==> x in path;
      }
    }
  }

  /** Following a path from its `k`-th name: search that name, then follow the rest. */
  lemma NavigateStep(lines: seq<string>, from: nat, path: seq<string>, k: nat)
    requires k < |path|
    ensures Navigate(lines, from, path[k..])
            == match FirstAnchor(lines, Named(path[k]), from)
               case None => MissingAt(path[k])
               case Some(i) => Navigate(lines, i + 1, path[k + 1..])
  {
    assert path[k..][1..] == path[k + 1..];
  }

  /** What a search finds is what it looks for. */
  lemma FirstAnchorFound(lines: seq<string>, a: Anchor, from: nat)
    requires FirstAnchor(lines, a, from).Some?
    ensures AnchorAt(lines, a, FirstAnchor(lines, a, from).value)
  {
    FirstAnchorSpec(lines, a, from);
  }

  /** A search starting on a line it looks for finds that line. */
  lemma FirstAnchorHere(lines: seq<string>, a: Anchor, i: nat)
    requires i < |lines| && AnchorAt(lines, a, i)
    ensures FirstAnchor(lines, a, i) == Some(i)
  {
  }

  /**
   * The loop over a module path shared by `find_tree_file` and
   * `remove_module_entry`: each name is searched from just after the
   * previous one.
   */
  method FollowPath(lines: seq<string>, path: seq<string>) returns (s: Search)
    ensures s == Navigate(lines, 0, path)
  {
    var searchStart: nat := 0;
    var k := 0;
    while k < |path|
      invariant k <= |path|
      invariant Navigate(lines, 0, path) == Navigate(lines, searchStart, path[k..])
    {
      var idx := FindModuleStart(lines, searchStart, path[k]);
      NavigateStep(lines, searchStart, path, k);
      if idx.None? {
        return MissingAt(path[k]);
      }
      searchStart := idx.value + 1;
      k := k + 1;
    }
    assert path[k..] == [];
    return Reached(searchStart);
  }

  /** `find_top_level_module`: a module line at indent 4 inside the tree of the project with the given index. */
  method FindTopLevelModule(lines: seq<string>, projectIndex: nat, name: string) returns (r: Option<nat>)
    ensures r == FirstAnchor(lines, TopLevelModule(projectIndex, name), 0)
  {
    ghost var a := TopLevelModule(projectIndex, name);
    var current: int := -1;
    var inTree := false;
    var i := 0;
    while i < |lines|
      invariant i <= |lines|
      invariant current == ProjectStarts(lines, i) - 1
      invariant inTree <==> current == projectIndex && TreeOpen(lines, i)
      invariant FirstAnchor(lines, a, i) == FirstAnchor(lines, a, 0)
    {
      var line := lines[i];
      if IsProjectStart(line) {
        current := current + 1;
        inTree := false;
      }
      if current != projectIndex {
        i := i + 1;
        continue;
      }
      if IsKeyLine(line, "tree:", 2) {
        NameLineIsNotKey(line, name, "tree:");
        inTree := true;
        i := i + 1;
        continue;
      }
      if inTree && IsNameLine(line, name) && Indent(line) == 4 {
        return Some(i);
      }
      i := i + 1;
    }
    return None;
  }

  /** Line `line` carries on a file entry whose line has `indent`: it is not blank, it is deeper, and it is not an entry itself. */
  predicate ContinuesEntry(line: string, indent: nat) {
    !IsBlank(line) && Indent(line) > indent && !IsEntryLine(line)
  }

  /**
   * Lines `start..end` are the file entry at `start` with its attributes
   * (such as `pub:`): every following line that carries on the entry, up to
   * the first one that does not.
   */
  predicate IsFileSpan(lines: seq<string>, start: nat, end: nat) {
    start <= end < |lines|
    && (forall m :: start < m <= end ==> ContinuesEntry(lines[m], Indent(lines[start])))
    && (end + 1 < |lines| ==> !ContinuesEntry(lines[end + 1], Indent(lines[start])))
  }

  /** A file entry has one span. */
  lemma FileSpanUnique(lines: seq<string>, start: nat, e1: nat, e2: nat)
    requires IsFileSpan(lines, start, e1) && IsFileSpan(lines, start, e2)
    ensures e1 == e2
  {
  }

  /**
   * `match_file_entry`: when line `lineIndex` is `- name: <name>` at the
   * expected indent, the span of that file entry.
   */
  method MatchFileEntry(lines: seq<string>, lineIndex: nat, name: string, expectedIndent: nat) returns (r: Option<(nat, nat)>)
    requires lineIndex < |lines|
    ensures r.Some? <==> Indent(lines[lineIndex]) == expectedIndent && IsNameLine(lines[lineIndex], name)
    ensures r.Some? ==> r.value.0 == lineIndex && IsFileSpan(lines, lineIndex, r.value.1)
  {
    var line := lines[lineIndex];
    if Indent(line) != expectedIndent {
      return None;
    }
    if !IsNameLine(line, name) {
      return None;
    }
    var end := lineIndex;
    var j := lineIndex + 1;
    while j < |lines|
      invariant lineIndex < j <= |lines| && end == j - 1
      invariant forall m :: lineIndex < m <= end ==> ContinuesEntry(lines[m], expectedIndent)
    {
      if IsBlank(lines[j]) {
        break;
      }
      if Indent(lines[j]) > expectedIndent && !IsEntryLine(lines[j]) {
        end := j;
      } else {
        break;
      }
      j := j + 1;
    }
    return Some((lineIndex, end));
  }

  /** `find_project_level_file`: a file entry at indent 4 in the `file:` section of the project with the given index. */
  method FindProjectLevelFile(lines: seq<string>, projectIndex: nat, name: string) returns (r: Option<(nat, nat)>)
    ensures var f := FirstAnchor(lines, ProjectFile(projectIndex, name), 0);
            (r.None? <==> f.None?) && (r.Some? ==> r.value.0 == f.value && IsFileSpan(lines, r.value.0, r.value.1))
  {
    ghost var a := ProjectFile(projectIndex, name);
    var current: int := -1;
    var inSection := false;
    var projectIndent: nat := 0;
    var i := 0;
    while i < |lines|
      invariant i <= |lines|
      invariant current == ProjectStarts(lines, i) - 1
      invariant projectIndent == if current >= 0 then 2 else 0
      invariant inSection <==> current == projectIndex && ProjectFileOpen(lines, i)
      invariant FirstAnchor(lines, a, i) == FirstAnchor(lines, a, 0)
    {
      var line := lines[i];
      if IsProjectStart(line) {
        current := current + 1;
        inSection := false;
        projectIndent := 2;
      }
      if current != projectIndex {
        i := i + 1;
        continue;
      }
      if IsKeyLine(line, "file:", projectIndent) {
        NameLineIsNotKey(line, name, "file:");
        inSection := true;
        i := i + 1;
        continue;
      }
      if inSection && Indent(line) <= projectIndent && !IsBlank(line) {
        if !StartsWith(Trim(line), "- name:") && !StartsWith(Trim(line), "pub:") {
          inSection := false;
        }
      }
      if inSection {
        var range := MatchFileEntry(lines, i, name, projectIndent + 2);
        if range.Some? {
          return range;
        }
      }
      i := i + 1;
    }
    return None;
  }

  /** The file entry `name` under the module reached by following `path`. */
  function TreeFileAnchor(lines: seq<string>, path: seq<string>, name: string): Option<nat>
    requires |path| > 0
  {
    match Navigate(lines, 0, path)
    case MissingAt(_) => None
    case Reached(next) =>
      NavigateSpec(lines, 0, path);
      FirstAnchor(lines, ModuleFile(next - 1, name), next)
  }

  /**
   * `find_tree_file`: follows the module path, then looks for the file entry
   * in the `file:` section of the last module, staying inside that module's
   * block. The path must not be empty (the source unwraps its last element).
   */
  method FindTreeFile(lines: seq<string>, modulePath: seq<string>, name: string) returns (r: Option<(nat, nat)>)
    requires |modulePath| > 0
    ensures var f := TreeFileAnchor(lines, modulePath, name);
            (r.None? <==> f.None?) && (r.Some? ==> r.value.0 == f.value && IsFileSpan(lines, r.value.0, r.value.1))
  {
    var reached := FollowPath(lines, modulePath);
    if reached.MissingAt? {
      return None;
    }
    NavigateSpec(lines, 0, modulePath);
    var searchStart := reached.next;
    var last := modulePath[|modulePath| - 1];
    // The last name is searched for again from the line where it was found, so it is found there.
    var found := FindModuleStart(lines, searchStart - 1, last);
    FirstAnchorHere(lines, Named(last), searchStart - 1);
    var moduleStart := found.value;
    r := ScanModuleFiles(lines, moduleStart, name);
  }

  /** The file-section scan of `find_tree_file`, inside the block of the module at line `moduleStart`. */
  method ScanModuleFiles(lines: seq<string>, moduleStart: nat, name: string) returns (r: Option<(nat, nat)>)
    requires moduleStart < |lines|
    ensures var f := FirstAnchor(lines, ModuleFile(moduleStart, name), moduleStart + 1);
            (r.None? <==> f.None?) && (r.Some? ==> r.value.0 == f.value && IsFileSpan(lines, r.value.0, r.value.1))
  {
    ghost var a := ModuleFile(moduleStart, name);
    var moduleIndent := Indent(lines[moduleStart]);
    var inSection := false;
    var i := moduleStart + 1;
    while i < |lines|
      invariant moduleStart < i <= |lines|
      invariant InBlock(lines, moduleStart, i - 1)
      invariant inSection == ModuleFileOpen(lines, moduleStart, i)
      invariant FirstAnchor(lines, a, i) == FirstAnchor(lines, a, moduleStart + 1)
    {
      if !IsBlank(lines[i]) && Indent(lines[i]) <= moduleIndent {
        BlockEnds(lines, a, i);
        break;
      }
      var range;
      inSection, range := ModuleFileLine(lines, moduleStart, name, i, inSection);
      if range.Some? {
        return range;
      }
      i := i + 1;
    }
    return None;
  }

  /**
   * One line of that scan, inside the module's block: a `file:` key two
   * columns deeper opens the section, another line at that indent that is
   * neither an entry nor `pub:` closes it, and inside the section an entry
   * `- name: <name>` two columns deeper still is the file.
   */
  method ModuleFileLine(lines: seq<string>, moduleStart: nat, name: string, i: nat, inSection: bool)
    returns (open: bool, range: Option<(nat, nat)>)
    requires moduleStart < i < |lines| && InBlock(lines, moduleStart, i - 1)
    requires IsBlank(lines[i]) || Indent(lines[i]) > Indent(lines[moduleStart])
    requires inSection == ModuleFileOpen(lines, moduleStart, i)
    ensures InBlock(lines, moduleStart, i)
    ensures open == ModuleFileOpen(lines, moduleStart, i + 1)
    ensures range.Some? <==> AnchorAt(lines, ModuleFile(moduleStart, name), i)
    ensures range.Some? ==> range.value.0 == i && IsFileSpan(lines, i, range.value.1)
  {
    var line := lines[i];
    var fileSectionIndent := Indent(lines[moduleStart]) + 2;
    open := inSection;
    range := None;
    if IsKeyLine(line, "file:", fileSectionIndent) {
      NameLineIsNotKey(line, name, "file:");
      return true, None;
    }
    if open && Indent(line) == fileSectionIndent && !IsBlank(line) {
      if !StartsWith(Trim(line), "- name:") && !StartsWith(Trim(line), "pub:") {
        open := false;
      }
    }
    if open {
      range := MatchFileEntry(lines, i, name, fileSectionIndent + 2);
    }
  }

  /** Once a line at or above the module's indent is reached, no file of that module follows. */
  lemma {:induction false} BlockEnds(lines: seq<string>, a: Anchor, i: nat)
    requires a.ModuleFile? && a.moduleStart < i < |lines|
    requires !IsBlank(lines[i]) && Indent(lines[i]) <= Indent(lines[a.moduleStart])
    ensures FirstAnchor(lines, a, i) == None
  {
    FirstAnchorSpec(lines, a, i);
    forall j | i <= j < |lines|
      ensures !InBlock(lines, a.moduleStart, j)
    {
      assert a.moduleStart < i <= j;
    }
  }

  /** The first non-blank line at or after `from`. */
  function NextNonBlank(lines: seq<string>, from: nat): (r: Option<nat>)
    ensures r.Some? ==> from <= r.value < |lines|
    decreases |lines| - from
  {
    if from >= |lines| then None
    else if !IsBlank(lines[from]) then Some(from)
    else NextNonBlank(lines, from + 1)
  }

  /** When lines `from..i` are blank and line `i` is not (or the text ends at `i`), the next non-blank line is `i`. */
  lemma {:induction false} NextNonBlankIs(lines: seq<string>, from: nat, i: nat)
    requires from <= i <= |lines|
    requires forall q :: from <= q < i ==> IsBlank(lines[q])
    requires i < |lines| ==> !IsBlank(lines[i])
    ensures NextNonBlank(lines, from) == if i < |lines| then Some(i) else None
    decreases i - from
  {
    if from < i {
      NextNonBlankIs(lines, from + 1, i);
    }
  }

  /**
   * Lines `start..end` are the module at `start` with everything nested in
   * it: the lines after it are blank or deeper, the span ends on a deeper
   * line (or is the module line alone), and the next non-blank line after
   * the span, if any, is not deeper. Blank lines after the last deeper line
   * are not part of the span.
   */
  predicate IsModuleSpan(lines: seq<string>, start: nat, end: nat) {
    start <= end < |lines|
    && InBlock(lines, start, end)
    && (end > start ==> !IsBlank(lines[end]))
    && match NextNonBlank(lines, end + 1)
       case None => true
       case Some(j) => Indent(lines[j]) <= Indent(lines[start])
  }

  /** A module has one span. */
  lemma ModuleSpanUnique(lines: seq<string>, start: nat, e1: nat, e2: nat)
    requires IsModuleSpan(lines, start, e1) && IsModuleSpan(lines, start, e2)
    ensures e1 == e2
  {
    NextNonBlankBound(lines, e1 + 1, e2);
    NextNonBlankBound(lines, e2 + 1, e1);
  }

  /** A non-blank line at or after `from` bounds the next non-blank line. */
  lemma {:induction false} NextNonBlankBound(lines: seq<string>, from: nat, i: nat)
    ensures from <= i < |lines| && !IsBlank(lines[i]) ==>
              NextNonBlank(lines, from).Some? && NextNonBlank(lines, from).value <= i
              && !IsBlank(lines[NextNonBlank(lines, from).value])
    decreases |lines| - from
  {
    if from < i < |lines| && IsBlank(lines[from]) {
      NextNonBlankBound(lines, from + 1, i);
    }
  }

  /** The end of the module at line `start`: the loop of `remove_module_entry` that finds `module_end`. */
  method ModuleSpanEnd(lines: seq<string>, start: nat) returns (end: nat)
    requires start < |lines|
    ensures IsModuleSpan(lines, start, end)
  {
    var moduleIndent := Indent(lines[start]);
    end := start;
    var i := start + 1;
    while i < |lines|
      invariant start < i <= |lines| && start <= end < i
      invariant InBlock(lines, start, i - 1)
      invariant end > start ==> !IsBlank(lines[end])
      invariant forall q :: end < q < i ==> IsBlank(lines[q])
    {
      if IsBlank(lines[i]) {
        i := i + 1;
        continue;
      }
      if Indent(lines[i]) > moduleIndent {
        end := i;
      } else {
        break;
      }
      i := i + 1;
    }
    NextNonBlankIs(lines, end + 1, i);
  }

  /** The lines outside `start..end`, in order: the loop that builds `result_lines`. */
  method CutLines(lines: seq<string>, start: nat, end: nat) returns (kept: seq<string>)
    requires start <= end < |lines|
    ensures kept == lines[..start] + lines[end + 1..]
  {
    kept := [];
    var i := 0;
    while i < |lines|
      invariant i <= |lines|
      invariant kept == if i <= start then lines[..i]
                        else if i <= end + 1 then lines[..start]
                        else lines[..start] + lines[end + 1..i]
    {
      if start <= i <= end {
        i := i + 1;
        continue;
      }
      if i < start {
        assert lines[..i + 1] == lines[..i] + [lines[i]];
      } else {
        assert lines[end + 1..i + 1] == lines[end + 1..i] + [lines[i]];
      }
      kept := kept + [lines[i]];
      i := i + 1;
    }
    assert lines[end + 1..i] == lines[end + 1..];
  }

  /** The first non-blank line after line `i` is an entry deeper than line `i`. */
  predicate HasEntriesAt(lines: seq<string>, i: nat)
    requires i < |lines|
  {
    match NextNonBlank(lines, i + 1)
    case None => false
    case Some(j) => Indent(lines[j]) > Indent(lines[i]) && IsEntryLine(lines[j])
  }

  /** Line `i` is a `key` line with no entries under it. */
  predicate EmptyKeyAt(lines: seq<string>, key: string, i: nat)
    requires i < |lines|
  {
    Trim(lines[i]) == key && !HasEntriesAt(lines, i)
  }

  /** The inner loop of `remove_empty_sections`: does the section opened at line `i` have entries? */
  method HasEntries(lines: seq<string>, i: nat) returns (has: bool)
    requires i < |lines|
    ensures has == HasEntriesAt(lines, i)
  {
    has := false;
    var indent := Indent(lines[i]);
    var j := i + 1;
    while j < |lines|
      invariant i < j <= |lines|
      invariant NextNonBlank(lines, j) == NextNonBlank(lines, i + 1)
    {
      if IsBlank(lines[j]) {
        j := j + 1;
        continue;
      }
      if Indent(lines[j]) > indent && IsEntryLine(lines[j]) {
        has := true;
      }
      return;
    }
  }

  /** The first `n` lines without the empty `key` lines among them. */
  function KeptPrefix(lines: seq<string>, key: string, n: nat): seq<string>
    requires n <= |lines|
  {
    if n == 0 then []
    else KeptPrefix(lines, key, n - 1) + (if EmptyKeyAt(lines, key, n - 1) then [] else [lines[n - 1]])
  }

  /** The lines without the `key` lines that have no entries under them. */
  function CleanedLines(lines: seq<string>, key: string): seq<string> {
    KeptPrefix(lines, key, |lines|)
  }

  /** `remove_empty_sections`: drops every `key` line whose next non-blank line is not a deeper entry. */
  method RemoveEmptySections(content: string, key: string) returns (out: string)
    ensures out == JoinLines(CleanedLines(Lines(content), key))
  {
    var lines := Lines(content);
    var result: seq<string> := [];
    var i := 0;
    while i < |lines|
      invariant i <= |lines|
      invariant result == KeptPrefix(lines, key, i)
    {
      var line := lines[i];
      if Trim(line) == key {
        var hasEntries := HasEntries(lines, i);
        if !hasEntries {
          assert EmptyKeyAt(lines, key, i);
          i := i + 1;
          continue;
        }
      }
      assert !EmptyKeyAt(lines, key, i);
      result := result + [line];
      i := i + 1;
    }
    return JoinLines(result);
  }

  /** Cleaning only drops lines: what is left is a subsequence. */
  lemma {:induction false} KeptPrefixIsSubsequence(lines: seq<string>, key: string, n: nat)
    requires n <= |lines|
    ensures IsSubsequence(KeptPrefix(lines, key, n), lines[..n])
  {
    if n == 0 {
      EmptySubsequence(lines[..0]);
    } else {
      KeptPrefixIsSubsequence(lines, key, n - 1);
      var last: seq<string> := if EmptyKeyAt(lines, key, n - 1) then [] else [lines[n - 1]];
      if last == [] {
        EmptySubsequence([lines[n - 1]]);
      } else {
        SubsequenceRefl(last);
      }
      SubsequenceConcat(KeptPrefix(lines, key, n - 1), lines[..n - 1], last, [lines[n - 1]]);
      assert lines[..n - 1] + [lines[n - 1]] == lines[..n];
    }
  }

  lemma CleanedIsSubsequence(lines: seq<string>, key: string)
    ensures IsSubsequence(CleanedLines(lines, key), lines)
  {
    KeptPrefixIsSubsequence(lines, key, |lines|);
    assert lines[..|lines|] == lines;
  }

  /** Every line that is not a `key` line is kept. */
  lemma {:induction false} KeptPrefixKeepsOthers(lines: seq<string>, key: string, n: nat, k: nat)
    requires k < n <= |lines| && Trim(lines[k]) != key
    ensures lines[k] in KeptPrefix(lines, key, n)
  {
    if k < n - 1 {
      KeptPrefixKeepsOthers(lines, key, n - 1, k);
    }
  }

  lemma CleanedKeepsOthers(lines: seq<string>, key: string, k: nat)
    requires k < |lines| && Trim(lines[k]) != key
    ensures lines[k] in CleanedLines(lines, key)
  {
    KeptPrefixKeepsOthers(lines, key, |lines|, k);
  }

  /** Text without empty `key` sections is left as it is. */
  lemma {:induction false} CleanedWithoutEmptyKeys(lines: seq<string>, key: string, n: nat)
    requires n <= |lines|
    requires forall i :: 0 <= i < n ==> !EmptyKeyAt(lines, key, i)
    ensures KeptPrefix(lines, key, n) == lines[..n]
  {
    if n > 0 {
      CleanedWithoutEmptyKeys(lines, key, n - 1);
      assert lines[..n - 1] + [lines[n - 1]] == lines[..n];
    }
  }

  /** An entry line is never a section key, and it is never empty. */
  lemma EntryLineIsNotKey(line: string, key: string)
    requires IsEntryLine(line) && (key == "file:" || key == "tree:")
    ensures Trim(line) != key && line != ""
  {
    assert Trim(line)[0] == '-';
  }

  lemma NameLineIsEntry(line: string, name: string)
    requires IsNameLine(line, name)
    ensures IsEntryLine(line)
  {
    assert ("- name: " + name)[..7] == "- name:";
  }

  /** A project with an index exists only after a project-opening line. */
  lemma {:induction false} ProjectStartBefore(lines: seq<string>, n: nat) returns (k: nat)
    requires n <= |lines| && ProjectStarts(lines, n) >= 1
    ensures k < n && IsProjectStart(lines[k])
  {
    if IsProjectStart(lines[n - 1]) {
      k := n - 1;
    } else {
      k := ProjectStartBefore(lines, n - 1);
    }
  }

  function FileNotFound(name: string): string {
    "Could not find file entry '" + name + "' in moli.yml"
  }

  function ParentNotFound(name: string): string {
    "Could not find parent module '" + name + "' in moli.yml"
  }

  function ModuleNotFound(name: string): string {
    "Could not find module '" + name + "' in moli.yml"
  }

  /** A final newline of the original is put back when the edited text lost it. */
  function Finish(original: string, result: string): string {
    if EndsWithNewline(original) && !EndsWithNewline(result) then result + "\n" else result
  }

  /** The text left after cutting lines `start..end` out of `yaml` and dropping the `key` sections left empty. */
  function Splice(yaml: string, start: nat, end: nat, key: string): string
    requires start <= end < |Lines(yaml)|
  {
    var lines := Lines(yaml);
    Finish(yaml, JoinLines(CleanedLines(Lines(JoinLines(lines[..start] + lines[end + 1..])), key)))
  }

  /**
   * When an entry line stands before the cut, the spliced text consists of
   * lines of the original, in their order, and it ends with a newline when
   * the original does.
   */
  lemma SpliceKeepsLines(yaml: string, start: nat, end: nat, key: string, k: nat)
    requires start <= end < |Lines(yaml)|
    requires k < start && IsEntryLine(Lines(yaml)[k])
    requires key == "file:" || key == "tree:"
    ensures IsSubsequence(Lines(Splice(yaml, start, end, key)), Lines(yaml))
    ensures EndsWithNewline(yaml) ==> EndsWithNewline(Splice(yaml, start, end, key))
  {
    var lines := Lines(yaml);
    CutCleanedLines(lines, start, end, key, k);
    FinishKeepsLines(yaml, CleanedLines(Lines(JoinLines(lines[..start] + lines[end + 1..])), key));
  }

  /** The lines left by the cut and the cleanup are lines of the original, in order; the entry line at `k` keeps one of them. */
  lemma CutCleanedLines(lines: seq<string>, start: nat, end: nat, key: string, k: nat)
    requires start <= end < |lines| && NoneContains(lines, '\n')
    requires k < start && IsEntryLine(lines[k])
    requires key == "file:" || key == "tree:"
    ensures var c := CleanedLines(Lines(JoinLines(lines[..start] + lines[end + 1..])), key);
            c != [] && IsSubsequence(c, lines)
  {
    var cut := lines[..start] + lines[end + 1..];
    CutIsSubsequence(lines, start, end + 1);
    SubsequenceNoneContains(cut, lines, '\n');
    LinesOfJoin(cut);
    var d := DropTrailingEmpty(cut);
    DropTrailingEmptyIsSubsequence(cut);
    SubsequenceTrans(d, cut, lines);
    EntryLineIsNotKey(lines[k], key);
    assert k < |cut| && cut[k] == lines[k];
    DropTrailingEmptyKeeps(cut, k);
    var c := CleanedLines(d, key);
    CleanedKeepsOthers(d, key, k);
    CleanedIsSubsequence(d, key);
    SubsequenceTrans(c, d, lines);
  }

  /** Joining lines of the original and restoring its final newline gives back those lines, and the final newline. */
  lemma FinishKeepsLines(yaml: string, c: seq<string>)
    requires c != [] && IsSubsequence(c, Lines(yaml))
    ensures IsSubsequence(Lines(Finish(yaml, JoinLines(c))), Lines(yaml))
    ensures EndsWithNewline(yaml) ==> EndsWithNewline(Finish(yaml, JoinLines(c)))
  {
    var lines := Lines(yaml);
    SubsequenceNoneContains(c, lines, '\n');
    var text := JoinLines(c);
    if EndsWithNewline(yaml) && !EndsWithNewline(text) {
      JoinSnoc(c, "", "\n");
      assert text + "\n" == JoinLines(c + [""]);
      assert NoneContains(c + [""], '\n') by {
        forall i | 0 <= i < |c + [""]| ensures '\n' !in (c + [""])[i] {
          if i < |c| {
            assert (c + [""])[i] == c[i];
          }
        }
      }
      LinesOfJoin(c + [""]);
      assert (c + [""])[..|c|] == c;
      assert Lines(text + "\n") == c;
    } else {
      LinesOfJoin(c);
      DropTrailingEmptyIsSubsequence(c);
      SubsequenceTrans(DropTrailingEmpty(c), c, lines);
    }
  }

  /** The line of the file entry a removal targets (`is_project_level` picks the search). */
  function FileAnchor(lines: seq<string>, target: ManagedFile): Option<nat>
    requires target.isProjectLevel || |target.modulePath| > 0
  {
    if target.isProjectLevel then FirstAnchor(lines, ProjectFile(target.projectIndex, target.fileName), 0)
    else TreeFileAnchor(lines, target.modulePath, target.fileName)
  }

  /**
   * The line of the module a removal targets: a top-level module of the
   * project when there are no parents, otherwise the first line naming the
   * module after the parents are followed; or why there is none.
   */
  function ModuleAnchor(lines: seq<string>, target: ManagedFile): Result<nat> {
    if target.modulePath == [] then
      match FirstAnchor(lines, TopLevelModule(target.projectIndex, target.fileName), 0)
      case None => Err(ModuleNotFound(target.fileName))
      case Some(i) => Ok(i)
    else
      match Navigate(lines, 0, target.modulePath)
      case MissingAt(parent) => Err(ParentNotFound(parent))
      case Reached(next) =>
        match FirstAnchor(lines, Named(target.fileName), next)
        case None => Err(ModuleNotFound(target.fileName))
        case Some(i) => Ok(i)
  }

  /**
   * What removing a file entry gives: an error naming the file when it is not
   * found, otherwise the text with the entry's span cut out and emptied
   * `file:` keys dropped.
   */
  ghost predicate FileRemovalResult(yaml: string, target: ManagedFile, r: Result<string>)
    requires target.isProjectLevel || |target.modulePath| > 0
  {
    var lines := Lines(yaml);
    match FileAnchor(lines, target)
    case None => r == Err(FileNotFound(target.fileName))
    case Some(start) => r.Ok? && exists end :: IsFileSpan(lines, start, end) && r.value == Splice(yaml, start, end, "file:")
  }

  /**
   * What removing a module gives: the error for the missing parent or
   * module, otherwise the text with the module's span cut out and emptied
   * `tree:` keys dropped.
   */
  ghost predicate ModuleRemovalResult(yaml: string, target: ManagedFile, r: Result<string>) {
    var lines := Lines(yaml);
    match ModuleAnchor(lines, target)
    case Err(message) => r == Err(message)
    case Ok(start) => r.Ok? && exists end :: IsModuleSpan(lines, start, end) && r.value == Splice(yaml, start, end, "tree:")
  }

  /** An entry line stands before every file anchor. */
  lemma FileAnchorPredecessor(lines: seq<string>, target: ManagedFile) returns (k: nat)
    requires target.isProjectLevel || |target.modulePath| > 0
    requires FileAnchor(lines, target).Some?
    ensures k < FileAnchor(lines, target).value && IsEntryLine(lines[k])
  {
    if target.isProjectLevel {
      var a := ProjectFile(target.projectIndex, target.fileName);
      FirstAnchorFound(lines, a, 0);
      var i := FirstAnchor(lines, a, 0).value;
      k := ProjectStartBefore(lines, i + 1);
    } else {
      NavigateSpec(lines, 0, target.modulePath);
      var next := Navigate(lines, 0, target.modulePath).next;
      var a := ModuleFile(next - 1, target.fileName);
      FirstAnchorFound(lines, a, next);
      k := next - 1;
      NameLineIsEntry(lines[k], target.modulePath[|target.modulePath| - 1]);
    }
  }

  /** An entry line stands before every module anchor. */
  lemma ModuleAnchorPredecessor(lines: seq<string>, target: ManagedFile) returns (k: nat)
    requires ModuleAnchor(lines, target).Ok?
    ensures k < ModuleAnchor(lines, target).value && IsEntryLine(lines[k])
  {
    if target.modulePath == [] {
      var a := TopLevelModule(target.projectIndex, target.fileName);
      FirstAnchorFound(lines, a, 0);
      var i := FirstAnchor(lines, a, 0).value;
      k := ProjectStartBefore(lines, i + 1);
    } else {
      NavigateSpec(lines, 0, target.modulePath);
      var next := Navigate(lines, 0, target.modulePath).next;
      k := next - 1;
      NameLineIsEntry(lines[k], target.modulePath[|target.modulePath| - 1]);
    }
  }

  /** `remove_file_entry`. */
  method RemoveFileEntry(yaml: string, target: ManagedFile) returns (r: Result<string>)
    requires target.isProjectLevel || |target.modulePath| > 0
    ensures FileRemovalResult(yaml, target, r)
    ensures r.Ok? ==> IsSubsequence(Lines(r.value), Lines(yaml)) && (EndsWithNewline(yaml) ==> EndsWithNewline(r.value))
  {
    var lines := Lines(yaml);
    var range: Option<(nat, nat)>;
    if target.isProjectLevel {
      range := FindProjectLevelFile(lines, target.projectIndex, target.fileName);
    } else {
      range := FindTreeFile(lines, target.modulePath, target.fileName);
    }
    if range.None? {
      return Err(FileNotFound(target.fileName));
    }
    var (start, end) := range.value;
    var kept := CutLines(lines, start, end);
    var result := RemoveEmptySections(JoinLines(kept), "file:");
    if EndsWithNewline(yaml) && !EndsWithNewline(result) {
      result := result + "\n";
    }
    ghost var k := FileAnchorPredecessor(lines, target);
    SpliceKeepsLines(yaml, start, end, "file:", k);
    return Ok(result);
  }

  /** `remove_module_entry`. */
  method RemoveModuleEntry(yaml: string, target: ManagedFile) returns (r: Result<string>)
    ensures ModuleRemovalResult(yaml, target, r)
    ensures r.Ok? ==> IsSubsequence(Lines(r.value), Lines(yaml)) && (EndsWithNewline(yaml) ==> EndsWithNewline(r.value))
  {
    var lines := Lines(yaml);
    var moduleName := target.fileName;
    var parentPath := target.modulePath;
    var moduleStart: Option<nat>;
    if parentPath == [] {
      moduleStart := FindTopLevelModule(lines, target.projectIndex, moduleName);
    } else {
      var reached := FollowPath(lines, parentPath);
      if reached.MissingAt? {
        return Err(ParentNotFound(reached.name));
      }
      moduleStart := FindModuleStart(lines, reached.next, moduleName);
    }
    if moduleStart.None? {
      return Err(ModuleNotFound(moduleName));
    }
    var start := moduleStart.value;
    var end := ModuleSpanEnd(lines, start);
    var kept := CutLines(lines, start, end);
    var result := RemoveEmptySections(JoinLines(kept), "tree:");
    if EndsWithNewline(yaml) && !EndsWithNewline(result) {
      result := result + "\n";
    }
    ghost var k := ModuleAnchorPredecessor(lines, target);
    SpliceKeepsLines(yaml, start, end, "tree:", k);
    return Ok(result);
  }

  /** `remove_entry`: a directory is removed as a module, anything else as a file. */
  method RemoveEntry(yaml: string, target: ManagedFile) returns (r: Result<string>)
    requires target.isDirectory || target.isProjectLevel || |target.modulePath| > 0
    ensures target.isDirectory ==> ModuleRemovalResult(yaml, target, r)
    ensures !target.isDirectory ==> FileRemovalResult(yaml, target, r)
    ensures r.Ok? ==> IsSubsequence(Lines(r.value), Lines(yaml)) && (EndsWithNewline(yaml) ==> EndsWithNewline(r.value))
  {
    if target.isDirectory {
      r := RemoveModuleEntry(yaml, target);
    } else {
      r := RemoveFileEntry(yaml, target);
    }
  }
}
