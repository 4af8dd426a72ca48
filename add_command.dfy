/**
 * The spec editing of `moli add`: a skill repository is added as a
 * `- from: <url>` entry under the `skills` module of the `.claude` project.
 * When the project exists, one line is spliced into the spec text; when it
 * does not, a whole project is generated.
 */
module AddCommand {
  import opened Results
  import opened Text
  import opened YamlModifier

  /** A repository of the skills organisation, as the listing reports it. */
  datatype Repo = Repo(name: string, cloneUrl: string)

  const ClaudeProjectLine := "- name: .claude"
  const SkillsModuleLine := "- name: skills"
  const NoClaudeProject := ".claude project not found in moli.yml"
  const NoSkillsModule := "skills module not found in .claude project"
  const NoSkillsTree := "tree section not found in skills module"

  /** The `- from: <url>` text an added skill is listed by. */
  function FromEntry(url: string): string {
    "- from: " + url
  }

  /**
   * The candidates offered for adding: the repositories, in order, whose
   * `- from: <clone url>` text does not already occur in the spec.
   */
  function NotYetAdded(repos: seq<Repo>, yaml: string): (r: seq<Repo>)
    ensures IsSubsequence(r, repos)
    ensures forall x :: x in r <==> x in repos && !Contains(yaml, FromEntry(x.cloneUrl))
    ensures forall x :: multiset(r)[x] == if Contains(yaml, FromEntry(x.cloneUrl)) then 0 else multiset(repos)[x]
  {
    if repos == [] then []
    else
      var rest := NotYetAdded(repos[1..], yaml);
      assert forall x :: x in repos <==> x == repos[0] || x in repos[1..];
      HeadTail(repos);
      if Contains(yaml, FromEntry(repos[0].cloneUrl)) then
        SubsequenceOfSuffix(rest, [repos[0]], repos[1..]);
        rest
      else
        assert ([repos[0]] + rest)[1..] == rest;
        [repos[0]] + rest
  }

  /** A `.claude` project whose `skills` module has a `tree:` with no entry under it. */
  function EmptySkillsProjectLines(): seq<string> {
    [ClaudeProjectLine, Spaces(2) + "lang: any", Spaces(2) + "tree:", Spaces(4) + SkillsModuleLine,
     Spaces(6) + "tree:"]
  }

  /** The lines of the project `generate_claude_project_yaml` writes for a first skill. */
  function ClaudeProjectLines(url: string): seq<string> {
    EmptySkillsProjectLines() + [SkillEntry(8, url)]
  }

  /**
   * `generate_claude_project_yaml`: a `.claude` project of `lang: any` whose
   * `skills` module lists the URL, each of its lines ended by a newline.
   */
  function ClaudeProjectYaml(url: string): (yaml: string)
    ensures EndsWithNewline(yaml)
  {
    var body := JoinLines(ClaudeProjectLines(url));
    assert (body + "\n")[|body|] == '\n';
    body + "\n"
  }

  /** Reading the generated project back gives its lines, when the URL holds no newline. */
  lemma ClaudeProjectYamlLines(url: string)
    requires '\n' !in url
    ensures Lines(ClaudeProjectYaml(url)) == ClaudeProjectLines(url)
  {
    var ls := ClaudeProjectLines(url);
    JoinSnoc(ls, "", "\n");
    assert NoneContains(ls + [""], '\n') by {
      assert '\n' !in SkillEntry(8, url);
      forall k | 0 <= k < 7 ensures '\n' !in (ls + [""])[k] {
        if k < 5 {
          assert (ls + [""])[k] == ls[k];
        }
      }
    }
    LinesOfJoin(ls + [""]);
    assert ClaudeProjectYaml(url) == JoinLines(ls + [""]);
    assert (ls + [""])[..6] == ls;
  }

  /**
   * What the loop of `add_skill_to_existing_claude_project` tests about a
   * line: whether its trimmed text is the `.claude` project line, starts a
   * name, is the `skills` module line, is `tree:`, starts a `- from:` entry
   * or is empty; and its indent.
   */
  datatype LineView = LineView(claude: bool, name: bool, skills: bool, tree: bool, from: bool, blank: bool, indent: nat)

  function View(line: string): LineView {
    var t := Trim(line);
    LineView(t == ClaudeProjectLine, StartsWith(t, "- name:"), t == SkillsModuleLine, t == "tree:",
             StartsWith(t, "- from:"), t == "", Indent(line))
  }

  /** The view of every line, in order. */
  function Views(lines: seq<string>): seq<LineView> {
    seq(|lines|, k requires 0 <= k < |lines| => View(lines[k]))
  }

  /** The `.claude` project's own line, at indent 0. */
  predicate IsClaudeStart(line: string) {
    Trim(line) == ClaudeProjectLine && Indent(line) == 0
  }

  predicate OpensClaude(v: LineView) {
    v.claude && v.indent == 0
  }

  predicate OpensProject(v: LineView) {
    v.name && v.indent == 0
  }

  /** The view of a line says what the line-level predicates say. */
  lemma ViewOf(line: string)
    ensures OpensClaude(View(line)) <==> IsClaudeStart(line)
    ensures OpensProject(View(line)) <==> IsProjectStart(line)
    ensures OpensClaude(View(line)) ==> OpensProject(View(line))
    ensures View(line).skills <==> Trim(line) == SkillsModuleLine
    ensures View(line).tree <==> Trim(line) == "tree:"
    ensures View(line).from <==> StartsWith(Trim(line), "- from:")
    ensures View(line).indent == Indent(line)
  {
  }

  /**
   * Where the scan for the skills tree stands: inside the `.claude`
   * project, its `skills` module and that module's `tree:`, the indent
   * entries of that tree have, the position after the last entry seen, and
   * whether the scan has stopped. The line numbers of the project, module
   * and tree lines, and of the line the scan stopped at, are kept for the
   * statements about the scan; the source does not track them.
   */
  datatype SkillScan = SkillScan(inClaude: bool, inSkills: bool, inTree: bool, treeIndent: nat,
                                 insertAt: Option<nat>, stopped: bool,
                                 claudeLine: nat, skillsLine: nat, treeLine: nat, stopLine: nat)

  const Start := SkillScan(false, false, false, 0, None, false, 0, 0, 0, 0)

  /** One turn of the scan over line `i`, checked in the order the source checks. */
  function Step(s: SkillScan, v: LineView, i: nat): SkillScan {
    if v.claude && v.indent == 0 then
      s.(inClaude := true, inSkills := false, inTree := false, claudeLine := i)
    else if s.inClaude && v.name && v.indent == 0 then s.(stopped := true, stopLine := i)
    else if s.inClaude && v.skills then s.(inSkills := true, inTree := false, skillsLine := i)
    else if s.inSkills && v.tree then s.(inTree := true, treeIndent := v.indent + 2, treeLine := i)
    else if s.inTree && v.from && v.indent == s.treeIndent then s.(insertAt := Some(i + 1))
    else if s.inTree && !v.blank && v.indent < s.treeIndent then s.(stopped := true, stopLine := i)
    else s
  }

  /** The scan after the first `n` lines; a stopped scan looks at no further line. */
  function Scan(vs: seq<LineView>, n: nat): SkillScan
    requires n <= |vs|
  {
    if n == 0 then Start
    else
      var s := Scan(vs, n - 1);
      if s.stopped then s else Step(s, vs[n - 1], n - 1)
  }

  /** Where the scan stopped looking: the line of its `break`, or past the `n` lines it saw. */
  function ScanEnd(s: SkillScan, n: nat): nat {
    if s.stopped then s.stopLine else n
  }

  /** The scan over all the lines of the spec. */
  function FinalScan(lines: seq<string>): SkillScan {
    Scan(Views(lines), |lines|)
  }

  /** The first line at or after `from` whose trimmed text is `tree:`. */
  function FirstTreeLine(lines: seq<string>, from: nat): (r: Option<nat>)
    ensures r.Some? ==> from <= r.value < |lines|
    decreases |lines| - from
  {
    if from >= |lines| then None
    else if Trim(lines[from]) == "tree:" then Some(from)
    else FirstTreeLine(lines, from + 1)
  }

  /** The line a new skill is listed by: the tree's indent, then `- from: <url>`. */
  function SkillEntry(indent: nat, url: string): string {
    Spaces(indent) + "- " + "from: " + url
  }

  /** `lines` with `entry` put in before position `pos` (`Vec::insert`). */
  function InsertLine(lines: seq<string>, pos: nat, entry: string): seq<string>
    requires pos <= |lines|
  {
    lines[..pos] + [entry] + lines[pos..]
  }

  /**
   * Where the source puts the entry line: after the last entry of the
   * skills tree when one was seen, otherwise after the first `tree:` line of
   * the whole text.
   */
  function PlaceEntry(lines: seq<string>, insertAt: Option<nat>, entry: string): seq<string> {
    match insertAt
    case Some(pos) => if pos <= |lines| then InsertLine(lines, pos, entry) else lines
    case None =>
      match FirstTreeLine(lines, 0)
      case Some(k) => InsertLine(lines, k + 1, entry)
      case None => lines
  }

  /** The position `PlaceEntry` inserts at, when it inserts. */
  function EntryPosition(lines: seq<string>, insertAt: Option<nat>): nat {
    match insertAt
    case Some(pos) => pos
    case None =>
      match FirstTreeLine(lines, 0)
      case Some(k) => k + 1
      case None => 0
  }

  /** The lines `add_skill_to_existing_claude_project` joins, as written; or the first failure. */
  function AddedLinesAsWritten(lines: seq<string>, url: string): Result<seq<string>> {
    var s := FinalScan(lines);
    if !s.inClaude then Err(NoClaudeProject)
    else if !s.inSkills then Err(NoSkillsModule)
    else if !s.inTree then Err(NoSkillsTree)
    else Ok(PlaceEntry(lines, s.insertAt, SkillEntry(s.treeIndent, url)))
  }

  /**
   * Where a new skill belongs: after the last entry seen in the skills
   * tree, or, with none, right after that tree's own `tree:` line.
   */
  function SkillPosition(s: SkillScan): nat {
    match s.insertAt
    case Some(pos) => pos
    case None => s.treeLine + 1
  }

  /**
   * The lines after adding the skill, with the fallback corrected to the
   * skills tree's own `tree:` line; or the first failure.
   */
  function AddedLines(lines: seq<string>, url: string): Result<seq<string>> {
    var s := FinalScan(lines);
    if !s.inClaude then Err(NoClaudeProject)
    else if !s.inSkills then Err(NoSkillsModule)
    else if !s.inTree then Err(NoSkillsTree)
    else
      var pos := SkillPosition(s);
      if pos <= |lines| then Ok(InsertLine(lines, pos, SkillEntry(s.treeIndent, url))) else Ok(lines)
  }

  /** The spec text after adding the skill, with the original's final newline kept. */
  function AddSkill(yaml: string, url: string): Result<string> {
    match AddedLines(Lines(yaml), url)
    case Err(e) => Err(e)
    case Ok(ls) => Ok(Finish(yaml, JoinLines(ls)))
  }

  /**
   * `add_skill_to_existing_claude_project`: one pass over the lines tracks
   * the `.claude` project, its `skills` module, that module's `tree:` and
   * the position after its last `- from:` entry, stopping at the next
   * project or when the tree is left; the failures are reported in that
   * order, and the entry line is inserted there, or, with no entry seen,
   * right after the skills tree's `tree:` line.
   */
  method AddSkillToExistingClaudeProject(yaml: string, cloneUrl: string) returns (r: Result<string>)
    ensures r == AddSkill(yaml, cloneUrl)
  {
    var lines := Lines(yaml);
    var resultLines := lines;
    var inClaude, inSkills, inTree, treeIndent, insertPosition, treeLine := ScanLines(lines);
    ghost var s := FinalScan(lines);
    if !inClaude {
      return Err(NoClaudeProject);
    }
    if !inSkills {
      return Err(NoSkillsModule);
    }
    if !inTree {
      return Err(NoSkillsTree);
    }
    var newEntry := Spaces(treeIndent) + "- " + "" + "from: " + cloneUrl;
    assert newEntry == SkillEntry(s.treeIndent, cloneUrl);
    var pos := if insertPosition.Some? then insertPosition.value else treeLine + 1;
    if pos <= |resultLines| {
      resultLines := InsertLine(resultLines, pos, newEntry);
    }
    var result := JoinLines(resultLines);
    if EndsWithNewline(yaml) && !EndsWithNewline(result) {
      result := result + "\n";
    }
    return Ok(result);
  }

  /** The loop of `add_skill_to_existing_claude_project` over the lines, up to its `break`. */
  method ScanLines(lines: seq<string>)
    returns (inClaude: bool, inSkills: bool, inTree: bool, treeIndent: nat, insertPosition: Option<nat>, treeLine: nat)
    ensures Agrees(FinalScan(lines), inClaude, inSkills, inTree, treeIndent, insertPosition, treeLine)
  {
    ghost var vs := Views(lines);
    inClaude, inSkills, inTree := false, false, false;
    treeIndent, insertPosition, treeLine := 0, None, 0;
    var i := 0;
    while i < |lines|
      invariant i <= |lines|
      invariant !Scan(vs, i).stopped
      invariant Agrees(Scan(vs, i), inClaude, inSkills, inTree, treeIndent, insertPosition, treeLine)
    {
      var stop;
      ghost var s := Scan(vs, i);
      inClaude, inSkills, inTree, treeIndent, insertPosition, treeLine, stop :=
        ScanLine(lines[i], i, s, inClaude, inSkills, inTree, treeIndent, insertPosition, treeLine);
      assert vs[i] == View(lines[i]);
      assert Scan(vs, i + 1) == Step(s, vs[i], i);
      if stop {
        ScanStopped(vs, i + 1, |lines|);
        assert FinalScan(lines) == Scan(vs, i + 1);
        return;
      }
      i := i + 1;
    }
  }

  /** The loop's flags are the scan's. */
  predicate Agrees(s: SkillScan, inClaude: bool, inSkills: bool, inTree: bool, treeIndent: nat, insertPosition: Option<nat>,
                   treeLine: nat) {
    s.inClaude == inClaude && s.inSkills == inSkills && s.inTree == inTree
    && s.treeIndent == treeIndent && s.insertAt == insertPosition && s.treeLine == treeLine
  }

  /** One turn of the loop of `add_skill_to_existing_claude_project` over line `i`; `stop` is its `break`. */
  method ScanLine(line: string, i: nat, ghost s: SkillScan,
                  inClaude0: bool, inSkills0: bool, inTree0: bool, treeIndent0: nat, insertPosition0: Option<nat>,
                  treeLine0: nat)
    returns (inClaude: bool, inSkills: bool, inTree: bool, treeIndent: nat, insertPosition: Option<nat>, treeLine: nat,
             stop: bool)
    requires !s.stopped && Agrees(s, inClaude0, inSkills0, inTree0, treeIndent0, insertPosition0, treeLine0)
    ensures Agrees(Step(s, View(line), i), inClaude, inSkills, inTree, treeIndent, insertPosition, treeLine)
    ensures stop == Step(s, View(line), i).stopped
  {
    inClaude, inSkills, inTree, treeIndent, insertPosition, treeLine, stop :=
      inClaude0, inSkills0, inTree0, treeIndent0, insertPosition0, treeLine0, false;
    var trimmed := Trim(line);
    var indent := Indent(line);
    if trimmed == ClaudeProjectLine && indent == 0 {
      inClaude, inSkills, inTree := true, false, false;
      return;
    }
    if inClaude && StartsWith(trimmed, "- name:") && indent == 0 {
      stop := true;
      return;
    }
    if inClaude && trimmed == SkillsModuleLine {
      inSkills, inTree := true, false;
      return;
    }
    if inSkills && trimmed == "tree:" {
      inTree, treeIndent, treeLine := true, indent + 2, i;
      return;
    }
    if inTree {
      if StartsWith(trimmed, "- from:") && indent == treeIndent {
        insertPosition := Some(i + 1);
      } else if trimmed != "" && indent < treeIndent {
        stop := true;
      }
    }
  }

  /** A stopped scan looks at no further line. */
  lemma {:induction false} ScanStopped(vs: seq<LineView>, n: nat, m: nat)
    requires n <= m <= |vs| && Scan(vs, n).stopped
    ensures Scan(vs, m) == Scan(vs, n)
    decreases m - n
  {
    if n < m {
      ScanStopped(vs, n + 1, m);
    }
  }

  /** The flags nest: a scan in the skills tree is in the skills module, which is in the `.claude` project. */
  lemma {:induction false} ScanFlags(vs: seq<LineView>, n: nat)
    requires n <= |vs|
    ensures var s := Scan(vs, n);
            (s.stopped ==> s.inClaude) && (s.inSkills ==> s.inClaude) && (s.inTree ==> s.inSkills)
  {
    if n > 0 {
      ScanFlags(vs, n - 1);
    }
  }

  /** What the scan knows after `n` lines about the lines it has seen. */
  predicate ScanFacts(vs: seq<LineView>, n: nat, s: SkillScan)
    requires n <= |vs|
  {
    && (s.inClaude ==> s.claudeLine < n && OpensClaude(vs[s.claudeLine]))
    && (s.inSkills ==> s.claudeLine < s.skillsLine < n && vs[s.skillsLine].skills)
    && (s.inTree ==> s.skillsLine < s.treeLine < n && vs[s.treeLine].tree && s.treeIndent == vs[s.treeLine].indent + 2)
    && (s.insertAt.Some? ==> 0 < s.insertAt.value <= n && vs[s.insertAt.value - 1].from)
  }

  /** The scan's line numbers point at the lines it says they are. */
  lemma {:induction false} ScanFactsHold(vs: seq<LineView>, n: nat)
    requires n <= |vs|
    ensures ScanFacts(vs, n, Scan(vs, n))
  {
    if n > 0 {
      ScanFactsHold(vs, n - 1);
      ScanFlags(vs, n - 1);
    }
  }

  /** No project starts strictly after line `lo` and before line `hi`. */
  predicate NoProjectStartBetween(lines: seq<string>, lo: nat, hi: nat)
    requires hi <= |lines|
  {
    forall k :: lo < k < hi ==> !IsProjectStart(lines[k])
  }

  predicate NoOpeningBetween(vs: seq<LineView>, lo: nat, hi: nat)
    requires hi <= |vs|
  {
    forall k :: lo < k < hi ==> !OpensProject(vs[k])
  }

  /** The scan's `tree:` line, and every line up to a running scan's position, lie inside its `.claude` project. */
  lemma {:induction false} ScanInside(vs: seq<LineView>, n: nat)
    requires n <= |vs|
    ensures var s := Scan(vs, n);
            s.inClaude && !s.stopped ==> NoOpeningBetween(vs, s.claudeLine, n)
    ensures var s := Scan(vs, n);
            s.inTree ==> s.treeLine < n && NoOpeningBetween(vs, s.claudeLine, s.treeLine + 1)
  {
    if n > 0 {
      ScanInside(vs, n - 1);
      ScanFlags(vs, n - 1);
      ScanFactsHold(vs, n - 1);
    }
  }

  /**
   * The extent of the `.claude` project a scan that ended at `e` is in: no
   * project opens between that project's line and `e`, and a scan that
   * broke did so on a line that opens a project or leaves the skills tree.
   */
  predicate ExtentFacts(vs: seq<LineView>, s: SkillScan, e: nat)
    requires e <= |vs|
  {
    && (s.stopped ==> e < |vs| && (OpensProject(vs[e]) || (s.inTree && !vs[e].blank && vs[e].indent < s.treeIndent)))
    && (s.inClaude ==> s.claudeLine < e && NoOpeningBetween(vs, s.claudeLine, e))
  }

  /**
   * A flag that is off means no line before `e` was there to set it, and a
   * flag that is on was set by the last such line: no `skills` line after
   * the scan's one, no `tree:` line after the scan's one.
   */
  predicate ModuleFacts(vs: seq<LineView>, s: SkillScan, e: nat)
    requires e <= |vs|
  {
    && (s.inClaude && !s.inSkills ==> forall k :: s.claudeLine < k < e ==> !vs[k].skills)
    && (s.inSkills ==> s.claudeLine < s.skillsLine < e && forall k :: s.skillsLine < k < e ==> !vs[k].skills)
    && (s.inSkills && !s.inTree ==> forall k :: s.skillsLine < k < e ==> !vs[k].tree)
    && (s.inTree ==> s.skillsLine < s.treeLine < e && forall k :: s.treeLine < k < e ==> !vs[k].tree)
  }

  /**
   * Inside the skills tree, up to `e`: every line after the `tree:` line is
   * blank or at least as deep as the tree's entries, no entry at that indent
   * lies at or after the insert position, and a position past the `tree:`
   * line is right after such an entry.
   */
  predicate TreeFacts(vs: seq<LineView>, s: SkillScan, e: nat)
    requires e <= |vs|
  {
    s.inTree ==>
      && (forall k :: s.treeLine < k < e ==> vs[k].blank || vs[k].indent >= s.treeIndent)
      && (forall k :: s.treeLine < k < e && vs[k].from && vs[k].indent == s.treeIndent ==>
            s.insertAt.Some? && k < s.insertAt.value)
      && (s.insertAt.Some? && s.treeLine < s.insertAt.value - 1 ==>
            s.insertAt.value - 1 < e && vs[s.insertAt.value - 1].from && vs[s.insertAt.value - 1].indent == s.treeIndent)
  }

  /** What a running scan over the first `i` lines knows of itself. */
  predicate Running(s: SkillScan, i: nat) {
    && !s.stopped && (s.inSkills ==> s.inClaude) && (s.inTree ==> s.inSkills)
    && (s.insertAt.Some? ==> s.insertAt.value <= i)
    && (s.inClaude ==> s.claudeLine < i) && (s.inSkills ==> s.skillsLine < i) && (s.inTree ==> s.treeLine < i)
  }

  /** One turn of the scan keeps the extent facts. */
  lemma ExtentStep(vs: seq<LineView>, s0: SkillScan, i: nat)
    requires i < |vs| && Running(s0, i) && ExtentFacts(vs, s0, i)
    ensures var s := Step(s0, vs[i], i); ExtentFacts(vs, s, ScanEnd(s, i + 1))
  {
  }

  /** One turn of the scan keeps the module facts. */
  lemma ModuleStep(vs: seq<LineView>, s0: SkillScan, i: nat)
    requires i < |vs| && Running(s0, i) && ModuleFacts(vs, s0, i)
    ensures var s := Step(s0, vs[i], i); ModuleFacts(vs, s, ScanEnd(s, i + 1))
  {
  }

  /** One turn of the scan keeps the tree facts. */
  lemma TreeStep(vs: seq<LineView>, s0: SkillScan, i: nat)
    requires i < |vs| && Running(s0, i) && ModuleFacts(vs, s0, i) && TreeFacts(vs, s0, i)
    ensures var s := Step(s0, vs[i], i); TreeFacts(vs, s, ScanEnd(s, i + 1))
  {
  }

  /** The scan after `n` lines ends at most at `n`, and a running scan knows its own line numbers. */
  lemma {:induction false} ScanEndBound(vs: seq<LineView>, n: nat)
    requires n <= |vs|
    ensures var s := Scan(vs, n); ScanEnd(s, n) <= n && (s.stopped ==> ScanEnd(s, n) < n)
    ensures !Scan(vs, n).stopped ==> Running(Scan(vs, n), n)
  {
    if n > 0 {
      ScanEndBound(vs, n - 1);
      ScanFlags(vs, n - 1);
      ScanFactsHold(vs, n - 1);
    }
  }

  /** The extent, module and tree facts of a scan that ended at `e`. */
  predicate ScanHolds(vs: seq<LineView>, s: SkillScan, e: nat)
    requires e <= |vs|
  {
    ExtentFacts(vs, s, e) && ModuleFacts(vs, s, e) && TreeFacts(vs, s, e)
  }

  /** One turn of a running scan keeps all three kinds of facts. */
  lemma InvariantStep(vs: seq<LineView>, s0: SkillScan, i: nat)
    requires i < |vs| && Running(s0, i) && ScanHolds(vs, s0, i)
    ensures var s := Step(s0, vs[i], i); ScanEnd(s, i + 1) <= i + 1 && ScanHolds(vs, s, ScanEnd(s, i + 1))
  {
    ExtentStep(vs, s0, i);
    ModuleStep(vs, s0, i);
    TreeStep(vs, s0, i);
  }

  /** The extent, module and tree facts hold for the scan up to where it ended. */
  lemma {:induction false} ScanInvariants(vs: seq<LineView>, n: nat)
    requires n <= |vs|
    ensures ScanEnd(Scan(vs, n), n) <= n && ScanHolds(vs, Scan(vs, n), ScanEnd(Scan(vs, n), n))
  {
    if n > 0 {
      ScanInvariants(vs, n - 1);
      ScanEndBound(vs, n - 1);
      var s0 := Scan(vs, n - 1);
      if s0.stopped {
        assert Scan(vs, n) == s0;
        assert ScanEnd(s0, n) == ScanEnd(s0, n - 1);
      } else {
        assert Scan(vs, n) == Step(s0, vs[n - 1], n - 1);
        InvariantStep(vs, s0, n - 1);
      }
    }
  }

  /** The extent facts of the scan, up to where it ended. */
  lemma ScanExtent(vs: seq<LineView>, n: nat)
    requires n <= |vs|
    ensures ScanEnd(Scan(vs, n), n) <= n && ExtentFacts(vs, Scan(vs, n), ScanEnd(Scan(vs, n), n))
  {
    ScanInvariants(vs, n);
  }

  /** The module facts of the scan, up to where it ended. */
  lemma ScanModules(vs: seq<LineView>, n: nat)
    requires n <= |vs|
    ensures ScanEnd(Scan(vs, n), n) <= n && ModuleFacts(vs, Scan(vs, n), ScanEnd(Scan(vs, n), n))
  {
    ScanInvariants(vs, n);
  }

  /** The tree facts of the scan, up to where it ended. */
  lemma ScanTree(vs: seq<LineView>, n: nat)
    requires n <= |vs|
    ensures ScanEnd(Scan(vs, n), n) <= n && TreeFacts(vs, Scan(vs, n), ScanEnd(Scan(vs, n), n))
  {
    ScanInvariants(vs, n);
  }

  /** An insert position past the `tree:` line of a scan in the skills tree is right after an entry at the tree's indent. */
  lemma ScanLastEntry(vs: seq<LineView>, n: nat)
    requires n <= |vs|
    ensures var s := Scan(vs, n);
            ScanEnd(s, n) <= n
            && (s.inTree && s.insertAt.Some? && s.treeLine < s.insertAt.value - 1 ==>
                  s.insertAt.value - 1 < ScanEnd(s, n) && vs[s.insertAt.value - 1].from
                  && vs[s.insertAt.value - 1].indent == s.treeIndent)
  {
    ScanInvariants(vs, n);
  }

  /** The scan is inside a `.claude` project exactly when some line opens one. */
  lemma {:induction false} ScanClaudeIff(vs: seq<LineView>, n: nat)
    requires n <= |vs|
    ensures Scan(vs, n).inClaude <==> exists k :: 0 <= k < n && OpensClaude(vs[k])
  {
    if n > 0 {
      ScanClaudeIff(vs, n - 1);
      ScanFlags(vs, n - 1);
      if OpensClaude(vs[n - 1]) && !Scan(vs, n - 1).stopped {
        assert Scan(vs, n).inClaude;
      }
    }
  }

  /** The first `tree:` line at or after `from` is one, and no line between is. */
  lemma {:induction false} FirstTreeLineSpec(lines: seq<string>, from: nat, t: nat)
    requires from <= t < |lines| && Trim(lines[t]) == "tree:"
    ensures FirstTreeLine(lines, from).Some?
    ensures var f := FirstTreeLine(lines, from).value;
            from <= f <= t && Trim(lines[f]) == "tree:"
            && forall k :: from <= k < f ==> Trim(lines[k]) != "tree:"
    decreases t - from
  {
    if Trim(lines[from]) != "tree:" {
      FirstTreeLineSpec(lines, from + 1, t);
    }
  }

  /** The facts of the final scan, stated about the lines. */
  lemma FinalScanFacts(lines: seq<string>)
    ensures var s := FinalScan(lines);
            s.inTree ==>
              s.inClaude && s.inSkills
              && s.claudeLine < s.skillsLine < s.treeLine < |lines|
              && IsClaudeStart(lines[s.claudeLine])
              && Trim(lines[s.skillsLine]) == SkillsModuleLine
              && Trim(lines[s.treeLine]) == "tree:"
              && NoProjectStartBetween(lines, s.claudeLine, s.treeLine + 1)
              && s.treeIndent == Indent(lines[s.treeLine]) + 2
    ensures var s := FinalScan(lines);
            s.insertAt.Some? ==> 0 < s.insertAt.value <= |lines| && StartsWith(Trim(lines[s.insertAt.value - 1]), "- from:")
    ensures var s := FinalScan(lines);
            s.inSkills ==> s.inClaude
  {
    var vs := Views(lines);
    var s := FinalScan(lines);
    ScanFlags(vs, |lines|);
    ScanFactsHold(vs, |lines|);
    ScanInside(vs, |lines|);
    if s.inTree {
      assert vs[s.claudeLine] == View(lines[s.claudeLine]);
      assert vs[s.skillsLine] == View(lines[s.skillsLine]);
      assert vs[s.treeLine] == View(lines[s.treeLine]);
      forall k | s.claudeLine < k < s.treeLine + 1 ensures !IsProjectStart(lines[k]) {
        assert !OpensProject(vs[k]);
        assert vs[k] == View(lines[k]);
      }
    }
    if s.insertAt.Some? {
      assert vs[s.insertAt.value - 1] == View(lines[s.insertAt.value - 1]);
    }
  }

  /** A `- from:` entry at exactly `indent`. */
  predicate IsEntryAt(line: string, indent: nat) {
    StartsWith(Trim(line), "- from:") && Indent(line) == indent
  }

  /** A non-blank line shallower than `indent`: a tree whose entries sit at `indent` ends there. */
  predicate LeavesTree(line: string, indent: nat) {
    Trim(line) != "" && Indent(line) < indent
  }

  /**
   * Where the scan looked, stated about the lines. It ends at the line of
   * its `break` or at the end of the text. The `.claude` project it is in
   * opens at the last `.claude` line before that end, and no project opens
   * in between. It breaks only on a line that opens a project or leaves the
   * skills tree. Its `skills` line is the last one in that project.
   */
  lemma ClaudeProjectExtent(lines: seq<string>)
    ensures var s := FinalScan(lines);
            var e := ScanEnd(s, |lines|);
            e <= |lines|
            && (s.inClaude ==> s.claudeLine < e && IsClaudeStart(lines[s.claudeLine])
                               && NoProjectStartBetween(lines, s.claudeLine, e))
            && (e < |lines| ==> s.inClaude && (IsProjectStart(lines[e]) || (s.inTree && LeavesTree(lines[e], s.treeIndent))))
            && (s.inSkills ==> s.inClaude && s.claudeLine < s.skillsLine < e && Trim(lines[s.skillsLine]) == SkillsModuleLine
                               && forall k :: s.skillsLine < k < e ==> Trim(lines[k]) != SkillsModuleLine)
  {
    var vs := Views(lines);
    var s := FinalScan(lines);
    ScanExtent(vs, |lines|);
    ScanModules(vs, |lines|);
    ScanFlags(vs, |lines|);
    ScanFactsHold(vs, |lines|);
    var e := ScanEnd(s, |lines|);
    if s.inClaude {
      assert vs[s.claudeLine] == View(lines[s.claudeLine]);
      forall k | s.claudeLine < k < e ensures !IsProjectStart(lines[k]) {
        assert vs[k] == View(lines[k]);
      }
    }
    if s.stopped {
      assert vs[e] == View(lines[e]);
    }
    if s.inSkills {
      assert vs[s.skillsLine] == View(lines[s.skillsLine]);
      forall k | s.skillsLine < k < e ensures Trim(lines[k]) != SkillsModuleLine {
        assert vs[k] == View(lines[k]);
      }
    }
  }

  /**
   * The flags of the final scan, stated about the lines up to its end: an
   * unset module or tree flag means no `skills` or `tree:` line was there to
   * set it, and a set tree flag points at the last `tree:` line.
   */
  lemma SkillsTreeLines(lines: seq<string>)
    ensures var s := FinalScan(lines);
            var e := ScanEnd(s, |lines|);
            e <= |lines|
            && (s.inClaude && !s.inSkills ==> forall k :: s.claudeLine < k < e ==> Trim(lines[k]) != SkillsModuleLine)
            && (s.inSkills && !s.inTree ==> forall k :: s.skillsLine < k < e ==> Trim(lines[k]) != "tree:")
            && (s.inTree ==> s.skillsLine < s.treeLine < e && Trim(lines[s.treeLine]) == "tree:"
                             && forall k :: s.treeLine < k < e ==> Trim(lines[k]) != "tree:")
  {
    var vs := Views(lines);
    var s := FinalScan(lines);
    var e := ScanEnd(s, |lines|);
    ScanModules(vs, |lines|);
    ScanFactsHold(vs, |lines|);
    if s.inClaude && !s.inSkills {
      forall k | s.claudeLine < k < e ensures Trim(lines[k]) != SkillsModuleLine {
        assert vs[k] == View(lines[k]);
      }
    }
    if s.inSkills && !s.inTree {
      forall k | s.skillsLine < k < e ensures Trim(lines[k]) != "tree:" {
        assert vs[k] == View(lines[k]);
      }
    }
    if s.inTree {
      assert vs[s.treeLine] == View(lines[s.treeLine]);
      forall k | s.treeLine < k < e ensures Trim(lines[k]) != "tree:" {
        assert vs[k] == View(lines[k]);
      }
    }
  }

  /** The lines of the skills tree, up to the scan's end, are blank or at least as deep as its entries. */
  lemma TreeDepthLines(lines: seq<string>)
    ensures var s := FinalScan(lines);
            var e := ScanEnd(s, |lines|);
            e <= |lines|
            && (s.inTree ==> forall k :: s.treeLine < k < e ==> !LeavesTree(lines[k], s.treeIndent))
  {
    var vs := Views(lines);
    var s := FinalScan(lines);
    var e := ScanEnd(s, |lines|);
    ScanTree(vs, |lines|);
    if s.inTree {
      forall k | s.treeLine < k < e ensures !LeavesTree(lines[k], s.treeIndent) {
        LineViewAt(lines, vs, k);
      }
    }
  }

  /** Up to the scan's end, no entry at the skills tree's indent lies at or after the insert position. */
  lemma TreeEntryLines(lines: seq<string>)
    ensures var s := FinalScan(lines);
            var e := ScanEnd(s, |lines|);
            e <= |lines|
            && (s.inTree ==> forall k :: s.treeLine < k < e && IsEntryAt(lines[k], s.treeIndent) ==>
                               s.insertAt.Some? && k < s.insertAt.value)
  {
    var vs := Views(lines);
    var s := FinalScan(lines);
    var e := ScanEnd(s, |lines|);
    ScanTree(vs, |lines|);
    if s.inTree {
      forall k | s.treeLine < k < e && IsEntryAt(lines[k], s.treeIndent) ensures s.insertAt.Some? && k < s.insertAt.value {
        LineViewAt(lines, vs, k);
      }
    }
  }

  /** An insert position past the skills tree's `tree:` line is right after an entry at the tree's indent. */
  lemma LastEntryLine(lines: seq<string>)
    ensures var s := FinalScan(lines);
            var e := ScanEnd(s, |lines|);
            e <= |lines|
            && (s.inTree && s.insertAt.Some? && s.treeLine < s.insertAt.value - 1 ==>
                  s.insertAt.value - 1 < e && IsEntryAt(lines[s.insertAt.value - 1], s.treeIndent))
  {
    LastEntryOf(lines, Views(lines), |lines|);
  }

  /** LastEntryLine with the views named, so the scan is not unfolded over the lines themselves. */
  lemma LastEntryOf(lines: seq<string>, vs: seq<LineView>, n: nat)
    requires vs == Views(lines) && n == |lines|
    ensures var s := Scan(vs, n);
            var e := ScanEnd(s, n);
            e <= n
            && (s.inTree && s.insertAt.Some? && s.treeLine < s.insertAt.value - 1 ==>
                  s.insertAt.value - 1 < e && IsEntryAt(lines[s.insertAt.value - 1], s.treeIndent))
  {
    var s := Scan(vs, n);
    ScanLastEntry(vs, n);
    if s.inTree && s.insertAt.Some? && s.treeLine < s.insertAt.value - 1 {
      EntryAtIndex(lines, vs, s.insertAt.value - 1, s.treeIndent);
    }
  }

  /** A line whose view is an entry at `indent` is one. */
  lemma EntryAtIndex(lines: seq<string>, vs: seq<LineView>, p: nat, indent: nat)
    requires vs == Views(lines) && p < |lines| && vs[p].from && vs[p].indent == indent
    ensures IsEntryAt(lines[p], indent)
  {
    assert vs[p] == View(lines[p]);
  }

  /** The view of line `k`, field by field. */
  lemma LineViewAt(lines: seq<string>, vs: seq<LineView>, k: nat)
    requires vs == Views(lines) && k < |lines|
    ensures vs[k].blank <==> Trim(lines[k]) == ""
    ensures vs[k].indent == Indent(lines[k])
    ensures vs[k].from <==> StartsWith(Trim(lines[k]), "- from:")
  {
  }

  /**
   * The failures, in the source's order, each exactly when its cause holds:
   * no `.claude` project at indent 0 anywhere; no `skills` line inside the
   * `.claude` project before the scan ends; no `tree:` line after the
   * `skills` line before the scan ends. On success the three lines were
   * found in that order inside the `.claude` project, and the entry is
   * indented two more than the `tree:` line.
   */
  lemma AddSkillErrors(lines: seq<string>, url: string)
    ensures var r := AddedLines(lines, url);
            (r == Err(NoClaudeProject) <==> forall k :: 0 <= k < |lines| ==> !IsClaudeStart(lines[k]))
            && (r.Err? ==> r.message in {NoClaudeProject, NoSkillsModule, NoSkillsTree})
    ensures var s := FinalScan(lines);
            var e := ScanEnd(s, |lines|);
            e <= |lines|
            && (AddedLines(lines, url) == Err(NoSkillsModule) <==>
                  s.inClaude && forall k :: s.claudeLine < k < e ==> Trim(lines[k]) != SkillsModuleLine)
            && (AddedLines(lines, url) == Err(NoSkillsTree) <==>
                  s.inSkills && forall k :: s.skillsLine < k < e ==> Trim(lines[k]) != "tree:")
    ensures var s := FinalScan(lines);
            AddedLines(lines, url).Ok? ==>
              s.claudeLine < s.skillsLine < s.treeLine < ScanEnd(s, |lines|) <= |lines|
              && IsClaudeStart(lines[s.claudeLine])
              && Trim(lines[s.skillsLine]) == SkillsModuleLine
              && Trim(lines[s.treeLine]) == "tree:"
              && NoProjectStartBetween(lines, s.claudeLine, s.treeLine + 1)
              && s.treeIndent == Indent(lines[s.treeLine]) + 2
  {
    var vs := Views(lines);
    ScanClaudeIff(vs, |lines|);
    FinalScanFacts(lines);
    ClaudeProjectExtent(lines);
    SkillsTreeLines(lines);
    forall k | 0 <= k < |lines| ensures OpensClaude(vs[k]) <==> IsClaudeStart(lines[k]) {
      assert vs[k] == View(lines[k]);
    }
  }

  /**
   * On success exactly one line is inserted and every original line keeps
   * its place around it. The skills tree runs from its `tree:` line to the
   * end of the scan: every line in between is blank or at least as deep as
   * its entries, and the scan ends on a line that opens a project or leaves
   * the tree, or at the end of the text. The entry goes after the last
   * `- from:` entry at the tree's indent in that range, or, with none, right
   * after the `tree:` line.
   */
  lemma AddSkillInsertsOneLine(lines: seq<string>, url: string)
    requires AddedLines(lines, url).Ok?
    ensures var s := FinalScan(lines);
            var pos := SkillPosition(s);
            0 < pos <= |lines|
            && AddedLines(lines, url).value == InsertLine(lines, pos, SkillEntry(s.treeIndent, url))
            && (s.insertAt.Some? ==> StartsWith(Trim(lines[pos - 1]), "- from:"))
            && (s.insertAt.None? ==> pos - 1 == s.treeLine && s.claudeLine < s.skillsLine < s.treeLine
                                     && Trim(lines[s.treeLine]) == "tree:")
    ensures var s := FinalScan(lines);
            var e := ScanEnd(s, |lines|);
            s.treeLine < e <= |lines|
            && (forall k :: s.treeLine < k < e ==> Trim(lines[k]) != "tree:" && !LeavesTree(lines[k], s.treeIndent))
            && (e < |lines| ==> IsProjectStart(lines[e]) || LeavesTree(lines[e], s.treeIndent))
    ensures var s := FinalScan(lines);
            var e := ScanEnd(s, |lines|);
            var pos := SkillPosition(s);
            e <= |lines|
            && (forall k :: s.treeLine < k < e && IsEntryAt(lines[k], s.treeIndent) ==> k < pos)
            && (s.treeLine < pos - 1 ==> pos - 1 < e && IsEntryAt(lines[pos - 1], s.treeIndent))
    ensures IsSubsequence(lines, AddedLines(lines, url).value)
    ensures |AddedLines(lines, url).value| == |lines| + 1
  {
    var s := FinalScan(lines);
    FinalScanFacts(lines);
    ClaudeProjectExtent(lines);
    SkillsTreeLines(lines);
    TreeDepthLines(lines);
    TreeEntryLines(lines);
    LastEntryLine(lines);
    InsertKeepsLines(lines, SkillPosition(s), SkillEntry(s.treeIndent, url));
  }

  /** Inserting one line keeps the others, in order. */
  lemma InsertKeepsLines(lines: seq<string>, pos: nat, entry: string)
    requires pos <= |lines|
    ensures IsSubsequence(lines, InsertLine(lines, pos, entry))
    ensures |InsertLine(lines, pos, entry)| == |lines| + 1
  {
    var pre, post := lines[..pos], lines[pos..];
    SubsequenceRefl(pre);
    SubsequenceRefl(post);
    SubsequenceOfSuffix(post, [entry], post);
    SubsequenceConcat(pre, pre, post, [entry] + post);
    assert lines == pre + post;
    AppendAssoc(pre, [entry], post);
  }

  /** The added text ends with a newline when the spec did. */
  lemma AddSkillKeepsFinalNewline(yaml: string, url: string)
    requires AddSkill(yaml, url).Ok? && EndsWithNewline(yaml)
    ensures EndsWithNewline(AddSkill(yaml, url).value)
  {
  }

  /** `n` spaces followed by more text start with one space followed by `n - 1` spaces. */
  lemma SpacesCons(n: nat, rest: string)
    requires n > 0
    ensures Spaces(n) + rest == " " + (Spaces(n - 1) + rest)
  {
    assert Spaces(n) == " " + Spaces(n - 1);
  }

  /** Spaces before a non-whitespace character are the indent. */
  lemma {:induction false} IndentAfterSpaces(n: nat, rest: string)
    requires rest != [] && !IsWhitespace(rest[0])
    ensures Indent(Spaces(n) + rest) == n
    ensures TrimStart(Spaces(n) + rest) == rest
  {
    if n > 0 {
      SpacesCons(n, rest);
      IndentAfterSpaces(n - 1, rest);
      assert (" " + (Spaces(n - 1) + rest))[1..] == Spaces(n - 1) + rest;
    }
  }

  /** Trailing whitespace never reaches back past a non-whitespace character. */
  lemma {:induction false} TrailingWhitespaceBound(p: string, q: string)
    requires p != [] && !IsWhitespace(p[|p| - 1])
    ensures TrailingWhitespace(p + q) <= |q|
    decreases |q|
  {
    if q == [] {
      assert p + q == p;
    } else {
      var s := p + q;
      if IsWhitespace(s[|s| - 1]) {
        assert s[..|s| - 1] == p + q[..|q| - 1];
        TrailingWhitespaceBound(p, q[..|q| - 1]);
      }
    }
  }

  /**
   * The line an added skill is listed by is recognised as an entry of its
   * tree by the scan: a `- from:` line at exactly the tree's indent. A
   * further addition to the same tree therefore goes after it.
   */
  lemma SkillEntryIsEntry(indent: nat, url: string)
    ensures Indent(SkillEntry(indent, url)) == indent
    ensures StartsWith(Trim(SkillEntry(indent, url)), "- from:")
  {
    var rest := "- from: " + url;
    assert SkillEntry(indent, url) == Spaces(indent) + rest;
    IndentAfterSpaces(indent, rest);
    assert rest == "- from:" + (" " + url);
    TrailingWhitespaceBound("- from:", " " + url);
    var t := Trim(SkillEntry(indent, url));
    assert t == rest[..|rest| - TrailingWhitespace(rest)];
    assert t[..7] == rest[..7];
  }

  /** Before the first `.claude` line the scan has found nothing. */
  lemma {:induction false} ScanBeforeClaude(vs: seq<LineView>, n: nat)
    requires n <= |vs| && forall k :: 0 <= k < n ==> !OpensClaude(vs[k])
    ensures var s := Scan(vs, n); !s.inClaude && !s.stopped && !s.inSkills && !s.inTree
  {
    if n > 0 {
      ScanBeforeClaude(vs, n - 1);
    }
  }

  /** Indented lines that are neither the `skills` line nor (before the tree) a `tree:` line change no flag. */
  lemma {:induction false} ScanThroughIndented(vs: seq<LineView>, lo: nat, hi: nat)
    requires lo <= hi <= |vs|
    requires var s := Scan(vs, lo); s.inClaude && !s.stopped && !s.inTree
    requires forall k :: lo <= k < hi ==> vs[k].indent > 0 && !vs[k].skills && (Scan(vs, lo).inSkills ==> !vs[k].tree)
    ensures var s := Scan(vs, hi);
            s.inClaude && !s.stopped && !s.inTree && s.inSkills == Scan(vs, lo).inSkills
    decreases hi - lo
  {
    if lo < hi {
      ScanThroughIndented(vs, lo, hi - 1);
    }
  }

  /** Once inside the skills tree, lines that open no `.claude` project and no `skills` module keep all three flags. */
  lemma {:induction false} ScanKeepsTree(vs: seq<LineView>, lo: nat, hi: nat)
    requires lo <= hi <= |vs|
    requires var s := Scan(vs, lo); s.inClaude && s.inSkills && s.inTree
    requires forall k :: lo <= k < hi ==> !OpensClaude(vs[k]) && !vs[k].skills
    ensures var s := Scan(vs, hi); s.inClaude && s.inSkills && s.inTree
    decreases hi - lo
  {
    if lo < hi {
      ScanKeepsTree(vs, lo, hi - 1);
    }
  }

  /**
   * The converse of the failures: a spec with one `.claude` project at
   * indent 0, one `skills` line after it and a `tree:` line after that,
   * where every line between them is indented, accepts the skill.
   */
  lemma AddSkillSucceeds(lines: seq<string>, url: string, c: nat, m: nat, t: nat)
    requires c < m < t < |lines|
    requires IsClaudeStart(lines[c]) && Trim(lines[m]) == SkillsModuleLine && Trim(lines[t]) == "tree:"
    requires forall k :: 0 <= k < |lines| && k != c ==> !IsClaudeStart(lines[k])
    requires forall k :: 0 <= k < |lines| && k != m ==> Trim(lines[k]) != SkillsModuleLine
    requires forall k :: c < k < t ==> Indent(lines[k]) > 0
    requires forall k :: m < k < t ==> Trim(lines[k]) != "tree:"
    ensures AddedLines(lines, url).Ok?
  {
    LayoutViews(lines, c, m, t);
    ScanSucceeds(Views(lines), c, m, t);
  }

  /** The scan over the layout of `AddSkillSucceeds` ends inside the skills tree. */
  lemma ScanSucceeds(vs: seq<LineView>, c: nat, m: nat, t: nat)
    requires c < m < t < |vs|
    requires forall k :: 0 <= k < |vs| ==>
               (OpensClaude(vs[k]) <==> k == c) && (vs[k].skills <==> k == m)
               && (c < k < t ==> vs[k].indent > 0)
               && (m < k < t ==> !vs[k].tree)
               && (k == t ==> vs[k].tree && !vs[k].name)
    ensures var s := Scan(vs, |vs|); s.inClaude && s.inSkills && s.inTree
  {
    ScanBeforeClaude(vs, c);
    var sc := Scan(vs, c + 1);
    assert sc.inClaude && !sc.stopped && !sc.inSkills && !sc.inTree;
    ScanThroughIndented(vs, c + 1, m);
    var sm := Scan(vs, m + 1);
    assert sm.inClaude && !sm.stopped && sm.inSkills && !sm.inTree;
    ScanThroughIndented(vs, m + 1, t);
    var st := Scan(vs, t + 1);
    assert st.inClaude && st.inSkills && st.inTree;
    ScanKeepsTree(vs, t + 1, |vs|);
  }

  /** The layout of `AddSkillSucceeds`, as the scan sees it. */
  lemma LayoutViews(lines: seq<string>, c: nat, m: nat, t: nat)
    requires c < m < t < |lines|
    requires IsClaudeStart(lines[c]) && Trim(lines[m]) == SkillsModuleLine && Trim(lines[t]) == "tree:"
    requires forall k :: 0 <= k < |lines| && k != c ==> !IsClaudeStart(lines[k])
    requires forall k :: 0 <= k < |lines| && k != m ==> Trim(lines[k]) != SkillsModuleLine
    requires forall k :: c < k < t ==> Indent(lines[k]) > 0
    requires forall k :: m < k < t ==> Trim(lines[k]) != "tree:"
    ensures var vs := Views(lines);
            forall k :: 0 <= k < |lines| ==>
              (OpensClaude(vs[k]) <==> k == c) && (vs[k].skills <==> k == m)
              && (c < k < t ==> vs[k].indent > 0)
              && (m < k < t ==> !vs[k].tree)
              && (k == t ==> vs[k].tree && !vs[k].name)
  {
    var vs := Views(lines);
    forall k | 0 <= k < |lines|
      ensures (OpensClaude(vs[k]) <==> k == c) && (vs[k].skills <==> k == m)
      ensures c < k < t ==> vs[k].indent > 0
      ensures m < k < t ==> !vs[k].tree
      ensures k == t ==> vs[k].tree && !vs[k].name
    {
      assert vs[k] == View(lines[k]);
      if k == t {
        assert "tree:"[0] != "- name:"[0];
      }
    }
  }

  /** An indented line without whitespace at its ends trims to its text. */
  lemma TrimIndented(n: nat, rest: string)
    requires rest != [] && !IsWhitespace(rest[0]) && !IsWhitespace(rest[|rest| - 1])
    ensures Indent(Spaces(n) + rest) == n && Trim(Spaces(n) + rest) == rest
  {
    IndentAfterSpaces(n, rest);
  }

  /** The view of an indented line without whitespace at its ends is that of its text. */
  lemma ViewIndented(n: nat, rest: string)
    requires rest != [] && !IsWhitespace(rest[0]) && !IsWhitespace(rest[|rest| - 1])
    ensures View(Spaces(n) + rest)
            == LineView(rest == ClaudeProjectLine, StartsWith(rest, "- name:"), rest == SkillsModuleLine,
                        rest == "tree:", StartsWith(rest, "- from:"), false, n)
  {
    TrimIndented(n, rest);
  }

  /** The view of an added skill's line: a `- from:` entry at its indent, and nothing else. */
  lemma EntryView(indent: nat, url: string)
    ensures View(SkillEntry(indent, url)) == LineView(false, false, false, false, true, false, indent)
  {
    SkillEntryIsEntry(indent, url);
    var t := Trim(SkillEntry(indent, url));
    assert t[..7] == "- from:";
    assert t[2] == 'f';
    assert ClaudeProjectLine[2] == 'n' && SkillsModuleLine[2] == 'n' && "- name:"[2] == 'n';
  }

  /** Views built line by line. */
  lemma ViewsAre(lines: seq<string>, vs: seq<LineView>)
    requires |lines| == |vs| && forall k :: 0 <= k < |lines| ==> View(lines[k]) == vs[k]
    ensures Views(lines) == vs
  {
  }

  /** How the scan sees the `.claude` project's own line. */
  lemma ClaudeLineView()
    ensures View(ClaudeProjectLine) == LineView(true, true, false, false, false, false, 0)
  {
    ViewIndented(0, ClaudeProjectLine);
    assert Spaces(0) + ClaudeProjectLine == ClaudeProjectLine;
  }

  /** How the scan sees the `lang` and `tree:` lines of the generated project. */
  lemma ProjectHeadViews()
    ensures View(Spaces(2) + "lang: any") == LineView(false, false, false, false, false, false, 2)
    ensures View(Spaces(2) + "tree:") == LineView(false, false, false, true, false, false, 2)
  {
    ViewIndented(2, "lang: any");
    ViewIndented(2, "tree:");
  }

  /** How the scan sees the `skills` module's line and its `tree:` line in the generated project. */
  lemma SkillsHeadViews()
    ensures View(Spaces(4) + SkillsModuleLine) == LineView(false, true, true, false, false, false, 4)
    ensures View(Spaces(6) + "tree:") == LineView(false, false, false, true, false, false, 6)
  {
    ViewIndented(4, SkillsModuleLine);
    ViewIndented(6, "tree:");
  }

  /** How the scan sees the lines of the project with an empty skills tree. */
  lemma EmptySkillsViews()
    ensures Views(EmptySkillsProjectLines())
            == [LineView(true, true, false, false, false, false, 0),
                LineView(false, false, false, false, false, false, 2),
                LineView(false, false, false, true, false, false, 2),
                LineView(false, true, true, false, false, false, 4),
                LineView(false, false, false, true, false, false, 6)]
  {
    ClaudeLineView();
    ProjectHeadViews();
    SkillsHeadViews();
    ViewsAre(EmptySkillsProjectLines(),
             [LineView(true, true, false, false, false, false, 0),
              LineView(false, false, false, false, false, false, 2),
              LineView(false, false, false, true, false, false, 2),
              LineView(false, true, true, false, false, false, 4),
              LineView(false, false, false, true, false, false, 6)]);
  }

  /** How the scan sees the lines of the generated project. */
  lemma GeneratedViews(url: string)
    ensures Views(ClaudeProjectLines(url))
            == [LineView(true, true, false, false, false, false, 0),
                LineView(false, false, false, false, false, false, 2),
                LineView(false, false, false, true, false, false, 2),
                LineView(false, true, true, false, false, false, 4),
                LineView(false, false, false, true, false, false, 6),
                LineView(false, false, false, false, true, false, 8)]
  {
    ClaudeLineView();
    ProjectHeadViews();
    SkillsHeadViews();
    EntryView(8, url);
    ViewsAre(ClaudeProjectLines(url),
             [LineView(true, true, false, false, false, false, 0),
              LineView(false, false, false, false, false, false, 2),
              LineView(false, false, false, true, false, false, 2),
              LineView(false, true, true, false, false, false, 4),
              LineView(false, false, false, true, false, false, 6),
              LineView(false, false, false, false, true, false, 8)]);
  }

  /** The generated project accepts a further skill, listed right after the first one at the same indent. */
  lemma AddToGeneratedProject(url: string, other: string)
    ensures AddedLines(ClaudeProjectLines(url), other)
            == Ok(ClaudeProjectLines(url) + [SkillEntry(8, other)])
  {
    var lines := ClaudeProjectLines(url);
    var vs := Views(lines);
    GeneratedViews(url);
    assert vs[0] == LineView(true, true, false, false, false, false, 0);
    assert Scan(vs, 0) == Start;
    var s1 := Scan(vs, 1);
    assert s1 == Start.(inClaude := true, claudeLine := 0);
    var s2 := Scan(vs, 2);
    assert s2 == s1;
    var s3 := Scan(vs, 3);
    assert s3 == s1;
    var s4 := Scan(vs, 4);
    assert s4 == s1.(inSkills := true, skillsLine := 3);
    var s5 := Scan(vs, 5);
    assert s5 == s4.(inTree := true, treeIndent := 8, treeLine := 4);
    assert Scan(vs, 6) == s5.(insertAt := Some(6));
    assert lines[..6] + [SkillEntry(8, other)] + lines[6..] == lines + [SkillEntry(8, other)];
  }

  /**
   * The source as written agrees with the corrected placement whenever an
   * entry of the skills tree was seen.
   */
  lemma AsWrittenAgreesWithEntry(lines: seq<string>, url: string)
    requires FinalScan(lines).insertAt.Some?
    ensures AddedLinesAsWritten(lines, url) == AddedLines(lines, url)
  {
  }

  /**
   * The source's fallback as written: with no entry seen, the skill goes
   * right after the first line of the whole text whose trimmed text is
   * `tree:`.
   */
  lemma AsWrittenFallbackPosition(lines: seq<string>, url: string)
    requires AddedLinesAsWritten(lines, url).Ok? && FinalScan(lines).insertAt.None?
    ensures var s := FinalScan(lines);
            var pos := EntryPosition(lines, None);
            0 < pos <= |lines|
            && AddedLinesAsWritten(lines, url).value == InsertLine(lines, pos, SkillEntry(s.treeIndent, url))
            && Trim(lines[pos - 1]) == "tree:"
            && forall k :: 0 <= k < pos - 1 ==> Trim(lines[k]) != "tree:"
  {
    var s := FinalScan(lines);
    FinalScanFacts(lines);
    FirstTreeLineSpec(lines, 0, s.treeLine);
  }

  /**
   * The source's fallback when the skills tree has no entry yet: it inserts
   * after the first `tree:` line of the whole text, so when any `tree:` line
   * stands before the `skills` module (the `.claude` project's own one
   * does), the skill lands before that module instead of inside its tree.
   */
  lemma FallbackMissesSkillsTree(lines: seq<string>, url: string, k: nat)
    requires AddedLinesAsWritten(lines, url).Ok? && FinalScan(lines).insertAt.None?
    requires k < |lines| && k < FinalScan(lines).skillsLine && Trim(lines[k]) == "tree:"
    ensures var s := FinalScan(lines);
            var pos := EntryPosition(lines, None);
            pos <= s.skillsLine
            && AddedLinesAsWritten(lines, url).value == InsertLine(lines, pos, SkillEntry(s.treeIndent, url))
            && AddedLinesAsWritten(lines, url).value != AddedLines(lines, url).value
  {
    var s := FinalScan(lines);
    FinalScanFacts(lines);
    FirstTreeLineSpec(lines, 0, k);
    var pos := EntryPosition(lines, None);
    var entry := SkillEntry(s.treeIndent, url);
    var wrong := InsertLine(lines, pos, entry);
    var right := InsertLine(lines, s.treeLine + 1, entry);
    assert wrong[s.treeLine + 1] == lines[s.treeLine];
    assert right[s.treeLine + 1] == entry;
    SkillEntryIsEntry(s.treeIndent, url);
    assert !StartsWith("tree:", "- from:");
  }

  /**
   * The generated project with its skills tree emptied: the corrected
   * placement gives the generated project back, while the source as written
   * puts the entry under the `.claude` project's own `tree:`, before the
   * `skills` module.
   */
  lemma EmptySkillsTreeExample(url: string)
    ensures AddedLines(EmptySkillsProjectLines(), url) == Ok(ClaudeProjectLines(url))
    ensures AddedLinesAsWritten(EmptySkillsProjectLines(), url)
            == Ok(EmptySkillsProjectLines()[..3] + [SkillEntry(8, url)] + EmptySkillsProjectLines()[3..])
  {
    var lines := EmptySkillsProjectLines();
    var vs := Views(lines);
    EmptySkillsViews();
    assert vs[0] == LineView(true, true, false, false, false, false, 0);
    assert Scan(vs, 0) == Start;
    var s1 := Scan(vs, 1);
    assert s1 == Start.(inClaude := true, claudeLine := 0);
    assert Scan(vs, 3) == s1;
    var s4 := Scan(vs, 4);
    assert s4 == s1.(inSkills := true, skillsLine := 3);
    assert Scan(vs, 5) == s4.(inTree := true, treeIndent := 8, treeLine := 4);
    assert Trim(lines[0]) != "tree:" && Trim(lines[1]) != "tree:";
    assert FirstTreeLine(lines, 0) == Some(2);
    assert lines[..5] + [SkillEntry(8, url)] + lines[5..] == ClaudeProjectLines(url);
  }

  /**
   * The generated `.claude` project with a named module `local` added to
   * its `skills` tree, holding a `tree:` of its own.
   */
  function NestedSkillsLines(skill: string): seq<string> {
    ClaudeProjectLines(skill) + [Spaces(8) + "- name: local", Spaces(10) + "tree:"]
  }

  /** How the scan sees the line of the module `local` and its `tree:` line. */
  lemma LocalModuleViews()
    ensures View(Spaces(8) + "- name: local") == LineView(false, true, false, false, false, false, 8)
    ensures View(Spaces(10) + "tree:") == LineView(false, false, false, true, false, false, 10)
  {
    ViewIndented(8, "- name: local");
    ViewIndented(10, "tree:");
  }

  /** The views of two lists of lines one after the other. */
  lemma ViewsAppend(a: seq<string>, b: seq<string>)
    ensures Views(a + b) == Views(a) + Views(b)
  {
    assert forall k :: 0 <= k < |b| ==> (a + b)[|a| + k] == b[k];
  }

  /** How the scan sees the lines of the project with a nested tree. */
  lemma NestedSkillsViews(skill: string)
    ensures Views(NestedSkillsLines(skill)) == NestedViews()
  {
    var tail := [Spaces(8) + "- name: local", Spaces(10) + "tree:"];
    GeneratedViews(skill);
    LocalModuleViews();
    ViewsAppend(ClaudeProjectLines(skill), tail);
    ViewsAre(tail, [LineView(false, true, false, false, false, false, 8), LineView(false, false, false, true, false, false, 10)]);
  }

  /**
   * The scan as written follows a nested `tree:`: the `tree:` line of a
   * named module inside `skills` becomes the scan's tree line and sets a
   * deeper indent, while the position found after the last skills entry is
   * kept. The new entry is put right after that entry, but at the nested
   * tree's indent of 12 rather than the skills tree's 8.
   */
  lemma NestedSkillsTreeExample(skill: string, url: string)
    ensures var s := FinalScan(NestedSkillsLines(skill));
            s.treeLine == 7 && s.treeIndent == 12 && SkillPosition(s) == 6 && SkillPosition(s) - 1 < s.treeLine
    ensures AddedLines(NestedSkillsLines(skill), url)
            == Ok(NestedSkillsLines(skill)[..6] + [SkillEntry(12, url)] + NestedSkillsLines(skill)[6..])
  {
    NestedSkillsScan(skill);
  }

  /** The views of the project with a nested tree. */
  function NestedViews(): seq<LineView> {
    [LineView(true, true, false, false, false, false, 0),
     LineView(false, false, false, false, false, false, 2),
     LineView(false, false, false, true, false, false, 2),
     LineView(false, true, true, false, false, false, 4),
     LineView(false, false, false, true, false, false, 6),
     LineView(false, false, false, false, true, false, 8),
     LineView(false, true, false, false, false, false, 8),
     LineView(false, false, false, true, false, false, 10)]
  }

  /** The scan over the project with a nested tree. */
  lemma NestedSkillsScan(skill: string)
    ensures FinalScan(NestedSkillsLines(skill))
            == SkillScan(true, true, true, 12, Some(6), false, 0, 3, 7, 0)
  {
    NestedSkillsViews(skill);
    NestedViewsScan(Views(NestedSkillsLines(skill)));
  }

  /** The scan over the views of the project with a nested tree, line by line. */
  lemma NestedViewsScan(vs: seq<LineView>)
    requires vs == NestedViews()
    ensures Scan(vs, 8) == SkillScan(true, true, true, 12, Some(6), false, 0, 3, 7, 0)
  {
    assert Scan(vs, 0) == Start;
    var s1 := Scan(vs, 1);
    assert s1 == Start.(inClaude := true, claudeLine := 0);
    assert Scan(vs, 3) == s1;
    var s4 := Scan(vs, 4);
    assert s4 == s1.(inSkills := true, skillsLine := 3);
    var s5 := Scan(vs, 5);
    assert s5 == s4.(inTree := true, treeIndent := 8, treeLine := 4);
    var s6 := Scan(vs, 6);
    assert s6 == s5.(insertAt := Some(6));
    assert Scan(vs, 7) == s6;
    assert Scan(vs, 8) == s6.(treeIndent := 12, treeLine := 7);
  }
}
