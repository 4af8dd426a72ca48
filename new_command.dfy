/**
 * The spec generation of `moli new`: the checked language, the project
 * text written for a first or a further project, the sequential `app_N`
 * name, and the rewrite that turns the old root project into the `.`
 * project when a second one is added.
 */
module NewCommand {
  import opened Results
  import opened Text

  /** The languages `--lang` accepts, in the order the error message lists them. */
  const SupportedLanguages: seq<string> := ["rust", "go", "python", "typescript", "javascript", "any"]

  /** The `--lang` check of `action`: a supported language is taken as given, any other is refused. */
  function CheckLanguage(lang: string): (r: Result<string>)
    ensures r.Ok? <==> lang in SupportedLanguages
    ensures r.Ok? ==> r.value == lang
    ensures r.Err? ==> StartsWith(r.message, "Unsupported language: " + lang)
  {
    if lang in SupportedLanguages then Ok(lang)
    else
      var msg := "Unsupported language: " + lang + ". Supported languages: " + Join(SupportedLanguages, ", ");
      assert msg[..|"Unsupported language: " + lang|] == "Unsupported language: " + lang;
      Err(msg)
  }

  /**
   * `get_main_file_name`: the file a new project starts with. Only a Rust
   * project depends on being the root (`main` for the root, `lib` for
   * the others); TypeScript and JavaScript start with `index`, a project
   * of any language with `README.md`, every other language with `main`.
   */
  function MainFileName(language: string, isRoot: bool): (name: string)
    ensures name == "lib" <==> language == "rust" && !isRoot
    ensures name == "index" <==> language == "typescript" || language == "javascript"
    ensures name == "README.md" <==> language == "any"
    ensures name == "main" <==> !(language == "rust" && !isRoot) && language !in {"typescript", "javascript", "any"}
  {
    if language == "rust" then (if isRoot then "main" else "lib")
    else if language == "go" then "main"
    else if language == "python" then "main"
    else if language == "typescript" then "index"
    else if language == "javascript" then "index"
    else if language == "any" then "README.md"
    else "main"
  }

  /** Go and `any` projects list their main file at the top level; the others under a `src` module. */
  predicate TopLevelFile(language: string) {
    language == "go" || language == "any"
  }

  const RootLine := "  root: true"

  /** The lines of the project `generate_new_project_yaml` writes, in order. */
  function ProjectLines(name: string, language: string, isRoot: bool): seq<string> {
    var main := MainFileName(language, isRoot);
    var body :=
      if language == "rust" then ["  tree:", "    - name: src", "      file:", "        - name: " + main]
      else if language == "go" then ["  file:", "    - name: " + main]
      else if language in {"python", "typescript", "javascript"} then
        ["  tree:", "    - name: src", "      file:", "        - name: " + main]
      else if language == "any" then ["  file:", "    - name: " + main]
      else ["  tree:", "    - name: src", "      file:", "        - name: " + main];
    ["- name: " + name] + (if isRoot then [RootLine] else []) + ["  lang: " + language] + body
  }

  /** `generate_new_project_yaml`: the project's lines, each ended by a newline. It never fails. */
  function NewProjectYaml(name: string, language: string, isRoot: bool): (yaml: string)
    ensures EndsWithNewline(yaml)
  {
    var ls := ProjectLines(name, language, isRoot);
    var init := ls[..|ls| - 1];
    assert ls == init + [ls[|ls| - 1]];
    var yaml := Terminated(ls);
    assert yaml == Terminated(init) + ls[|ls| - 1] + "\n";
    yaml
  }

  /** `generate_new_moli_yml`: the first project of a new spec is the root. */
  function NewMoliYaml(name: string, language: string): string {
    NewProjectYaml(name, language, true)
  }

  /**
   * The shape of a generated project: it is named first; the `root: true`
   * line is there exactly for the root; the language follows; Go and
   * `any` projects end with a top-level `file:` listing the main file,
   * every other language with a `src` module listing it.
   */
  lemma ProjectLinesShape(name: string, language: string, isRoot: bool)
    ensures var ls := ProjectLines(name, language, isRoot);
            var r := if isRoot then 1 else 0;
            && ls[0] == "- name: " + name
            && (RootLine in ls <==> isRoot)
            && ls[r + 1] == "  lang: " + language
            && (TopLevelFile(language) ==>
                  ls[r + 2..] == ["  file:", "    - name: " + MainFileName(language, isRoot)])
            && (!TopLevelFile(language) ==>
                  ls[r + 2..] == ["  tree:", "    - name: src", "      file:",
                                  "        - name: " + MainFileName(language, isRoot)])
  {
    var ls := ProjectLines(name, language, isRoot);
    var r := if isRoot then 1 else 0;
    var body := ls[r + 2..];
    assert ls == ls[..r + 2] + body;
    assert forall k :: 0 <= k < |body| ==> |body[k]| >= 3 && body[k][2] != 'r';
    assert ("  lang: " + language)[2] == 'l';
    assert ("- name: " + name)[0] == '-';
    forall k | 0 <= k < |ls| && k != r
      ensures ls[k] != RootLine
    {
      if k >= r + 2 {
        assert ls[k] == body[k - r - 2];
      }
    }
  }

  /** Reading a generated project back gives its lines, when the name and the language hold no newline. */
  lemma NewProjectYamlLines(name: string, language: string, isRoot: bool)
    requires '\n' !in name && '\n' !in language
    ensures Lines(NewProjectYaml(name, language, isRoot)) == ProjectLines(name, language, isRoot)
  {
    var ls := ProjectLines(name, language, isRoot);
    NoNewlineInProject(name, language, isRoot);
    TerminatedLines(ls);
  }

  /** No line of a generated project holds a newline. */
  lemma NoNewlineInProject(name: string, language: string, isRoot: bool)
    requires '\n' !in name && '\n' !in language
    ensures NoneContains(ProjectLines(name, language, isRoot), '\n')
  {
    var main := MainFileName(language, isRoot);
    assert '\n' !in main;
    assert '\n' !in "- name: " + name;
    assert '\n' !in "  lang: " + language;
    assert '\n' !in "    - name: " + main;
    assert '\n' !in "        - name: " + main;
  }

  const I32Max := 0x7fff_ffff
  const I32Min := -0x8000_0000

  predicate AllDigits(s: string) {
    |s| > 0 && forall k :: 0 <= k < |s| ==> IsDigit(s[k])
  }

  /**
   * `str::parse::<i32>`: an optional sign then decimal digits, within the
   * 32-bit range; anything else does not parse.
   */
  function ParseI32(s: string): (r: Option<int>)
    ensures r.Some? ==> I32Min <= r.value <= I32Max
  {
    if |s| > 0 && (s[0] == '+' || s[0] == '-') then
      var rest := s[1..];
      if !AllDigits(rest) then None
      else
        var v: int := if s[0] == '-' then 0 - DigitsValue(rest) else DigitsValue(rest);
        if I32Min <= v <= I32Max then Some(v) else None
    else if AllDigits(s) && DigitsValue(s) <= I32Max then Some(DigitsValue(s))
    else None
  }

  /** A number printed in decimal parses back, when it fits. */
  lemma ParseNatToString(n: nat)
    requires n <= I32Max
    ensures ParseI32(NatToString(n)) == Some(n)
  {
    var s := NatToString(n);
    assert IsDigit(s[0]);
  }

  const AppPrefix := "- name: app_"

  /** The number of a line `- name: app_<i32>`, as the scan of `generate_sequential_project_name` reads it. */
  function AppNumber(line: string): Option<int> {
    if StartsWith(line, AppPrefix) then ParseI32(line[|AppPrefix|..]) else None
  }

  /** One turn of the counter loop: a number at or above the counter moves it just past that number. */
  function Bump(counter: int, num: Option<int>): int {
    if num.Some? && num.value >= counter then num.value + 1 else counter
  }

  /** The counter after the loop has seen the lines. */
  function NextCounter(lines: seq<string>): int {
    if lines == [] then 1 else Bump(NextCounter(lines[..|lines| - 1]), AppNumber(lines[|lines| - 1]))
  }

  lemma NextCounterSnoc(lines: seq<string>, i: nat)
    requires i < |lines|
    ensures NextCounter(lines[..i + 1]) == Bump(NextCounter(lines[..i]), AppNumber(lines[i]))
  {
    assert lines[..i + 1][..i] == lines[..i];
  }

  /**
   * The counter is one more than the highest `app_N` number of the lines,
   * and never below 1: it is above every number, and it is 1 or one more
   * than a number that occurs.
   */
  lemma {:induction false} NextCounterIsMax(lines: seq<string>)
    ensures var c := NextCounter(lines);
            && c >= 1
            && (forall k :: 0 <= k < |lines| && AppNumber(lines[k]).Some? ==> AppNumber(lines[k]).value < c)
            && (c == 1 || exists k :: 0 <= k < |lines| && AppNumber(lines[k]) == Some(c - 1))
  {
    if lines != [] {
      var init := lines[..|lines| - 1];
      NextCounterIsMax(init);
      var c0 := NextCounter(init);
      var c := NextCounter(lines);
      forall k | 0 <= k < |lines| && AppNumber(lines[k]).Some?
        ensures AppNumber(lines[k]).value < c
      {
        if k < |init| {
          assert lines[k] == init[k];
        }
      }
      if c != 1 && c == c0 {
        var j :| 0 <= j < |init| && AppNumber(init[j]) == Some(c - 1);
        assert lines[j] == init[j];
      }
    }
  }

  /**
   * The counter loop of `generate_sequential_project_name` over the lines
   * of the existing spec; with no spec the counter stays at 1.
   */
  method SequentialCounter(existing: Option<string>) returns (counter: int)
    ensures counter == (if existing.Some? then NextCounter(Lines(existing.value)) else 1)
  {
    counter := 1;
    if existing.Some? {
      var lines := Lines(existing.value);
      var i := 0;
      while i < |lines|
        invariant i <= |lines|
        invariant counter == NextCounter(lines[..i])
      {
        var num := AppNumber(lines[i]);
        if num.Some? && num.value >= counter {
          counter := num.value + 1;
        }
        NextCounterSnoc(lines, i);
        i := i + 1;
      }
      assert lines[..|lines|] == lines;
    }
  }

  /** `app_<counter>`, the name `generate_sequential_project_name` returns. */
  function AppName(counter: int): string
    requires counter >= 1
  {
    "app_" + NatToString(counter)
  }

  /** The sequential name for an existing spec, or `app_1` without one. */
  function SequentialName(existing: Option<string>): string {
    var c := if existing.Some? then NextCounter(Lines(existing.value)) else 1;
    NextCounterIsMax(if existing.Some? then Lines(existing.value) else []);
    AppName(c)
  }

  /** `generate_sequential_project_name`. */
  method GenerateSequentialProjectName(existing: Option<string>) returns (name: string)
    ensures name == SequentialName(existing)
  {
    var counter := SequentialCounter(existing);
    NextCounterIsMax(if existing.Some? then Lines(existing.value) else []);
    name := "app_" + NatToString(counter);
  }

  /**
   * The sequential name is new: no line of the spec is `- name: ` followed
   * by it, as long as the counter stays in the 32-bit range.
   */
  lemma SequentialNameIsFresh(existing: string)
    requires NextCounter(Lines(existing)) <= I32Max
    ensures forall k :: 0 <= k < |Lines(existing)| ==> Lines(existing)[k] != "- name: " + SequentialName(Some(existing))
  {
    var lines := Lines(existing);
    var c := NextCounter(lines);
    NextCounterIsMax(lines);
    ParseNatToString(c);
    forall k | 0 <= k < |lines|
      ensures lines[k] != "- name: " + SequentialName(Some(existing))
    {
      var named := "- name: " + AppName(c);
      assert named == AppPrefix + NatToString(c);
      assert named[..|AppPrefix|] == AppPrefix;
      assert named[|AppPrefix|..] == NatToString(c);
      assert AppNumber(named) == Some(c);
    }
  }

  /**
   * The project name of `action`: `docs` for an `any` project that starts a
   * new spec, otherwise the sequential name.
   */
  function NewProjectName(language: string, existing: Option<string>): (name: string)
    ensures name == "docs" <==> language == "any" && existing.None?
  {
    if language == "any" && existing.None? then "docs"
    else
      var name := SequentialName(existing);
      assert name[0] == 'a';
      name
  }

  const NamePrefix := "- name: "
  const CurrentDirLine := "- name: ."

  /**
   * Whether the pattern `(?m)^- name: ([^\n]+)\n  root: true\n` matches at
   * the start of piece `k` of the text split at newlines: the piece is
   * `- name: ` and at least one more character, and the next piece is the
   * root line, itself ended by a newline (so it is not the last piece).
   * A match can only start at the start of a line, and `[^\n]+` takes
   * the rest of that line, so the split pieces decide it.
   */
  predicate RootMatchAt(parts: seq<string>, k: nat) {
    k + 2 < |parts| && |parts[k]| > |NamePrefix| && StartsWith(parts[k], NamePrefix) && parts[k + 1] == RootLine
  }

  /** The first match at or after piece `from`. */
  function FirstRootMatch(parts: seq<string>, from: nat): (r: Option<nat>)
    ensures r.Some? ==> from <= r.value && RootMatchAt(parts, r.value)
    decreases |parts| - from
  {
    if from + 2 >= |parts| then None
    else if RootMatchAt(parts, from) then Some(from)
    else FirstRootMatch(parts, from + 1)
  }

  lemma {:induction false} FirstRootMatchIsFirst(parts: seq<string>, from: nat)
    ensures var r := FirstRootMatch(parts, from);
            && (r.None? ==> forall k :: from <= k ==> !RootMatchAt(parts, k))
            && (r.Some? ==> forall k :: from <= k < r.value ==> !RootMatchAt(parts, k))
    decreases |parts| - from
  {
    if from + 2 < |parts| && !RootMatchAt(parts, from) {
      FirstRootMatchIsFirst(parts, from + 1);
    }
  }

  /**
   * `replace_first_project_name_with_current_dir`: the first match becomes
   * the single line `- name: .`; without a match the text is unchanged.
   */
  function RewriteFirstRoot(content: string): string {
    var parts := Split(content, '\n');
    match FirstRootMatch(parts, 0)
    case None => content
    case Some(k) => Join(parts[..k] + [CurrentDirLine] + parts[k + 2..], "\n")
  }

  /**
   * At the first match the name line becomes `- name: .` and the root line
   * goes; every other line is kept, in order.
   */
  lemma RewriteAtFirstMatch(content: string, k: nat)
    requires RootMatchAt(Split(content, '\n'), k)
    requires forall j :: 0 <= j < k ==> !RootMatchAt(Split(content, '\n'), j)
    ensures var parts := Split(content, '\n');
            Split(RewriteFirstRoot(content), '\n') == parts[..k] + [CurrentDirLine] + parts[k + 2..]
  {
    var parts := Split(content, '\n');
    FirstRootMatchIsFirst(parts, 0);
    var out := parts[..k] + [CurrentDirLine] + parts[k + 2..];
    NoNewlineAfterReplace(parts, k);
    SplitJoin(out, '\n');
  }

  lemma NoNewlineAfterReplace(parts: seq<string>, k: nat)
    requires k + 2 <= |parts| && NoneContains(parts, '\n')
    ensures NoneContains(parts[..k] + [CurrentDirLine] + parts[k + 2..], '\n')
  {
    var out := parts[..k] + [CurrentDirLine] + parts[k + 2..];
    forall j | 0 <= j < |out| ensures '\n' !in out[j] {
      if j < k {
        assert out[j] == parts[j];
      } else if j > k {
        assert out[j] == parts[j + 1];
      }
    }
  }

  /** The rewrite changes the text exactly when the pattern matches somewhere. */
  lemma RewriteChangesIffMatch(content: string)
    ensures RewriteFirstRoot(content) == content
            <==> forall k :: 0 <= k ==> !RootMatchAt(Split(content, '\n'), k)
  {
    var parts := Split(content, '\n');
    FirstRootMatchIsFirst(parts, 0);
    var r := FirstRootMatch(parts, 0);
    if r.Some? {
      RewriteAtFirstMatch(content, r.value);
      assert |Split(RewriteFirstRoot(content), '\n')| == |parts| - 1;
    }
  }

  /** In a generated root project the pattern matches first at the name line. */
  lemma GeneratedRootMatch(name: string, language: string)
    requires name != [] && '\n' !in name && '\n' !in language
    ensures var ls := ProjectLines(name, language, true);
            Split(NewProjectYaml(name, language, true), '\n') == ls + [""]
            && FirstRootMatch(ls + [""], 0) == Some(0)
  {
    var ls := ProjectLines(name, language, true);
    NoNewlineInProject(name, language, true);
    TerminatedLines(ls);
    var parts := ls + [""];
    assert parts[0] == NamePrefix + name && parts[1] == RootLine;
    assert parts[0][..|NamePrefix|] == NamePrefix;
    assert RootMatchAt(parts, 0);
  }

  /** Apart from the main file, a project is the same whether it is the root or not. */
  lemma ProjectLinesRootAndNot(name: string, language: string)
    requires language != "rust"
    ensures ProjectLines(".", language, false) == [CurrentDirLine] + ProjectLines(name, language, true)[2..]
  {
    var main := MainFileName(language, true);
    assert MainFileName(language, false) == main;
    var ls := ProjectLines(name, language, true);
    var other := ProjectLines(".", language, false);
    assert ls[2..] == other[1..];
    assert other == [other[0]] + other[1..];
    assert other[0] == "- name: " + ".";
    assert "- name: " + "." == CurrentDirLine;
  }

  /** The rewrite at a first match, in terms of the split pieces. */
  lemma RewriteAt(content: string, k: nat)
    requires FirstRootMatch(Split(content, '\n'), 0) == Some(k)
    ensures var parts := Split(content, '\n');
            RewriteFirstRoot(content) == JoinLines(parts[..k] + [CurrentDirLine] + parts[k + 2..])
  {
  }

  /** The rewrite of terminated lines whose first two lines match. */
  lemma RewriteTerminated(ls: seq<string>)
    requires NoneContains(ls, '\n') && FirstRootMatch(ls + [""], 0) == Some(0)
    ensures RewriteFirstRoot(Terminated(ls)) == Terminated([CurrentDirLine] + ls[2..])
  {
    var content := Terminated(ls);
    TerminatedLines(ls);
    var parts := ls + [""];
    RewriteAt(content, 0);
    assert parts[..0] + [CurrentDirLine] + parts[2..] == ([CurrentDirLine] + ls[2..]) + [""];
    TerminatedJoin([CurrentDirLine] + ls[2..]);
  }

  /**
   * Adding a second project to a spec generated by `moli new`: its root
   * project becomes the `.` project without the root line; for every
   * language but Rust, whose main file depends on being the root, that is
   * exactly the project generated as a non-root project named `.`.
   */
  lemma RewriteGeneratedRoot(name: string, language: string)
    requires name != [] && '\n' !in name && '\n' !in language
    ensures var ls := ProjectLines(name, language, true);
            RewriteFirstRoot(NewProjectYaml(name, language, true)) == Terminated([CurrentDirLine] + ls[2..])
    ensures language != "rust" ==> RewriteFirstRoot(NewProjectYaml(name, language, true)) == NewProjectYaml(".", language, false)
  {
    var ls := ProjectLines(name, language, true);
    GeneratedRootMatch(name, language);
    NoNewlineInProject(name, language, true);
    assert NewProjectYaml(name, language, true) == Terminated(ls);
    RewriteTerminated(ls);
    if language != "rust" {
      ProjectLinesRootAndNot(name, language);
    }
  }
}
