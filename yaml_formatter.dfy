/**
 * The spacing `moli` puts between projects when it writes a spec: three
 * empty lines before every project line but the first, each line ended
 * by a newline.
 */
module YamlFormatter {
  import opened Text

  /** A project starts at a line beginning, at column 0, with `- name:`. */
  predicate IsProjectLine(line: string) {
    StartsWith(line, "- name:")
  }

  /** Whether some line starts a project. */
  predicate HasProject(lines: seq<string>) {
    lines != [] && (HasProject(lines[..|lines| - 1]) || IsProjectLine(lines[|lines| - 1]))
  }

  /** The number of lines that start a project. */
  function ProjectCount(lines: seq<string>): nat {
    if lines == [] then 0
    else ProjectCount(lines[..|lines| - 1]) + (if IsProjectLine(lines[|lines| - 1]) then 1 else 0)
  }

  /** The lines `line` becomes after the lines `before` it: itself, after three empty lines when it starts a further project. */
  function Block(before: seq<string>, line: string): seq<string> {
    (if IsProjectLine(line) && HasProject(before) then ["", "", ""] else []) + [line]
  }

  /** The output lines of `add_project_spacing` for the input lines. */
  function SpacedLines(lines: seq<string>): seq<string> {
    if lines == [] then []
    else SpacedLines(lines[..|lines| - 1]) + Block(lines[..|lines| - 1], lines[|lines| - 1])
  }

  /** What `add_project_spacing` returns: the spaced lines, each followed by a newline. */
  function ProjectSpacing(yaml: string): string {
    Terminated(SpacedLines(Lines(yaml)))
  }

  lemma SpacedLinesSnoc(lines: seq<string>, i: nat)
    requires i < |lines|
    ensures SpacedLines(lines[..i + 1]) == SpacedLines(lines[..i]) + Block(lines[..i], lines[i])
    ensures HasProject(lines[..i + 1]) <==> HasProject(lines[..i]) || IsProjectLine(lines[i])
  {
    assert lines[..i + 1][..i] == lines[..i];
  }

  /** Terminated lines grow by one line at a time. */
  lemma TerminatedAppend(a: seq<string>, b: seq<string>)
    ensures Terminated(a + b) == Terminated(a) + Terminated(b)
    decreases |b|
  {
    if b == [] {
      assert a + b == a;
    } else {
      var init, x := b[..|b| - 1], b[|b| - 1];
      assert a + b == (a + init) + [x];
      assert (a + b)[..|a + b| - 1] == a + init;
      assert Terminated(a + b) == Terminated(a + init) + x + "\n";
      assert Terminated(b) == Terminated(init) + x + "\n";
      TerminatedAppend(a, init);
    }
  }

  /**
   * `add_project_spacing`: the loop over the lines with its
   * `is_first_project` flag, appending to the result.
   */
  method AddProjectSpacing(yaml: string) returns (result: string)
    ensures result == ProjectSpacing(yaml)
  {
    var lines := Lines(yaml);
    result := "";
    var isFirstProject := true;
    var i := 0;
    while i < |lines|
      invariant i <= |lines|
      invariant result == Terminated(SpacedLines(lines[..i]))
      invariant isFirstProject == !HasProject(lines[..i])
    {
      result, isFirstProject := SpaceLine(result, lines[i], isFirstProject, lines[..i]);
      SpacedLinesSnoc(lines, i);
      TerminatedAppend(SpacedLines(lines[..i]), Block(lines[..i], lines[i]));
      i := i + 1;
    }
    assert lines[..|lines|] == lines;
  }

  /** One turn of the loop of `add_project_spacing`, after the lines `before`. */
  method SpaceLine(result0: string, line: string, isFirstProject0: bool, ghost before: seq<string>)
    returns (result: string, isFirstProject: bool)
    requires isFirstProject0 == !HasProject(before)
    ensures result == result0 + Terminated(Block(before, line))
    ensures isFirstProject == (isFirstProject0 && !IsProjectLine(line))
  {
    result, isFirstProject := result0, isFirstProject0;
    if StartsWith(line, "- name:") {
      if !isFirstProject {
        result := result + "\n";
        result := result + "\n";
        result := result + "\n";
        ThreeEmptyLines();
      }
      isFirstProject := false;
    }
    result := result + line;
    result := result + "\n";
    BlockTerminated(before, line);
  }

  /** The text of one block. */
  lemma BlockTerminated(before: seq<string>, line: string)
    ensures Terminated(Block(before, line))
            == (if IsProjectLine(line) && HasProject(before) then Terminated(["", "", ""]) else "") + line + "\n"
  {
    var b := Block(before, line);
    assert b[..|b| - 1] == (if IsProjectLine(line) && HasProject(before) then ["", "", ""] else []);
  }

  lemma ThreeEmptyLines()
    ensures Terminated(["", "", ""]) == "\n\n\n"
  {
    assert ["", "", ""][..2] == ["", ""];
    assert ["", ""][..1] == [""];
    assert [""][..0] == [];
  }

  /** A project line is there exactly when the count is positive. */
  lemma {:induction false} HasProjectCount(lines: seq<string>)
    ensures HasProject(lines) <==> ProjectCount(lines) > 0
    decreases |lines|
  {
    if lines != [] {
      HasProjectCount(lines[..|lines| - 1]);
    }
  }

  /** Every input line is in the output, in order. */
  lemma {:induction false} SpacingKeepsLines(lines: seq<string>)
    ensures IsSubsequence(lines, SpacedLines(lines))
    decreases |lines|
  {
    if lines != [] {
      var init, x := lines[..|lines| - 1], lines[|lines| - 1];
      SpacingKeepsLines(init);
      var blanks := Block(init, x)[..|Block(init, x)| - 1];
      assert Block(init, x) == blanks + [x];
      SubsequenceRefl([x]);
      SubsequenceOfSuffix([x], blanks, [x]);
      SubsequenceConcat(init, SpacedLines(init), [x], Block(init, x));
      assert lines == init + [x];
    }
  }

  /** Three lines are added for every project after the first, and no others. */
  lemma {:induction false} SpacingLength(lines: seq<string>)
    ensures var c := ProjectCount(lines);
            |SpacedLines(lines)| == |lines| + (if c == 0 then 0 else 3 * (c - 1))
    decreases |lines|
  {
    if lines != [] {
      var init := lines[..|lines| - 1];
      SpacingLength(init);
      HasProjectCount(init);
    }
  }

  /** The output for the first `n` lines is the start of the output. */
  lemma {:induction false} SpacedPrefix(lines: seq<string>, n: nat)
    requires n <= |lines|
    ensures var pre := SpacedLines(lines[..n]);
            |pre| <= |SpacedLines(lines)| && SpacedLines(lines)[..|pre|] == pre
    decreases |lines| - n
  {
    if n == |lines| {
      assert lines[..n] == lines;
    } else {
      SpacedPrefix(lines, n + 1);
      SpacedLinesSnoc(lines, n);
    }
  }

  /**
   * Where each input line lands: right after the output of the lines
   * before it, preceded there by exactly three empty lines when it starts
   * a project and an earlier line did too.
   */
  lemma SpacingPlacesLine(lines: seq<string>, k: nat)
    requires k < |lines|
    ensures var p := |SpacedLines(lines[..k])|;
            var out := SpacedLines(lines);
            if IsProjectLine(lines[k]) && HasProject(lines[..k])
            then p + 4 <= |out| && out[p..p + 4] == ["", "", "", lines[k]]
            else p < |out| && out[p] == lines[k]
  {
    SpacedPrefix(lines, k + 1);
    SpacedLinesSnoc(lines, k);
    var pre := SpacedLines(lines[..k + 1]);
    var out := SpacedLines(lines);
    var p := |SpacedLines(lines[..k])|;
    assert out[..|pre|] == pre;
    assert out[p..|pre|] == pre[p..];
  }

  /** With at most one project nothing is added: the lines are only ended by newlines. */
  lemma {:induction false} SingleProjectUnspaced(lines: seq<string>)
    requires ProjectCount(lines) <= 1
    ensures SpacedLines(lines) == lines
    decreases |lines|
  {
    if lines != [] {
      var init := lines[..|lines| - 1];
      HasProjectCount(init);
      SingleProjectUnspaced(init);
      assert lines == init + [lines[|lines| - 1]];
    }
  }

  /** A spec of at most one project that already ends with a newline (or is empty) comes back unchanged. */
  lemma SingleProjectUnchanged(yaml: string)
    requires ProjectCount(Lines(yaml)) <= 1
    requires yaml == "" || EndsWithNewline(yaml)
    ensures ProjectSpacing(yaml) == yaml
  {
    SingleProjectUnspaced(Lines(yaml));
    TerminatedLinesOfText(yaml);
  }
}
