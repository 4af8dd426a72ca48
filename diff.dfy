/**
 * The line diff `moli` shows before it rewrites a spec. Only the sequence
 * of kept, removed and added lines is modelled; the colours and the
 * printing are not.
 */
module Diff {
  import opened Results
  import opened Text

  /** One line of the shown diff: unchanged, removed from the old text, or added from the new one. */
  datatype Edit = Keep(line: string) | Remove(line: string) | Add(line: string)

  /** The first `a` with `olds[i + a] == x`: the lookahead of `show_diff`. */
  function Lookahead(olds: seq<string>, i: nat, x: string): (r: Option<nat>)
    requires i <= |olds|
    ensures r.Some? ==> i + r.value < |olds| && olds[i + r.value] == x
    ensures r.Some? ==> forall k :: i <= k < i + r.value ==> olds[k] != x
    ensures r.None? ==> forall k :: i <= k < |olds| ==> olds[k] != x
    decreases |olds| - i
  {
    if i == |olds| then None
    else if olds[i] == x then Some(0)
    else
      match Lookahead(olds, i + 1, x)
      case None => None
      case Some(a) => Some(a + 1)
  }

  /** The removal of each of the lines. */
  function Removes(lines: seq<string>): (r: seq<Edit>)
    ensures |r| == |lines| && forall k :: 0 <= k < |r| ==> r[k] == Remove(lines[k])
  {
    seq(|lines|, k requires 0 <= k < |lines| => Remove(lines[k]))
  }

  /** What one turn of the loop of `show_diff` prints, and where it leaves the two positions. */
  datatype Advance = Advance(edits: seq<Edit>, i: nat, j: nat)

  /**
   * One turn of the loop of `show_diff` at old line `i` and new line `j`.
   * Equal lines are kept. Otherwise, when the new line occurs further on
   * in the old lines, the old lines before it are removed (it is kept on
   * the next turn); when it does not, one old line is removed. Once the
   * new lines run out an old line is removed, and once the old lines run
   * out a new line is added. The lookahead in the unequal case cannot
   * stop at 0, so every turn consumes a line.
   */
  function Turn(olds: seq<string>, news: seq<string>, i: nat, j: nat): (t: Advance)
    requires i <= |olds| && j <= |news| && (i < |olds| || j < |news|)
    ensures i <= t.i <= |olds| && j <= t.j <= |news| && t.i + t.j > i + j
  {
    if i < |olds| && j < |news| then
      if olds[i] == news[j] then Advance([Keep(olds[i])], i + 1, j + 1)
      else
        match Lookahead(olds, i, news[j])
        case Some(a) => Advance(Removes(olds[i..i + a]), i + a, j)
        case None => Advance([Remove(olds[i])], i + 1, j)
    else if i < |olds| then Advance([Remove(olds[i])], i + 1, j)
    else Advance([Add(news[j])], i, j + 1)
  }

  /** The script `show_diff` prints from old line `i` and new line `j` on. */
  function Script(olds: seq<string>, news: seq<string>, i: nat, j: nat): seq<Edit>
    requires i <= |olds| && j <= |news|
    decreases |olds| - i + |news| - j
  {
    if i == |olds| && j == |news| then []
    else
      var t := Turn(olds, news, i, j);
      t.edits + Script(olds, news, t.i, t.j)
  }

  /** The diff of two texts, line by line. */
  function DiffScript(oldText: string, newText: string): seq<Edit> {
    Script(Lines(oldText), Lines(newText), 0, 0)
  }

  /**
   * `show_diff`: the loop over the two line lists, with what it prints
   * collected in order instead of printed.
   */
  method ShowDiff(oldText: string, newText: string) returns (script: seq<Edit>)
    ensures script == DiffScript(oldText, newText)
  {
    var oldLines := Lines(oldText);
    var newLines := Lines(newText);
    var oldIdx: nat, newIdx: nat := 0, 0;
    script := [];
    while oldIdx < |oldLines| || newIdx < |newLines|
      invariant oldIdx <= |oldLines| && newIdx <= |newLines|
      invariant script + Script(oldLines, newLines, oldIdx, newIdx) == DiffScript(oldText, newText)
      decreases |oldLines| - oldIdx + |newLines| - newIdx
    {
      ghost var rest := Script(oldLines, newLines, oldIdx, newIdx);
      var edits;
      edits, oldIdx, newIdx := DiffTurn(oldLines, newLines, oldIdx, newIdx);
      assert rest == edits + Script(oldLines, newLines, oldIdx, newIdx);
      AppendAssoc(script, edits, Script(oldLines, newLines, oldIdx, newIdx));
      script := script + edits;
    }
  }

  /** One turn of the loop of `show_diff`, with its lookahead loop. */
  method DiffTurn(olds: seq<string>, news: seq<string>, i: nat, j: nat) returns (edits: seq<Edit>, oldIdx: nat, newIdx: nat)
    requires i <= |olds| && j <= |news| && (i < |olds| || j < |news|)
    ensures Advance(edits, oldIdx, newIdx) == Turn(olds, news, i, j)
  {
    oldIdx, newIdx := i, j;
    if i < |olds| && j < |news| {
      if olds[i] == news[j] {
        edits := [Keep(olds[i])];
        oldIdx, newIdx := i + 1, j + 1;
      } else {
        var found := false;
        edits := [];
        var ahead := 0;
        while ahead < |olds| - i
          invariant ahead <= |olds| - i
          invariant forall k :: i <= k < i + ahead ==> olds[k] != news[j]
        {
          if j < |news| && olds[i + ahead] == news[j] {
            edits := RemoveLines(olds, i, ahead);
            LookaheadIsFirst(olds, i, news[j], ahead);
            oldIdx := i + ahead;
            found := true;
            break;
          }
          ahead := ahead + 1;
        }
        if !found {
          edits := [Remove(olds[i])];
          oldIdx := i + 1;
          NoLookahead(olds, i, news[j]);
        }
      }
    } else if i < |olds| {
      edits := [Remove(olds[i])];
      oldIdx := i + 1;
    } else {
      edits := [Add(news[j])];
      newIdx := j + 1;
    }
  }

  /** The inner loop that prints the old lines skipped by the lookahead. */
  method RemoveLines(olds: seq<string>, i: nat, ahead: nat) returns (edits: seq<Edit>)
    requires i + ahead <= |olds|
    ensures edits == Removes(olds[i..i + ahead])
  {
    edits := [];
    var k := 0;
    while k < ahead
      invariant k <= ahead
      invariant edits == Removes(olds[i..i + k])
    {
      edits := edits + [Remove(olds[i + k])];
      k := k + 1;
    }
  }

  /** With the new line nowhere further on in the old lines, the lookahead finds nothing. */
  lemma NoLookahead(olds: seq<string>, i: nat, x: string)
    requires i <= |olds| && forall k :: i <= k < |olds| ==> olds[k] != x
    ensures Lookahead(olds, i, x).None?
  {
  }

  /** The old text's lines as the script shows them: the kept and the removed ones. */
  function OldSide(script: seq<Edit>): seq<string> {
    if script == [] then []
    else (if script[0].Add? then [] else [script[0].line]) + OldSide(script[1..])
  }

  /** The new text's lines as the script shows them: the kept and the added ones. */
  function NewSide(script: seq<Edit>): seq<string> {
    if script == [] then []
    else (if script[0].Remove? then [] else [script[0].line]) + NewSide(script[1..])
  }

  lemma SidesAppend(a: seq<Edit>, b: seq<Edit>)
    ensures OldSide(a + b) == OldSide(a) + OldSide(b)
    ensures NewSide(a + b) == NewSide(a) + NewSide(b)
  {
    OldSideAppend(a, b);
    NewSideAppend(a, b);
  }

  lemma {:induction false} OldSideAppend(a: seq<Edit>, b: seq<Edit>)
    ensures OldSide(a + b) == OldSide(a) + OldSide(b)
    decreases |a|
  {
    if a == [] {
      assert a + b == b;
    } else {
      var head := if a[0].Add? then [] else [a[0].line];
      assert (a + b)[0] == a[0] && (a + b)[1..] == a[1..] + b;
      assert OldSide(a + b) == head + OldSide(a[1..] + b);
      OldSideAppend(a[1..], b);
      assert OldSide(a) == head + OldSide(a[1..]);
    }
  }

  lemma {:induction false} NewSideAppend(a: seq<Edit>, b: seq<Edit>)
    ensures NewSide(a + b) == NewSide(a) + NewSide(b)
    decreases |a|
  {
    if a == [] {
      assert a + b == b;
    } else {
      var head := if a[0].Remove? then [] else [a[0].line];
      assert (a + b)[0] == a[0] && (a + b)[1..] == a[1..] + b;
      assert NewSide(a + b) == head + NewSide(a[1..] + b);
      NewSideAppend(a[1..], b);
      assert NewSide(a) == head + NewSide(a[1..]);
    }
  }

  lemma {:induction false} RemovesSides(lines: seq<string>)
    ensures OldSide(Removes(lines)) == lines && NewSide(Removes(lines)) == []
    decreases |lines|
  {
    if lines != [] {
      assert Removes(lines)[1..] == Removes(lines[1..]);
      RemovesSides(lines[1..]);
    }
  }

  /** A turn shows the old lines and the new lines it consumes; it adds only once the old lines are used up. */
  lemma TurnSides(olds: seq<string>, news: seq<string>, i: nat, j: nat)
    requires i <= |olds| && j <= |news| && (i < |olds| || j < |news|)
    ensures var t := Turn(olds, news, i, j);
            OldSide(t.edits) == olds[i..t.i] && NewSide(t.edits) == news[j..t.j]
            && (forall p :: 0 <= p < |t.edits| ==> (t.edits[p].Add? <==> i == |olds|))
  {
    var t := Turn(olds, news, i, j);
    if i < |olds| && j < |news| && olds[i] != news[j] && Lookahead(olds, i, news[j]).Some? {
      RemovesSides(olds[i..t.i]);
    } else {
      assert |t.edits| == 1;
      assert t.edits[1..] == [];
    }
  }

  /** The kept and removed lines of the script, in order, are the old lines. */
  lemma {:induction false} ScriptOldSide(olds: seq<string>, news: seq<string>, i: nat, j: nat)
    requires i <= |olds| && j <= |news|
    ensures OldSide(Script(olds, news, i, j)) == olds[i..]
    decreases |olds| - i + |news| - j
  {
    if i < |olds| || j < |news| {
      var t := Turn(olds, news, i, j);
      var rest := Script(olds, news, t.i, t.j);
      assert Script(olds, news, i, j) == t.edits + rest;
      TurnSides(olds, news, i, j);
      ScriptOldSide(olds, news, t.i, t.j);
      SidesAppend(t.edits, rest);
      SuffixSplit(olds, i, t.i);
    }
  }

  /** The kept and added lines of the script, in order, are the new lines. */
  lemma {:induction false} ScriptNewSide(olds: seq<string>, news: seq<string>, i: nat, j: nat)
    requires i <= |olds| && j <= |news|
    ensures NewSide(Script(olds, news, i, j)) == news[j..]
    decreases |olds| - i + |news| - j
  {
    if i < |olds| || j < |news| {
      var t := Turn(olds, news, i, j);
      var rest := Script(olds, news, t.i, t.j);
      assert Script(olds, news, i, j) == t.edits + rest;
      TurnSides(olds, news, i, j);
      ScriptNewSide(olds, news, t.i, t.j);
      SidesAppend(t.edits, rest);
      SuffixSplit(news, j, t.j);
    }
  }

  /** Reading the diff's two sides gives back the two texts' lines. */
  lemma DiffSides(oldText: string, newText: string)
    ensures OldSide(DiffScript(oldText, newText)) == Lines(oldText)
    ensures NewSide(DiffScript(oldText, newText)) == Lines(newText)
  {
    ScriptOldSide(Lines(oldText), Lines(newText), 0, 0);
    ScriptNewSide(Lines(oldText), Lines(newText), 0, 0);
  }

  /** Nothing but additions follows an addition: every old line is dealt with first. */
  predicate AddsLast(script: seq<Edit>) {
    forall p, q :: 0 <= p < q < |script| && script[p].Add? ==> script[q].Add?
  }

  lemma {:induction false} ScriptAddsLast(olds: seq<string>, news: seq<string>, i: nat, j: nat)
    requires i <= |olds| && j <= |news|
    ensures AddsLast(Script(olds, news, i, j))
    ensures i == |olds| ==> forall p :: 0 <= p < |Script(olds, news, i, j)| ==> Script(olds, news, i, j)[p].Add?
    decreases |olds| - i + |news| - j
  {
    if i < |olds| || j < |news| {
      var t := Turn(olds, news, i, j);
      var rest := Script(olds, news, t.i, t.j);
      TurnSides(olds, news, i, j);
      ScriptAddsLast(olds, news, t.i, t.j);
      if i < |olds| {
        AddsLastCons(t.edits, rest);
      } else {
        var s := t.edits + rest;
        forall p | 0 <= p < |s| ensures s[p].Add? {
          if p >= |t.edits| {
            assert s[p] == rest[p - |t.edits|];
          }
        }
      }
    }
  }

  /** Edits without additions followed by a script whose additions come last. */
  lemma AddsLastCons(pre: seq<Edit>, rest: seq<Edit>)
    requires forall p :: 0 <= p < |pre| ==> !pre[p].Add?
    requires AddsLast(rest)
    ensures AddsLast(pre + rest)
  {
    var s := pre + rest;
    forall p, q | 0 <= p < q < |s| && s[p].Add?
      ensures s[q].Add?
    {
      assert p >= |pre|;
      assert s[p] == rest[p - |pre|] && s[q] == rest[q - |pre|];
    }
  }

  /** Additions come only after every old line has been kept or removed. */
  lemma DiffAddsLast(oldText: string, newText: string)
    ensures AddsLast(DiffScript(oldText, newText))
  {
    ScriptAddsLast(Lines(oldText), Lines(newText), 0, 0);
  }

  /** The diff of equal line lists keeps every line. */
  lemma {:induction false} SameLinesKept(lines: seq<string>, i: nat)
    requires i <= |lines|
    ensures var s := Script(lines, lines, i, i);
            |s| == |lines| - i && forall p :: 0 <= p < |s| ==> s[p] == Keep(lines[i + p])
    decreases |lines| - i
  {
    if i < |lines| {
      SameLineStep(lines, i);
      SameLinesKept(lines, i + 1);
      var s, rest := Script(lines, lines, i, i), Script(lines, lines, i + 1, i + 1);
      forall p | 0 <= p < |s| ensures s[p] == Keep(lines[i + p]) {
        if p > 0 {
          assert s[p] == rest[p - 1];
        }
      }
    }
  }

  /** Equal lines at the two positions: one line is kept and both move on. */
  lemma SameLineStep(lines: seq<string>, i: nat)
    requires i < |lines|
    ensures Script(lines, lines, i, i) == [Keep(lines[i])] + Script(lines, lines, i + 1, i + 1)
  {
    assert Turn(lines, lines, i, i) == Advance([Keep(lines[i])], i + 1, i + 1);
  }

  /** A text compared with itself shows only kept lines. */
  lemma SameTextKept(text: string)
    ensures var s := DiffScript(text, text);
            |s| == |Lines(text)| && forall p :: 0 <= p < |s| ==> s[p] == Keep(Lines(text)[p])
  {
    var lines := Lines(text);
    SameLinesKept(lines, 0);
    var s := Script(lines, lines, 0, 0);
    assert DiffScript(text, text) == s;
    forall p | 0 <= p < |s| ensures s[p] == Keep(lines[p]) {
      assert s[p] == Keep(lines[0 + p]);
    }
  }

  /**
   * When the new line differs from the old one but occurs further on in
   * the old lines, the old lines before its first occurrence are removed
   * and the occurrence is kept next.
   */
  lemma LookaheadKeepsMatch(olds: seq<string>, news: seq<string>, i: nat, j: nat, a: nat)
    requires i + a < |olds| && j < |news| && olds[i] != news[j]
    requires olds[i + a] == news[j] && forall k :: i <= k < i + a ==> olds[k] != news[j]
    ensures Script(olds, news, i, j) == Removes(olds[i..i + a]) + [Keep(news[j])] + Script(olds, news, i + a + 1, j + 1)
  {
    LookaheadIsFirst(olds, i, news[j], a);
    AppendAssoc(Removes(olds[i..i + a]), [Keep(news[j])], Script(olds, news, i + a + 1, j + 1));
  }

  /** The lookahead finds the first occurrence. */
  lemma LookaheadIsFirst(olds: seq<string>, i: nat, x: string, a: nat)
    requires i + a < |olds| && olds[i + a] == x && forall k :: i <= k < i + a ==> olds[k] != x
    ensures Lookahead(olds, i, x) == Some(a)
  {
    var r := Lookahead(olds, i, x);
    assert r.Some? && r.value == a;
  }
}
