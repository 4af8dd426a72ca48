/**
 * Text primitives the source takes from Rust's `str`: whitespace trimming,
 * prefix and suffix tests, `lines()`, `join("\n")`, `split`, ASCII case
 * mapping and decimal numbers. Whitespace is restricted to ASCII.
 */
module Text {

  /** Space, tab, line feed and carriage return: the whitespace this model trims. */
  predicate IsWhitespace(c: char) {
    c == ' ' || c == '\t' || c == '\n' || c == '\r'
  }

  /** The number of leading whitespace characters of `s`. */
  function LeadingWhitespace(s: string): (n: nat)
    ensures n <= |s|
  {
    if s == [] || !IsWhitespace(s[0]) then 0 else 1 + LeadingWhitespace(s[1..])
  }

  /** The number of trailing whitespace characters of `s`. */
  function TrailingWhitespace(s: string): (n: nat)
    ensures n <= |s|
  {
    if s == [] || !IsWhitespace(s[|s| - 1]) then 0
    else 1 + TrailingWhitespace(s[..|s| - 1])
  }

  /** `str::trim_start`. */
  function TrimStart(s: string): string {
    s[LeadingWhitespace(s)..]
  }

  /** `str::trim`: both ends stripped of whitespace. */
  function Trim(s: string): string {
    var rest := TrimStart(s);
    rest[..|rest| - TrailingWhitespace(rest)]
  }

  /** A line holding only whitespace. */
  predicate IsBlank(s: string) {
    Trim(s) == ""
  }

  /** The indentation of a line: `line.len() - line.trim_start().len()`. */
  function Indent(line: string): nat {
    LeadingWhitespace(line)
  }

  predicate StartsWith(s: string, prefix: string) {
    |prefix| <= |s| && s[..|prefix|] == prefix
  }

  lemma StartsWithAppend(a: string, b: string)
    ensures StartsWith(a + b, a)
  {
    assert (a + b)[..|a|] == a;
  }

  lemma StartsWithTrans(a: string, b: string, c: string)
    requires StartsWith(a, b) && StartsWith(b, c)
    ensures StartsWith(a, c)
  {
    assert a[..|c|] == a[..|b|][..|c|];
  }

  predicate EndsWith(s: string, suffix: string) {
    |suffix| <= |s| && s[|s| - |suffix|..] == suffix
  }

  /** `str::contains` for a substring. */
  predicate Contains(s: string, sub: string)
    decreases |s|
  {
    StartsWith(s, sub) || (s != [] && Contains(s[1..], sub))
  }

  /** An occurrence at position `i` makes `s` contain `sub`. */
  lemma {:induction false} ContainsAt(s: string, sub: string, i: nat)
    requires i + |sub| <= |s| && s[i..i + |sub|] == sub
    ensures Contains(s, sub)
    decreases i
  {
    if i > 0 {
      assert s[1..][i - 1..i - 1 + |sub|] == s[i..i + |sub|];
      ContainsAt(s[1..], sub, i - 1);
    }
  }

  /** The position of the first occurrence of `c` in `s`. */
  function IndexOf(s: string, c: char): (i: nat)
    requires c in s
    ensures i < |s| && s[i] == c && c !in s[..i]
  {
    if s[0] == c then 0 else 1 + IndexOf(s[1..], c)
  }

  /** The position of the last occurrence of `c` in `s` (`str::rfind`). */
  function LastIndexOf(s: string, c: char): (i: nat)
    requires c in s
    ensures i < |s|
  {
    if s[|s| - 1] == c then |s| - 1
    else
      assert c in s[..|s| - 1] by {
        var k :| 0 <= k < |s| && s[k] == c;
        assert s[..|s| - 1][k] == c;
      }
      LastIndexOf(s[..|s| - 1], c)
  }

  /** The last index holds `c`, and no later position does. */
  lemma {:induction false} LastIndexOfSpec(s: string, c: char)
    requires c in s
    ensures s[LastIndexOf(s, c)] == c && c !in s[LastIndexOf(s, c) + 1..]
    decreases |s|
  {
    if s[|s| - 1] != c {
      var init := s[..|s| - 1];
      assert c in init by {
        var k :| 0 <= k < |s| && s[k] == c;
        assert init[k] == c;
      }
      LastIndexOfSpec(init, c);
      var i := LastIndexOf(init, c);
      assert s[i + 1..] == init[i + 1..] + [s[|s| - 1]];
    }
  }

  /**
   * When `s` ends in an extension (a '.' followed by no other '.'), the
   * last '.' of `s` is the extension's, so cutting there removes exactly
   * the extension.
   */
  lemma LastDotOfExtension(s: string, ext: string)
    requires EndsWith(s, ext) && |ext| > 0 && ext[0] == '.' && '.' !in ext[1..]
    ensures '.' in s && LastIndexOf(s, '.') == |s| - |ext| && s[..LastIndexOf(s, '.')] + ext == s
  {
    var j := |s| - |ext|;
    ExtensionAt(s, ext, j);
    LastIndexOfAt(s, '.', j);
  }

  /** The extension of `s` starts at `j`, with no '.' after position `j`. */
  lemma ExtensionAt(s: string, ext: string, j: nat)
    requires EndsWith(s, ext) && |ext| > 0 && ext[0] == '.' && '.' !in ext[1..]
    requires j == |s| - |ext|
    ensures j < |s| && s[j] == '.' && s[..j] + ext == s
    ensures forall k :: j < k < |s| ==> s[k] != '.'
  {
    assert s[j..] == ext;
    assert s[j + 1..] == ext[1..];
    NoDotAfter(s, j);
    assert s[..j] + s[j..] == s;
  }

  /** The characters of a trailing extension after its '.' are not '.'. */
  lemma NoDotAfter(s: string, j: nat)
    requires j < |s| && s[j] == '.' && '.' !in s[j + 1..]
    ensures forall k :: j < k < |s| ==> s[k] != '.'
  {
    forall k | j < k < |s| ensures s[k] != '.' {
      assert s[k] == s[j + 1..][k - j - 1];
    }
  }

  /** A position holding `c` with no `c` after it is the last index of `c`. */
  lemma {:induction false} LastIndexOfAt(s: string, c: char, j: nat)
    requires j < |s| && s[j] == c && forall k :: j < k < |s| ==> s[k] != c
    ensures c in s && LastIndexOf(s, c) == j
    decreases |s|
  {
    if j < |s| - 1 {
      var init := s[..|s| - 1];
      assert init[j] == c;
      LastIndexOfAt(init, c, j);
    }
  }

  /** No part contains the separator character. */
  predicate NoneContains(parts: seq<string>, c: char) {
    forall k :: 0 <= k < |parts| ==> c !in parts[k]
  }

  /** `str::split(c)`: always at least one part, none holding `c`. */
  function Split(s: string, c: char): (parts: seq<string>)
    ensures |parts| >= 1
    ensures NoneContains(parts, c)
    decreases |s|
  {
    if c in s then
      var i := IndexOf(s, c);
      [s[..i]] + Split(s[i + 1..], c)
    else [s]
  }

  lemma NoneContainsAppend(a: seq<string>, b: seq<string>, c: char)
    requires NoneContains(a, c) && NoneContains(b, c)
    ensures NoneContains(a + b, c)
  {
    forall k | 0 <= k < |a + b| ensures c !in (a + b)[k] {
      if k >= |a| {
        assert (a + b)[k] == b[k - |a|];
      }
    }
  }

  /** `slice.join(sep)`. */
  function Join(parts: seq<string>, sep: string): string {
    if |parts| == 0 then ""
    else if |parts| == 1 then parts[0]
    else parts[0] + sep + Join(parts[1..], sep)
  }

  /** Drops a single trailing empty element, as `lines()` drops the empty piece after a final newline. */
  function DropTrailingEmpty(parts: seq<string>): (r: seq<string>)
    ensures r == parts || (|parts| > 0 && parts[|parts| - 1] == "" && r == parts[..|parts| - 1])
  {
    if |parts| > 0 && parts[|parts| - 1] == "" then parts[..|parts| - 1] else parts
  }

  /**
   * `str::lines()`: the pieces between newlines, without the empty piece a
   * final newline would leave. Unlike `str::lines()`, the `'\r'` of a CRLF
   * line ending is kept.
   */
  function Lines(s: string): (ls: seq<string>)
    ensures NoneContains(ls, '\n')
  {
    DropTrailingEmpty(Split(s, '\n'))
  }

  /** Lines joined by newlines, as `lines.join("\n")` builds them. */
  function JoinLines(ls: seq<string>): string {
    Join(ls, "\n")
  }

  /** Each line followed by a newline, as `push_str(line); push('\n')` builds them. */
  function Terminated(ls: seq<string>): string {
    if ls == [] then "" else Terminated(ls[..|ls| - 1]) + ls[|ls| - 1] + "\n"
  }

  /** Terminated lines are the lines joined with one empty line after them. */
  lemma {:induction false} TerminatedJoin(ls: seq<string>)
    ensures Terminated(ls) == JoinLines(ls + [""])
    decreases |ls|
  {
    if ls != [] {
      var init, x := ls[..|ls| - 1], ls[|ls| - 1];
      TerminatedJoin(init);
      assert Terminated(ls) == JoinLines(init + [""]) + x + "\n";
      assert ls + [""] == (init + [x]) + [""];
      if init == [] {
        assert init + [x] + [""] == [x, ""];
        assert init + [""] == [""];
        assert Join([x, ""], "\n") == x + "\n" + Join([""], "\n");
      } else {
        JoinSnoc(init + [x], "", "\n");
        JoinSnoc(init, x, "\n");
        JoinSnoc(init, "", "\n");
      }
    }
  }

  /** Terminating two lists of lines one after the other terminates their concatenation. */
  lemma {:induction false} TerminatedAppend(a: seq<string>, b: seq<string>)
    ensures Terminated(a + b) == Terminated(a) + Terminated(b)
    decreases |b|
  {
    if b == [] {
      assert a + b == a;
    } else {
      var init := b[..|b| - 1];
      TerminatedAppend(a, init);
      assert (a + b)[..|a + b| - 1] == a + init;
      assert (a + b)[|a + b| - 1] == b[|b| - 1];
    }
  }

  /** Reading terminated lines back gives the lines. */
  lemma TerminatedLines(ls: seq<string>)
    requires NoneContains(ls, '\n')
    ensures Lines(Terminated(ls)) == ls
    ensures Split(Terminated(ls), '\n') == ls + [""]
  {
    TerminatedJoin(ls);
    assert NoneContains(ls + [""], '\n') by {
      forall k | 0 <= k < |ls| + 1 ensures '\n' !in (ls + [""])[k] {
        if k < |ls| {
          assert (ls + [""])[k] == ls[k];
        }
      }
    }
    LinesOfJoin(ls + [""]);
    SplitJoin(ls + [""], '\n');
    assert (ls + [""])[..|ls|] == ls;
  }

  /** A text that ends with a newline splits into pieces whose last is empty. */
  lemma LastPieceEmpty(s: string)
    requires EndsWithNewline(s)
    ensures var parts := Split(s, '\n'); |parts| >= 2 && parts[|parts| - 1] == ""
  {
    var parts := Split(s, '\n');
    JoinSplit(s, '\n');
    assert ['\n'] == "\n";
    assert JoinLines(parts) == s;
    JoinEndsWithNewline(parts);
  }

  /** Terminating the lines of a text gives the text back when it is empty or ends with a newline. */
  lemma TerminatedLinesOfText(s: string)
    requires s == "" || EndsWithNewline(s)
    ensures Terminated(Lines(s)) == s
  {
    var parts := Split(s, '\n');
    if s == "" {
      assert parts == [""];
    } else {
      LastPieceEmpty(s);
      var init := parts[..|parts| - 1];
      assert parts == init + [""];
      assert Lines(s) == init;
      JoinSplit(s, '\n');
      TerminatedJoin(init);
    }
  }

  predicate EndsWithNewline(s: string) {
    |s| > 0 && s[|s| - 1] == '\n'
  }

  /** Concatenation is associative (stated once, for any element type, so that callers need not reason element by element). */
  lemma AppendAssoc<T>(a: seq<T>, b: seq<T>, c: seq<T>)
    ensures a + b + c == a + (b + c)
  {
  }

  lemma {:induction false} JoinSnoc(parts: seq<string>, x: string, sep: string)
    requires |parts| > 0
    ensures Join(parts + [x], sep) == Join(parts, sep) + sep + x
    decreases |parts|
  {
    if |parts| == 1 {
      assert parts + [x] == [parts[0], x];
    } else {
      assert (parts + [x])[1..] == parts[1..] + [x];
      JoinSnoc(parts[1..], x, sep);
    }
  }

  /** Joining the parts of a split gives the text back. */
  lemma {:induction false} JoinSplit(s: string, c: char)
    ensures Join(Split(s, c), [c]) == s
    decreases |s|
  {
    if c in s {
      var i := IndexOf(s, c);
      var rest := Split(s[i + 1..], c);
      var parts := [s[..i]] + rest;
      assert Split(s, c) == parts;
      assert parts[1..] == rest;
      assert Join(parts, [c]) == s[..i] + [c] + Join(rest, [c]);
      JoinSplit(s[i + 1..], c);
      assert s == s[..i] + [c] + s[i + 1..];
    }
  }

  /** The first occurrence of `c` is where `c` occurs with no earlier occurrence. */
  lemma {:induction false} IndexOfFirst(s: string, c: char, j: nat)
    requires j < |s| && s[j] == c && c !in s[..j]
    ensures IndexOf(s, c) == j
    decreases j
  {
    if j > 0 {
      assert s[0] in s[..j];
      assert s[1..][j - 1] == c;
      assert s[1..][..j - 1] == s[..j][1..];
      IndexOfFirst(s[1..], c, j - 1);
    }
  }

  /** Splitting a join of separator-free parts gives the parts back. */
  lemma {:induction false} SplitJoin(parts: seq<string>, c: char)
    requires |parts| >= 1 && NoneContains(parts, c)
    ensures Split(Join(parts, [c]), c) == parts
    decreases |parts|
  {
    if |parts| > 1 {
      var s := Join(parts, [c]);
      var rest := Join(parts[1..], [c]);
      assert s == parts[0] + [c] + rest;
      assert s[|parts[0]|] == c;
      assert s[..|parts[0]|] == parts[0];
      assert c in s;
      IndexOfFirst(s, c, |parts[0]|);
      assert s[|parts[0]| + 1..] == rest;
      SplitJoin(parts[1..], c);
    }
  }

  /** `lines()` of joined lines loses only a trailing empty line. */
  lemma LinesOfJoin(ls: seq<string>)
    requires NoneContains(ls, '\n')
    ensures Lines(JoinLines(ls)) == DropTrailingEmpty(ls)
  {
    if ls == [] {
      assert Split("", '\n') == [""];
    } else {
      SplitJoin(ls, '\n');
    }
  }

  /** A join of newline-free lines ends in a newline exactly when it has two or more lines and the last is empty. */
  lemma JoinEndsWithNewline(ls: seq<string>)
    requires NoneContains(ls, '\n')
    ensures EndsWithNewline(JoinLines(ls)) <==> |ls| >= 2 && ls[|ls| - 1] == ""
  {
    if |ls| == 1 {
      assert '\n' !in ls[0];
      if |ls[0]| > 0 {
        assert ls[0][|ls[0]| - 1] in ls[0];
      }
    } else if |ls| >= 2 {
      var init := ls[..|ls| - 1];
      var x := ls[|ls| - 1];
      assert ls == init + [x];
      JoinSnoc(init, x, "\n");
      assert '\n' !in x;
      if x != "" {
        assert x[|x| - 1] in x;
      }
    }
  }

  /** `n` spaces, as `" ".repeat(n)` builds them. */
  function Spaces(n: nat): (s: string)
    ensures |s| == n && forall k :: 0 <= k < n ==> s[k] == ' '
  {
    if n == 0 then "" else Spaces(n - 1) + " "
  }

  predicate IsDigit(c: char) {
    '0' <= c <= '9'
  }

  function DigitValue(c: char): nat
    requires IsDigit(c)
  {
    (c as int - '0' as int) as nat
  }

  function DigitChar(d: nat): (c: char)
    requires d < 10
    ensures IsDigit(c) && DigitValue(c) == d
  {
    ('0' as int + d) as char
  }

  /** The decimal value of a string of digits. */
  function DigitsValue(s: string): nat
    requires forall k :: 0 <= k < |s| ==> IsDigit(s[k])
  {
    if s == [] then 0 else 10 * DigitsValue(s[..|s| - 1]) + DigitValue(s[|s| - 1])
  }

  /** The decimal rendering of `n`, as `format!("{}", n)` prints it. */
  function NatToString(n: nat): (s: string)
    ensures |s| >= 1
    ensures forall k :: 0 <= k < |s| ==> IsDigit(s[k])
    ensures DigitsValue(s) == n
  {
    if n < 10 then [DigitChar(n)]
    else
      var s := NatToString(n / 10) + [DigitChar(n % 10)];
      assert s[..|s| - 1] == NatToString(n / 10);
      s
  }

  /** Different numbers print differently. */
  lemma NatToStringInjective(a: nat, b: nat)
    requires NatToString(a) == NatToString(b)
    ensures a == b
  {
    assert DigitsValue(NatToString(a)) == DigitsValue(NatToString(b));
  }

  /** Equal texts with the same prefix and suffix have the same middle. */
  lemma MiddleEqual(pre: string, x: string, y: string, post: string)
    requires pre + x + post == pre + y + post
    ensures x == y
  {
    var s := pre + x + post;
    assert x == s[|pre|..|pre| + |x|];
    assert y == (pre + y + post)[|pre|..|pre| + |y|];
  }

  /** `str::replace(from, to)` for single characters. */
  function ReplaceChar(s: string, from: char, to: char): (r: string)
    ensures |r| == |s|
    ensures forall k :: 0 <= k < |s| ==> r[k] == if s[k] == from then to else s[k]
  {
    if s == [] then "" else [if s[0] == from then to else s[0]] + ReplaceChar(s[1..], from, to)
  }

  function ToLowerChar(c: char): char {
    if 'A' <= c <= 'Z' then (c as int + 32) as char else c
  }

  /** `str::to_lowercase` restricted to ASCII letters. */
  function ToLower(s: string): (r: string)
    ensures |r| == |s|
    ensures forall k :: 0 <= k < |s| ==> r[k] == ToLowerChar(s[k])
  {
    if s == [] then "" else [ToLowerChar(s[0])] + ToLower(s[1..])
  }

  /** Lexicographic order on strings, character by character, as Rust's `String::cmp` orders them. */
  predicate StrLe(a: string, b: string)
    decreases |a|
  {
    a == [] || (b != [] && (a[0] < b[0] || (a[0] == b[0] && StrLe(a[1..], b[1..]))))
  }

  lemma {:induction false} StrLeTotal(a: string, b: string)
    ensures StrLe(a, b) || StrLe(b, a)
    decreases |a|
  {
    if a != [] && b != [] && a[0] == b[0] {
      StrLeTotal(a[1..], b[1..]);
    }
  }

  lemma {:induction false} StrLeTrans(a: string, b: string, c: string)
    requires StrLe(a, b) && StrLe(b, c)
    ensures StrLe(a, c)
    decreases |a|
  {
    if a != [] && b != [] && c != [] && a[0] == b[0] && b[0] == c[0] {
      StrLeTrans(a[1..], b[1..], c[1..]);
    }
  }

  lemma {:induction false} StrLeAntisymmetric(a: string, b: string)
    requires StrLe(a, b) && StrLe(b, a)
    ensures a == b
    decreases |a|
  {
    if a != [] && b != [] {
      StrLeAntisymmetric(a[1..], b[1..]);
      assert a == [a[0]] + a[1..] && b == [b[0]] + b[1..];
    }
  }

  /**
   * `a` occurs in `b` in order, possibly with elements of `b` left out
   * between them: every element of `a` is an unaltered element of `b`.
   */
  /** A non-empty sequence is its head followed by its tail, element by element and as a multiset. */
  lemma HeadTail<T>(s: seq<T>)
    requires s != []
    ensures s == [s[0]] + s[1..]
    ensures multiset(s) == multiset{s[0]} + multiset(s[1..])
    ensures forall k :: 1 <= k < |s| ==> s[k] == s[1..][k - 1]
  {
    assert s == [s[0]] + s[1..];
  }

  predicate IsSubsequence<T(==)>(a: seq<T>, b: seq<T>)
    decreases |b|
  {
    a == [] || (b != [] && ((a[0] == b[0] && IsSubsequence(a[1..], b[1..])) || IsSubsequence(a, b[1..])))
  }

  lemma {:induction false} SubsequenceRefl<T>(a: seq<T>)
    ensures IsSubsequence(a, a)
    decreases |a|
  {
    if a != [] { SubsequenceRefl(a[1..]); }
  }

  lemma {:induction false} SubsequenceTrans<T>(a: seq<T>, b: seq<T>, c: seq<T>)
    requires IsSubsequence(a, b) && IsSubsequence(b, c)
    ensures IsSubsequence(a, c)
    decreases |c|
  {
    if a != [] {
      if IsSubsequence(b, c[1..]) {
        SubsequenceTrans(a, b, c[1..]);
      } else if a[0] == b[0] && IsSubsequence(a[1..], b[1..]) {
        SubsequenceTrans(a[1..], b[1..], c[1..]);
      } else {
        SubsequenceTrans(a, b[1..], c[1..]);
      }
    }
  }

  lemma {:induction false} SubsequenceConcat<T>(a1: seq<T>, b1: seq<T>, a2: seq<T>, b2: seq<T>)
    requires IsSubsequence(a1, b1) && IsSubsequence(a2, b2)
    ensures IsSubsequence(a1 + a2, b1 + b2)
    decreases |b1|
  {
    if a1 == [] {
      SubsequenceOfSuffix(a2, b1, b2);
      assert a1 + a2 == a2;
    } else if a1[0] == b1[0] && IsSubsequence(a1[1..], b1[1..]) {
      SubsequenceConcat(a1[1..], b1[1..], a2, b2);
      assert (a1 + a2)[1..] == a1[1..] + a2;
      assert (b1 + b2)[1..] == b1[1..] + b2;
    } else {
      SubsequenceConcat(a1, b1[1..], a2, b2);
      assert (b1 + b2)[1..] == b1[1..] + b2;
    }
  }

  lemma {:induction false} SubsequenceOfSuffix<T>(a: seq<T>, pre: seq<T>, b: seq<T>)
    requires IsSubsequence(a, b)
    ensures IsSubsequence(a, pre + b)
    decreases |pre|
  {
    if pre != [] {
      SubsequenceOfSuffix(a, pre[1..], b);
      assert (pre + b)[1..] == pre[1..] + b;
    } else {
      assert pre + b == b;
    }
  }

  lemma {:induction false} EmptySubsequence<T>(b: seq<T>)
    ensures IsSubsequence([], b)
  {
  }

  /** Cutting out the slice `[lo, hi)` leaves a subsequence. */
  lemma CutIsSubsequence<T>(s: seq<T>, lo: nat, hi: nat)
    requires lo <= hi <= |s|
    ensures IsSubsequence(s[..lo] + s[hi..], s)
  {
    var pre, mid, post := s[..lo], s[lo..hi], s[hi..];
    SliceThree(s, lo, hi);
    SubsequenceRefl(pre);
    SubsequenceRefl(post);
    SubsequenceOfSuffix(post, mid, post);
    SubsequenceConcat(pre, pre, post, mid + post);
  }

  /** A suffix is its first part followed by the rest. */
  lemma SuffixSplit<T>(s: seq<T>, lo: nat, mid: nat)
    requires lo <= mid <= |s|
    ensures s[lo..] == s[lo..mid] + s[mid..]
  {
  }

  lemma SliceThree<T>(s: seq<T>, lo: nat, hi: nat)
    requires lo <= hi <= |s|
    ensures s[..lo] + (s[lo..hi] + s[hi..]) == s
  {
  }

  /** A non-empty element keeps its position when a trailing empty element is dropped. */
  lemma DropTrailingEmptyKeeps(ls: seq<string>, k: nat)
    requires k < |ls| && ls[k] != ""
    ensures k < |DropTrailingEmpty(ls)| && DropTrailingEmpty(ls)[k] == ls[k]
  {
  }

  lemma DropTrailingEmptyIsSubsequence(ls: seq<string>)
    ensures IsSubsequence(DropTrailingEmpty(ls), ls)
  {
    if |ls| > 0 && ls[|ls| - 1] == "" {
      CutIsSubsequence(ls, |ls| - 1, |ls|);
      assert ls[..|ls| - 1] + ls[|ls|..] == ls[..|ls| - 1];
    } else {
      SubsequenceRefl(ls);
    }
  }

  /** Every element of a subsequence is an element of the sequence. */
  lemma {:induction false} SubsequenceMembers<T>(a: seq<T>, b: seq<T>)
    requires IsSubsequence(a, b)
    ensures forall x :: x in a ==> x in b
    decreases |b|
  {
    if a != [] {
      if a[0] == b[0] && IsSubsequence(a[1..], b[1..]) {
        SubsequenceMembers(a[1..], b[1..]);
        forall x | x in a ensures x in b {
          if x != a[0] { assert x in a[1..]; assert x in b[1..]; }
        }
      } else {
        SubsequenceMembers(a, b[1..]);
      }
    }
  }

  /** A subsequence of a sequence whose elements are newline-free is newline-free. */
  lemma SubsequenceNoneContains(a: seq<string>, b: seq<string>, c: char)
    requires IsSubsequence(a, b) && NoneContains(b, c)
    ensures NoneContains(a, c)
  {
    SubsequenceMembers(a, b);
    forall k | 0 <= k < |a| ensures c !in a[k] {
      assert a[k] in a;
    }
  }
}
