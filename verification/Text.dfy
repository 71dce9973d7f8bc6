/** The string operations of the Python runtime that the modelled code relies on:
    `str.strip`, `str.splitlines`, `"\n".join` and the code point order of strings. */
module Text {

  /** The code points at which `str.splitlines` ends a line. */
  predicate IsBreak(c: char) {
    '\U{0A}' <= c <= '\U{0D}' || '\U{1C}' <= c <= '\U{1E}' || c == '\U{85}' || c == '\U{2028}' || c == '\U{2029}'
  }

  /** The code points that `str.strip` removes. */
  predicate IsSpace(c: char) {
    || '\U{09}' <= c <= '\U{0D}' || '\U{1C}' <= c <= '\U{20}' || c == '\U{85}' || c == '\U{A0}' || c == '\U{1680}'
    || '\U{2000}' <= c <= '\U{200A}' || c == '\U{2028}' || c == '\U{2029}' || c == '\U{202F}' || c == '\U{205F}'
    || c == '\U{3000}'
  }

  predicate OneLine(s: string) {
    forall i :: 0 <= i < |s| ==> !IsBreak(s[i])
  }

  predicate Stripped(s: string) {
    s == [] || (!IsSpace(s[0]) && !IsSpace(s[|s| - 1]))
  }

  function TrimLeft(s: string): (r: string)
    ensures |r| <= |s| && r == s[|s| - |r|..]
    ensures r == [] || !IsSpace(r[0])
  {
    if s != [] && IsSpace(s[0]) then TrimLeft(s[1..]) else s
  }

  function TrimRight(s: string): (r: string)
    ensures r <= s
    ensures r == [] || !IsSpace(r[|r| - 1])
  {
    if s != [] && IsSpace(s[|s| - 1]) then TrimRight(s[..|s| - 1]) else s
  }

  function Strip(s: string): (r: string)
    ensures Stripped(r)
    ensures |r| <= |s|
    ensures Stripped(s) ==> r == s
    ensures OneLine(s) ==> OneLine(r)
  {
    TrimRight(TrimLeft(s))
  }

  predicate Blank(s: string) { forall i :: 0 <= i < |s| ==> IsSpace(s[i]) }

  /** Only blanks are taken away, and all of them at both ends. */
  lemma StripExact(left: string, s: string, right: string)
    requires Blank(left) && Blank(right) && Stripped(s) && (s == [] ==> right == [])
    ensures Strip(left + s + right) == s
  {
    assert left + s + right == left + (s + right);
    TrimLeftExact(left, s + right);
    TrimRightExact(s, right);
  }

  lemma {:induction false} TrimLeftExact(left: string, s: string)
    requires Blank(left) && (s == [] || !IsSpace(s[0]))
    ensures TrimLeft(left + s) == s
  {
    if left == [] {
      assert left + s == s;
    } else {
      assert (left + s)[1..] == left[1..] + s;
      TrimLeftExact(left[1..], s);
    }
  }

  lemma {:induction false} TrimRightExact(s: string, right: string)
    requires Blank(right) && (s == [] || !IsSpace(s[|s| - 1]))
    ensures TrimRight(s + right) == s
    decreases |right|
  {
    if right == [] {
      assert s + right == s;
    } else {
      var n := |right| - 1;
      assert (s + right)[..|s + right| - 1] == s + right[..n] && (s + right)[|s| + n] == right[n];
      TrimRightExact(s, right[..n]);
    }
  }

  /** A leading space never survives stripping: what is stripped is what follows it. */
  lemma {:induction false} StripSpaced(s: string)
    requires Stripped(s)
    ensures Strip(" " + s) == s
  {
    assert (" " + s)[1..] == s;
    assert TrimLeft(" " + s) == TrimLeft(s) == s;
  }

  lemma {:induction false} TrimRightKeeps(s: string)
    requires s != [] && !IsSpace(s[0])
    ensures TrimRight(s) != []
  {
    if IsSpace(s[|s| - 1]) { TrimRightKeeps(s[..|s| - 1]); }
  }

  lemma {:induction false} TrimLeftKeeps(s: string, t: string)
    requires s <= t && TrimLeft(s) != []
    ensures TrimLeft(t) != []
  {
    if IsSpace(t[0]) { TrimLeftKeeps(s[1..], t[1..]); }
  }

  /** A text that starts with a text that is not blank is not blank. */
  lemma {:induction false} StripKeeps(s: string, t: string)
    requires s <= t && Strip(s) != []
    ensures Strip(t) != []
  {
    TrimLeftKeeps(s, t);
    TrimRightKeeps(TrimLeft(t));
  }

  /** The index of the first line break, or the length when there is none. */
  function LineLength(s: string): (n: nat)
    ensures n <= |s| && OneLine(s[..n])
    ensures n < |s| ==> IsBreak(s[n])
  {
    if s == [] || IsBreak(s[0]) then 0 else
      var n := 1 + LineLength(s[1..]);
      assert s[..n] == [s[0]] + s[1..][..n - 1];
      n
  }

  function BreakLength(s: string, n: nat): (k: nat)
    requires n < |s|
    ensures 1 <= k && n + k <= |s|
  {
    if s[n] == '\r' && n + 1 < |s| && s[n + 1] == '\n' then 2 else 1
  }

  /** `str.splitlines()` */
  function SplitLines(s: string): (lines: seq<string>)
    ensures forall i :: 0 <= i < |lines| ==> OneLine(lines[i])
    ensures lines == [] <==> s == []
    decreases |s|
  {
    if s == [] then [] else
      var n := LineLength(s);
      if n == |s| then [s] else [s[..n]] + SplitLines(s[n + BreakLength(s, n)..])
  }

  /** `"\n".join(lines)` */
  function Join(lines: seq<string>): (s: string) {
    if lines == [] then [] else if |lines| == 1 then lines[0] else lines[0] + "\n" + Join(lines[1..])
  }

  lemma {:induction false} LineLengthOf(line: string, rest: string)
    requires OneLine(line)
    requires rest == [] || IsBreak(rest[0])
    ensures LineLength(line + rest) == |line|
  {
    if line == [] {
      assert line + rest == rest;
    } else {
      assert (line + rest)[1..] == line[1..] + rest;
      LineLengthOf(line[1..], rest);
    }
  }

  /** What ends a line before `rest`: a carriage return and a line feed together are one end. */
  predicate EndsLine(end: string, rest: string) {
    || end == "\r\n"
    || (|end| == 1 && IsBreak(end[0]) && !(end == "\r" && rest != [] && rest[0] == '\n'))
  }

  /** A line, its end, and the rest of a text are split into the line and the lines of the rest. With
      `SplitLast` this tells what any text is split into. */
  lemma SplitExact(line: string, end: string, rest: string)
    requires OneLine(line) && EndsLine(end, rest)
    ensures SplitLines(line + end + rest) == [line] + SplitLines(rest)
  {
    var text := line + end + rest;
    LineLengthOf(line, end + rest);
    assert text == line + (end + rest);
    assert text[..|line|] == line && text[|line|] == end[0];
    assert rest != [] ==> text[|line| + |end|] == rest[0];
    assert text[|line| + |end|..] == rest;
  }

  lemma SplitLast(line: string)
    requires OneLine(line)
    ensures SplitLines(line) == if line == [] then [] else [line]
  {
    LineLengthOf(line, []);
    assert line + [] == line;
  }

  lemma {:induction false} SplitFirst(line: string, rest: string)
    requires OneLine(line)
    ensures SplitLines(line + "\n" + rest) == [line] + SplitLines(rest)
  {
    SplitExact(line, "\n", rest);
  }

  /** Splitting undoes joining, provided no line is broken inside and the last one is not lost
      by being empty. */
  lemma {:induction false} SplitJoin(lines: seq<string>)
    requires forall i :: 0 <= i < |lines| ==> OneLine(lines[i])
    requires lines == [] || lines[|lines| - 1] != []
    ensures SplitLines(Join(lines)) == lines
  {
    if |lines| == 1 {
      LineLengthOf(lines[0], []);
      assert lines[0] + [] == lines[0];
    } else if |lines| > 1 {
      SplitFirst(lines[0], Join(lines[1..]));
      SplitJoin(lines[1..]);
    }
  }

  /** Code point order, as Python compares strings. */
  predicate Below(s: string, t: string) {
    s == [] || (t != [] && (s[0] < t[0] || (s[0] == t[0] && Below(s[1..], t[1..]))))
  }

  /** The first difference decides, or else the length. */
  lemma {:induction false} BelowExact(s: string, t: string, n: nat)
    requires n <= |s| && n <= |t| && s[..n] == t[..n]
    requires n < |s| && n < |t| ==> s[n] != t[n]
    ensures Below(s, t) <==> n == |s| || (n < |t| && s[n] < t[n])
  {
    if n > 0 {
      assert s[0] == s[..n][0] && t[0] == t[..n][0];
      assert s[1..][..n - 1] == s[..n][1..] && t[1..][..n - 1] == t[..n][1..];
      BelowExact(s[1..], t[1..], n - 1);
    }
  }

  lemma {:induction false} BelowTotal(s: string, t: string)
    ensures Below(s, t) || Below(t, s)
    ensures Below(s, t) && Below(t, s) ==> s == t
  {
    if s != [] && t != [] && s[0] == t[0] {
      BelowTotal(s[1..], t[1..]);
      assert s == [s[0]] + s[1..] && t == [t[0]] + t[1..];
    }
  }

  lemma {:induction false} BelowTransitive(s: string, t: string, u: string)
    requires Below(s, t) && Below(t, u)
    ensures Below(s, u)
  {
    if s != [] && s[0] == t[0] == u[0] {
      BelowTransitive(s[1..], t[1..], u[1..]);
    }
  }
}
