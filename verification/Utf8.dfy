/** Strict UTF-8 (sections 3 and 4 of RFC 3629), decoded piece by piece, and the fixed-width spool that
    session output is kept in (functions/console_session_output.py). Characters are Unicode scalar values. */
module Utf8 {
  import opened Basics
  import opened PrefixCode

  // ---------- Encoding (section 3) ----------

  function Encode(c: char): (e: seq<Byte>)
    ensures 1 <= |e| <= 4
  {
    var n := c as int;
    if n < 0x80 then [n]
    else if n < 0x800 then [0xC0 + n / 64, 0x80 + n % 64]
    else if n < 0x10000 then [0xE0 + n / 4096, 0x80 + n / 64 % 64, 0x80 + n % 64]
    else [0xF0 + n / 262144, 0x80 + n / 4096 % 64, 0x80 + n / 64 % 64, 0x80 + n % 64]
  }

  // ---------- Decoding (section 4) ----------

  predicate Continues(b: Byte) { 0x80 <= b <= 0xBF }

  /** How many bytes the sequence that starts with this byte has; 0 if none does. */
  function Length(b: Byte): nat {
    if b < 0x80 then 1
    else if 0xC2 <= b <= 0xDF then 2
    else if 0xE0 <= b <= 0xEF then 3
    else if 0xF0 <= b <= 0xF4 then 4
    else 0
  }

  /** Whether the second byte may follow the first. */
  predicate SecondFits(b: Byte, c: Byte) {
    && Continues(c)
    && (b == 0xE0 ==> c >= 0xA0) && (b == 0xED ==> c <= 0x9F) && (b == 0xF0 ==> c >= 0x90) && (b == 0xF4 ==> c <= 0x8F)
  }

  /** The number that the payload bits of two, three and four bytes spell. */
  function Two(a: int, b: int): int { (a - 0xC0) * 64 + (b - 0x80) }
  function Three(a: int, b: int, c: int): int { (a - 0xE0) * 4096 + (b - 0x80) * 64 + (c - 0x80) }
  function Four(a: int, b: int, c: int, d: int): int {
    (a - 0xF0) * 262144 + (b - 0x80) * 4096 + (c - 0x80) * 64 + (d - 0x80)
  }

  function DecodeFirst(s: seq<Byte>): (r: First)
    ensures r.Got? ==> 1 <= r.used <= |s| && r.used <= 4
  {
    if s == [] then Incomplete
    else if Length(s[0]) == 0 then Malformed
    else if Length(s[0]) == 1 then Got(s[0] as char, 1)
    else if |s| == 1 then Incomplete
    else if !SecondFits(s[0], s[1]) then Malformed
    else if Length(s[0]) == 2 then Got(Two(s[0], s[1]) as char, 2)
    else if |s| == 2 then Incomplete
    else if !Continues(s[2]) then Malformed
    else if Length(s[0]) == 3 then Got(Three(s[0], s[1], s[2]) as char, 3)
    else if |s| == 3 then Incomplete
    else if !Continues(s[3]) then Malformed
    else Got(Four(s[0], s[1], s[2], s[3]) as char, 4)
  }

  lemma Digits(n: nat)
    ensures n == n / 64 * 64 + n % 64
    ensures n / 64 == n / 4096 * 64 + n / 64 % 64
    ensures n / 4096 == n / 262144 * 64 + n / 4096 % 64
  {
  }

  /** What a character decodes to is the character, whatever follows. */
  lemma DecodeEncoded(c: char, rest: seq<Byte>)
    ensures DecodeFirst(Encode(c) + rest) == Got(c, |Encode(c)|)
  {
    var n := c as int;
    var e, s := Encode(c), Encode(c) + rest;
    Digits(n);
    assert s[0] == e[0];
    if n < 0x80 {
    } else if n < 0x800 {
      assert s[1] == e[1];
      assert Two(s[0], s[1]) == n;
    } else if n < 0x10000 {
      assert s[1] == e[1] && s[2] == e[2];
      assert Three(s[0], s[1], s[2]) == n;
    } else {
      assert s[1] == e[1] && s[2] == e[2] && s[3] == e[3];
      assert Four(s[0], s[1], s[2], s[3]) == n;
    }
  }

  lemma SplitOff(q: nat, r: nat)
    requires r < 64
    ensures (q * 64 + r) / 64 == q && (q * 64 + r) % 64 == r
  {
  }

  lemma SpellsTwo(a: Byte, b: Byte)
    requires Length(a) == 2 && SecondFits(a, b)
    ensures 0x80 <= Two(a, b) < 0x800 && Two(a, b) / 64 == a - 0xC0 && Two(a, b) % 64 == b - 0x80
  {
  }

  lemma SpellsThree(a: Byte, b: Byte, c: Byte)
    requires Length(a) == 3 && SecondFits(a, b) && Continues(c)
    ensures var n := Three(a, b, c);
            && 0x800 <= n < 0x10000 && !(0xD800 <= n < 0xE000)
            && n / 4096 == a - 0xE0 && n / 64 % 64 == b - 0x80 && n % 64 == c - 0x80
  {
    var x, y := (a - 0xE0) as int, ((a - 0xE0) as int * 64 + (b - 0x80)) as int;
    SplitOff(y, c - 0x80);
    SplitOff(x, b - 0x80);
    var n := Three(a, b, c);
    assert n == y * 64 + (c - 0x80);
    Digits(n);
  }

  lemma SpellsFour(a: Byte, b: Byte, c: Byte, d: Byte)
    requires Length(a) == 4 && SecondFits(a, b) && Continues(c) && Continues(d)
    ensures var n := Four(a, b, c, d);
            && 0x10000 <= n < 0x110000 && n / 262144 == a - 0xF0 && n / 4096 % 64 == b - 0x80
            && n / 64 % 64 == c - 0x80 && n % 64 == d - 0x80
  {
    var w := (a - 0xF0) as int;
    var x := w * 64 + (b - 0x80);
    var y := x * 64 + (c - 0x80);
    var n := Four(a, b, c, d);
    SplitOff(y, d - 0x80);
    SplitOff(x, c - 0x80);
    SplitOff(w, b - 0x80);
    assert n == y * 64 + (d - 0x80);
    Digits(n);
  }

  /** Only a character's own encoding decodes to it. */
  lemma DecodedIsEncoded(s: seq<Byte>)
    requires DecodeFirst(s).Got?
    ensures s[..DecodeFirst(s).used] == Encode(DecodeFirst(s).c)
  {
    if Length(s[0]) == 2 {
      SpellsTwo(s[0], s[1]);
    } else if Length(s[0]) == 3 {
      SpellsThree(s[0], s[1], s[2]);
    } else if Length(s[0]) == 4 {
      SpellsFour(s[0], s[1], s[2], s[3]);
    }
  }

  /** A byte that can follow this one. */
  function SecondFor(b: Byte): (c: Byte)
    ensures Length(b) >= 2 ==> SecondFits(b, c)
  {
    if b == 0xE0 then 0xA0 else if b == 0xF0 then 0x90 else 0x80
  }

  lemma Completed(s: seq<Byte>)
    requires s != [] && DecodeFirst(s).Incomplete?
    ensures var t := s + (if |s| == 1 then [SecondFor(s[0]), 0x80, 0x80] else [0x80, 0x80]);
            DecodeFirst(t).Got? && DecodeFirst(t).used > |s|
  {
    var t := s + (if |s| == 1 then [SecondFor(s[0]), 0x80, 0x80] else [0x80, 0x80]);
    assert t[0] == s[0];
    if |s| == 1 {
      assert t[1] == SecondFor(s[0]) && t[2] == 0x80 && t[3] == 0x80;
    } else if |s| == 2 {
      assert t[1] == s[1] && t[2] == 0x80 && t[3] == 0x80;
    } else {
      assert t[1] == s[1] && t[2] == s[2] && t[3] == 0x80;
    }
  }

  /** The decoder waits for more exactly when the bytes are the beginning of some character. */
  lemma IncompleteIff(s: seq<Byte>)
    ensures DecodeFirst(s).Incomplete? <==> exists c :: s < Encode(c)
  {
    if DecodeFirst(s).Incomplete? {
      if s == [] {
        assert s < Encode('a');
      } else {
        Completed(s);
        var t := s + (if |s| == 1 then [SecondFor(s[0]), 0x80, 0x80] else [0x80, 0x80]);
        DecodedIsEncoded(t);
        assert s < Encode(DecodeFirst(t).c);
      }
    }
    forall c | s < Encode(c) ensures DecodeFirst(s).Incomplete? {
      PrefixIsIncomplete(s, c);
    }
  }

  lemma PrefixIsIncomplete(s: seq<Byte>, c: char)
    requires s < Encode(c)
    ensures DecodeFirst(s).Incomplete?
  {
    var e := Encode(c);
    DecodeEncoded(c, []);
    assert e + [] == e;
    assert forall i :: 0 <= i < |s| ==> s[i] == e[i];
  }

  /** UTF-8 can be read back: the two tables of the standard agree. */
  lemma Utf8Matches()
    ensures Matches(Encode, DecodeFirst)
  {
    forall c, rest ensures DecodeFirst(Encode(c) + rest) == Got(c, |Encode(c)|) {
      DecodeEncoded(c, rest);
    }
    forall s | DecodeFirst(s).Got? ensures s[..DecodeFirst(s).used] == Encode(DecodeFirst(s).c) {
      DecodedIsEncoded(s);
    }
  }

  // ---------- The spool: four little-endian bytes a character ----------

  function Word(c: char): (w: seq<Byte>)
    ensures |w| == 4
  {
    var n := c as int;
    [n % 256, n / 256 % 256, n / 65536 % 256, n / 16777216]
  }

  function Value(a: int, b: int, c: int, d: int): int { a + b * 256 + c * 65536 + d * 16777216 }

  predicate IsScalar(n: int) { 0 <= n < 0xD800 || 0xE000 <= n < 0x110000 }

  /** The first character of spool bytes */
  function ReadWord(s: seq<Byte>): First {
    if |s| < 4 then Incomplete
    else if IsScalar(Value(s[0], s[1], s[2], s[3])) then Got(Value(s[0], s[1], s[2], s[3]) as char, 4)
    else Malformed
  }

  lemma WordValue(c: char, rest: seq<Byte>)
    ensures ReadWord(Word(c) + rest) == Got(c, 4)
  {
    var n, w, s := c as int, Word(c), Word(c) + rest;
    assert s[0] == w[0] && s[1] == w[1] && s[2] == w[2] && s[3] == w[3];
    assert n / 256 == n / 65536 * 256 + n / 256 % 256;
    assert n / 65536 == n / 16777216 * 256 + n / 65536 % 256;
    assert Value(s[0], s[1], s[2], s[3]) == n;
  }

  lemma ValueWord(s: seq<Byte>)
    requires ReadWord(s).Got?
    ensures s[..4] == Word(ReadWord(s).c)
  {
    var n := Value(s[0], s[1], s[2], s[3]);
    var high: int, mid: int, low: int := s[3], s[2], s[1];
    var x := high * 256 + mid;
    var y := x * 256 + low;
    assert n == y * 256 + s[0];
    assert n / 256 == y && n % 256 == s[0];
    assert n / 65536 == x;
    assert n / 16777216 == high;
  }

  lemma SpoolMatches()
    ensures Matches(Word, ReadWord) && FourWide(Word)
  {
    forall c, rest ensures ReadWord(Word(c) + rest) == Got(c, |Word(c)|) {
      WordValue(c, rest);
    }
    forall s | ReadWord(s).Got? ensures s[..ReadWord(s).used] == Word(ReadWord(s).c) {
      ValueWord(s);
    }
  }
}
