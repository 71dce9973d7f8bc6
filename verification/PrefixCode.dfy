/** Codes that write each character as some bytes and can tell, reading, where each one ends. */
module PrefixCode {
  import opened Basics
  import opened Results

  type Coder = char -> seq<Byte>

  /** The first character of some bytes: it is there, it is not complete yet, or there is none. */
  datatype First = Got(c: char, used: nat) | Incomplete | Malformed

  type Reader = seq<Byte> -> First

  ghost predicate Advances(read: Reader) {
    forall s :: read(s).Got? ==> 1 <= read(s).used <= |s|
  }

  /** What is written is read back, whatever follows, and only what is written is read. */
  ghost predicate Matches(write: Coder, read: Reader) {
    && Advances(read)
    && (forall c, rest :: read(write(c) + rest) == Got(c, |write(c)|))
    && (forall s :: read(s).Got? ==> s[..read(s).used] == write(read(s).c))
  }

  function EncodeAll(write: Coder, text: string): seq<Byte> {
    if text == [] then [] else write(text[0]) + EncodeAll(write, text[1..])
  }

  lemma {:induction false} EncodeAllConcat(write: Coder, a: string, b: string)
    ensures EncodeAll(write, a + b) == EncodeAll(write, a) + EncodeAll(write, b)
  {
    if a == [] {
      assert a + b == b;
    } else {
      assert (a + b)[1..] == a[1..] + b;
      EncodeAllConcat(write, a[1..], b);
    }
  }

  lemma EncodeCons(write: Coder, c: char, text: string)
    ensures EncodeAll(write, [c] + text) == write(c) + EncodeAll(write, text)
  {
    assert ([c] + text)[1..] == text;
  }

  /** What can be decoded, what is left, and whether what is left may still become a character. */
  datatype Decoded = Decoded(text: string, rest: seq<Byte>, ok: bool)

  function Decode(read: Reader, s: seq<Byte>): Decoded
    requires Advances(read)
    decreases |s|
  {
    match read(s)
    case Incomplete => Decoded([], s, true)
    case Malformed => Decoded([], s, false)
    case Got(c, used) => var d := Decode(read, s[used..]); Decoded([c] + d.text, d.rest, d.ok)
  }

  lemma Assoc(a: seq<Byte>, b: seq<Byte>, c: seq<Byte>)
    ensures a + b + c == a + (b + c)
  {
  }

  lemma Middle(a: seq<Byte>, b: seq<Byte>, c: seq<Byte>)
    ensures (a + (b + c))[|a|..|a| + |b|] == b
    ensures (a + b)[|a|..] == b
  {
  }

  /** The decoded text encodes to the bytes it was decoded from. */
  lemma {:induction false} DecodeSound(write: Coder, read: Reader, s: seq<Byte>)
    requires Matches(write, read)
    ensures EncodeAll(write, Decode(read, s).text) + Decode(read, s).rest == s
    ensures Decode(read, s).ok ==> read(Decode(read, s).rest).Incomplete?
    ensures !Decode(read, s).ok ==> read(Decode(read, s).rest).Malformed?
    decreases |s|
  {
    var first := read(s);
    if first.Got? {
      var head, tail := s[..first.used], s[first.used..];
      DecodeSound(write, read, tail);
      EncodeCons(write, first.c, Decode(read, tail).text);
      Assoc(head, EncodeAll(write, Decode(read, tail).text), Decode(read, tail).rest);
      assert s == head + tail;
    }
  }

  /** How the result of decoding grows when a text is put in front. */
  function After(text: string, d: Decoded): Decoded { Decoded(text + d.text, d.rest, d.ok) }

  lemma AfterCons(c: char, text: string, d: Decoded)
    ensures After([c], After(text, d)) == After([c] + text, d)
  {
    assert [c] + (text + d.text) == [c] + text + d.text;
  }

  lemma DecodeCons(write: Coder, read: Reader, c: char, tail: seq<Byte>)
    requires Matches(write, read)
    ensures Decode(read, write(c) + tail) == After([c], Decode(read, tail))
  {
    Middle(write(c), tail, []);
  }

  /** Decoding an encoded text followed by anything gives the text and then what the rest gives. */
  lemma {:induction false} DecodeEncodedText(write: Coder, read: Reader, text: string, more: seq<Byte>)
    requires Matches(write, read)
    ensures Decode(read, EncodeAll(write, text) + more) == After(text, Decode(read, more))
  {
    if text == [] {
      assert EncodeAll(write, text) + more == more;
      assert text + Decode(read, more).text == Decode(read, more).text;
    } else {
      var c, tail := text[0], EncodeAll(write, text[1..]) + more;
      Assoc(write(c), EncodeAll(write, text[1..]), more);
      DecodeCons(write, read, c, tail);
      DecodeEncodedText(write, read, text[1..], more);
      AfterCons(c, text[1..], Decode(read, more));
      assert text == [c] + text[1..];
    }
  }

  /** What cannot start a character cannot start one when more comes. */
  ghost predicate Settles(read: Reader) { forall s, more :: read(s).Malformed? ==> read(s + more).Malformed? }

  /** When more bytes come, the text only grows, and what cannot be decoded still cannot. */
  lemma DecodeGrows(write: Coder, read: Reader, s: seq<Byte>, more: seq<Byte>)
    requires Matches(write, read) && Settles(read)
    ensures Decode(read, s).text <= Decode(read, s + more).text
    ensures !Decode(read, s).ok ==> !Decode(read, s + more).ok
  {
    var d := Decode(read, s);
    DecodeSound(write, read, s);
    Assoc(EncodeAll(write, d.text), d.rest, more);
    DecodeEncodedText(write, read, d.text, d.rest + more);
  }

  // ---------- Piece by piece ----------

  /** One call of an incremental decoder: the bytes kept from before, a new piece, and whether it is
      the last. It raises when the bytes cannot be text, and, at the end, when a character is cut off. */
  function Feed(read: Reader, pending: seq<Byte>, piece: seq<Byte>, last: bool): Result<(string, seq<Byte>)>
    requires Advances(read)
  {
    var d := Decode(read, pending + piece);
    if !d.ok then Err("invalid bytes")
    else if last && d.rest != [] then Err("unexpected end of data")
    else Ok((d.text, d.rest))
  }

  /** However the bytes are cut into pieces, the decoder has at every point the text that all the bytes
      so far decode to, and it raises exactly when all the bytes so far cannot be decoded. */
  lemma FeedExact(write: Coder, read: Reader, text: string, pending: seq<Byte>, received: seq<Byte>, piece: seq<Byte>,
                  last: bool)
    requires Matches(write, read) && received == EncodeAll(write, text) + pending
    ensures var all := Decode(read, received + piece);
            && (Feed(read, pending, piece, last).Ok? <==> all.ok && (last ==> all.rest == []))
            && (Feed(read, pending, piece, last).Ok? ==>
                  var (t, rest) := Feed(read, pending, piece, last).value;
                  all.text == text + t && all.rest == rest && received + piece == EncodeAll(write, text + t) + rest)
  {
    DecodeEncodedText(write, read, text, pending + piece);
    Assoc(EncodeAll(write, text), pending, piece);
    DecodeSound(write, read, received + piece);
  }

  // ---------- Four bytes a character ----------

  ghost predicate FourWide(write: Coder) { forall c :: |write(c)| == 4 }

  lemma {:induction false} FourWideLength(write: Coder, text: string)
    requires FourWide(write)
    ensures |EncodeAll(write, text)| == 4 * |text|
  {
    if text != [] {
      FourWideLength(write, text[1..]);
    }
  }

  /** Cutting the bytes at multiples of four is cutting the text. */
  lemma FourWideSlice(write: Coder, text: string, i: nat, j: nat)
    requires FourWide(write) && i <= j <= |text|
    ensures |EncodeAll(write, text)| == 4 * |text|
    ensures EncodeAll(write, text)[4 * i..4 * j] == EncodeAll(write, text[i..j])
  {
    FourWideLength(write, text);
    assert text == text[..i] + text[i..j] + text[j..];
    FourWidePieces(write, text, text[..i], text[i..j], text[j..]);
  }

  lemma FourWidePieces(write: Coder, text: string, a: string, b: string, c: string)
    requires FourWide(write) && text == a + b + c && |EncodeAll(write, text)| == 4 * |text|
    ensures EncodeAll(write, text)[4 * |a|..4 * (|a| + |b|)] == EncodeAll(write, b)
  {
    FourWideLength(write, a);
    FourWideLength(write, b);
    Pieces(write, text, a, b, c);
    Middle(EncodeAll(write, a), EncodeAll(write, b), EncodeAll(write, c));
  }

  lemma Pieces(write: Coder, text: string, a: string, b: string, c: string)
    requires text == a + b + c
    ensures EncodeAll(write, text) == EncodeAll(write, a) + (EncodeAll(write, b) + EncodeAll(write, c))
  {
    assert text == a + (b + c);
    EncodeAllConcat(write, a, b + c);
    EncodeAllConcat(write, b, c);
  }

  /** So characters can be read at any offset. */
  lemma FourWideReadBack(write: Coder, read: Reader, text: string, i: nat, j: nat)
    requires Matches(write, read) && read([]).Incomplete? && FourWide(write) && i <= j <= |text|
    ensures |EncodeAll(write, text)| == 4 * |text|
    ensures Decode(read, EncodeAll(write, text)[4 * i..4 * j]).text == text[i..j]
  {
    FourWideSlice(write, text, i, j);
    DecodeWhole(write, read, text[i..j]);
  }

  lemma DecodeWhole(write: Coder, read: Reader, text: string)
    requires Matches(write, read) && read([]).Incomplete?
    ensures Decode(read, EncodeAll(write, text)) == Decoded(text, [], true)
  {
    DecodeEncodedText(write, read, text, []);
    assert EncodeAll(write, text) + [] == EncodeAll(write, text) && text + [] == text;
  }

  /** A text whose encoding the bytes start with is what they start to decode to. */
  lemma DecodePrefix(write: Coder, read: Reader, text: string, s: seq<Byte>)
    requires Matches(write, read) && EncodeAll(write, text) <= s
    ensures text <= Decode(read, s).text
  {
    var rest := s[|EncodeAll(write, text)|..];
    assert s == EncodeAll(write, text) + rest;
    DecodeEncodedText(write, read, text, rest);
  }
}
