/** Provider-safe function names (`_safe_function_part` of nodes/agent_mcp_runtime.py and
    nodes/agent_plugin_tool_loader.py): what a name becomes, and that it can be told apart again. */
module FunctionNames {
  import opened Results
  import opened Text

  /** Letters, digits and the hyphen */
  predicate IsWord(c: char) { 'A' <= c <= 'Z' || 'a' <= c <= 'z' || '0' <= c <= '9' || c == '-' }

  predicate Unsafe(c: char) { !IsWord(c) && c != '_' }
  predicate Underscore(c: char) { c == '_' }

  // ---------- The code ----------

  /** `re.sub` of every run of such characters by one underscore */
  function Squeeze(run: char -> bool, s: string): string {
    if s == [] then []
    else if !run(s[0]) then [s[0]] + Squeeze(run, s[1..])
    else if |s| > 1 && run(s[1]) then Squeeze(run, s[1..])
    else ['_'] + Squeeze(run, s[1..])
  }

  function DropLeft(s: string): string { if s != [] && s[0] == '_' then DropLeft(s[1..]) else s }

  function DropRight(s: string): string { if s != [] && s[|s| - 1] == '_' then DropRight(s[..|s| - 1]) else s }

  function SafeText(value: string): string {
    DropRight(DropLeft(Squeeze(Underscore, Squeeze(Unsafe, Strip(value)))))
  }

  /** `_safe_function_part` */
  function SafePart(value: string): Result<string> {
    if SafeText(value) == [] then Err("cannot be converted to a provider-safe function name") else Ok(SafeText(value))
  }

  // ---------- What it means: the words of a name ----------

  datatype Word = Word(text: string)

  /** The longest runs of letters, digits and hyphens */
  function Words(s: string): (ws: seq<Word>)
    ensures s != [] && IsWord(s[0]) ==> ws != []
  {
    if s == [] then [] else Pushed(s[0], |s| > 1 && IsWord(s[1]), Words(s[1..]))
  }

  /** A character in front of these words, the first of which may go on with it */
  function Pushed(c: char, goesOn: bool, rest: seq<Word>): seq<Word>
    requires goesOn ==> rest != []
  {
    if !IsWord(c) then rest
    else if goesOn then [Word([c] + rest[0].text)] + rest[1..]
    else [Word([c])] + rest
  }

  lemma PushedConcat(c: char, goesOn: bool, rest: seq<Word>, more: seq<Word>)
    requires goesOn ==> rest != []
    ensures Pushed(c, goesOn, rest + more) == Pushed(c, goesOn, rest) + more
  {
    if goesOn { assert (rest + more)[0] == rest[0] && (rest + more)[1..] == rest[1..] + more; }
  }

  /** The words with an underscore between each two */
  function Joined(ws: seq<Word>): string {
    if ws == [] then [] else if |ws| == 1 then ws[0].text else ws[0].text + "_" + Joined(ws[1..])
  }

  // ---------- No step changes the words ----------

  lemma {:induction false} SqueezeHead(run: char -> bool, s: string)
    requires forall c :: run(c) ==> !IsWord(c)
    ensures Squeeze(run, s) == [] <==> s == []
    ensures s != [] ==> (IsWord(Squeeze(run, s)[0]) <==> IsWord(s[0]))
  {
    if |s| > 1 && run(s[0]) && run(s[1]) { SqueezeHead(run, s[1..]); }
  }

  lemma {:induction false} SqueezeWords(run: char -> bool, s: string)
    requires forall c :: run(c) ==> !IsWord(c)
    ensures Words(Squeeze(run, s)) == Words(s)
  {
    if s != [] {
      var rest := Squeeze(run, s[1..]);
      SqueezeWords(run, s[1..]);
      SqueezeHead(run, s[1..]);
      if !run(s[0]) {
        assert ([s[0]] + rest)[1..] == rest;
      } else if !(|s| > 1 && run(s[1])) {
        assert (['_'] + rest)[1..] == rest;
      }
    }
  }

  lemma {:induction false} WordsSnoc(s: string, c: char)
    requires !IsWord(c)
    ensures Words(s + [c]) == Words(s)
  {
    if s == [] {
      assert ([] + [c])[1..] == [];
    } else {
      WordsSnoc(s[1..], c);
      assert (s + [c])[1..] == s[1..] + [c];
    }
  }

  /** A character that belongs to no word keeps the words on both sides apart. */
  lemma {:induction false} WordsAround(s: string, c: char, t: string)
    requires !IsWord(c)
    ensures Words(s + [c] + t) == Words(s) + Words(t)
  {
    var all := s + [c] + t;
    if s == [] {
      assert all == [c] + t;
      WordsTail(all);
    } else {
      WordsAround(s[1..], c, t);
      assert all[0] == s[0] && all[1..] == s[1..] + [c] + t;
      PushedConcat(s[0], |s| > 1 && IsWord(s[1]), Words(s[1..]), Words(t));
    }
  }

  lemma WordsTail(s: string)
    requires s != [] && !IsWord(s[0])
    ensures Words(s[1..]) == Words(s)
  {
  }

  lemma WordsInit(s: string)
    requires s != [] && !IsWord(s[|s| - 1])
    ensures Words(s[..|s| - 1]) == Words(s)
  {
    WordsSnoc(s[..|s| - 1], s[|s| - 1]);
    assert s == s[..|s| - 1] + [s[|s| - 1]];
  }

  lemma TrimLeftStep(s: string)
    requires s != [] && IsSpace(s[0])
    ensures TrimLeft(s) == TrimLeft(s[1..]) && !IsWord(s[0])
  {
  }

  lemma TrimLeftStays(s: string)
    requires s == [] || !IsSpace(s[0])
    ensures TrimLeft(s) == s
  {
  }

  lemma {:induction false} TrimLeftWords(s: string)
    ensures Words(TrimLeft(s)) == Words(s)
  {
    if s != [] && IsSpace(s[0]) {
      TrimLeftStep(s);
      TrimLeftWords(s[1..]);
      WordsTail(s);
    } else {
      TrimLeftStays(s);
    }
  }

  lemma {:induction false} TrimRightWords(s: string)
    ensures Words(TrimRight(s)) == Words(s)
  {
    if s != [] && IsSpace(s[|s| - 1]) {
      TrimRightWords(s[..|s| - 1]);
      WordsInit(s);
    }
  }

  lemma {:induction false} DropLeftWords(s: string)
    ensures Words(DropLeft(s)) == Words(s)
  {
    if s != [] && s[0] == '_' { DropLeftWords(s[1..]); }
  }

  lemma {:induction false} DropRightWords(s: string)
    ensures Words(DropRight(s)) == Words(s)
  {
    if s != [] && s[|s| - 1] == '_' {
      DropRightWords(s[..|s| - 1]);
      WordsInit(s);
    }
  }

  lemma SafeTextWords(value: string)
    ensures Words(SafeText(value)) == Words(value)
  {
    TrimLeftWords(value);
    TrimRightWords(TrimLeft(value));
    SqueezeWords(Unsafe, Strip(value));
    var once := Squeeze(Unsafe, Strip(value));
    SqueezeWords(Underscore, once);
    DropLeftWords(Squeeze(Underscore, once));
    DropRightWords(DropLeft(Squeeze(Underscore, once)));
  }

  // ---------- The shape of a part ----------

  predicate IsSafe(c: char) { IsWord(c) || c == '_' }

  predicate AllSafe(s: string) { forall i :: 0 <= i < |s| ==> IsSafe(s[i]) }

  predicate DoubleAt(s: string, i: int) { 0 <= i < |s| - 1 && s[i] == '_' == s[i + 1] }

  ghost predicate NoDouble(s: string) { forall i :: !DoubleAt(s, i) }

  /** Safe characters, no underscore at either end and no two of them together */
  ghost predicate IsPart(s: string) {
    s != [] && AllSafe(s) && NoDouble(s) && s[0] != '_' && s[|s| - 1] != '_'
  }

  lemma NoDoubleTail(s: string)
    requires s != [] && NoDouble(s)
    ensures NoDouble(s[1..])
  {
    forall i ensures !DoubleAt(s[1..], i) { assert !DoubleAt(s, i + 1); }
  }

  lemma NoDoubleInit(s: string)
    requires s != [] && NoDouble(s)
    ensures NoDouble(s[..|s| - 1])
  {
    var t := s[..|s| - 1];
    forall i ensures !DoubleAt(t, i) { assert !DoubleAt(s, i); }
  }

  lemma NoDoubleCons(c: char, s: string)
    requires NoDouble(s) && (c == '_' && s != [] ==> s[0] != '_')
    ensures NoDouble([c] + s)
  {
    forall i ensures !DoubleAt([c] + s, i) { assert !DoubleAt(s, i - 1); }
  }

  lemma {:induction false} SqueezeSafe(s: string)
    ensures AllSafe(Squeeze(Unsafe, s))
  {
    if s != [] { SqueezeSafe(s[1..]); }
  }

  lemma {:induction false} SqueezeSingles(s: string)
    requires AllSafe(s)
    ensures AllSafe(Squeeze(Underscore, s)) && NoDouble(Squeeze(Underscore, s))
  {
    if s != [] {
      SqueezeSingles(s[1..]);
      SqueezeHead(Underscore, s[1..]);
      var rest := Squeeze(Underscore, s[1..]);
      if rest != [] { assert rest[0] != '_' <==> IsWord(s[1]); }
      NoDoubleCons(s[0], if Underscore(s[0]) && rest != [] && rest[0] == '_' then [] else rest);
    }
  }

  lemma {:induction false} DropLeftShape(s: string)
    requires AllSafe(s) && NoDouble(s)
    ensures AllSafe(DropLeft(s)) && NoDouble(DropLeft(s)) && (DropLeft(s) != [] ==> DropLeft(s)[0] != '_')
  {
    if s != [] && s[0] == '_' {
      NoDoubleTail(s);
      DropLeftShape(s[1..]);
    }
  }

  lemma {:induction false} DropRightShape(s: string)
    requires AllSafe(s) && NoDouble(s) && (s != [] ==> s[0] != '_')
    ensures DropRight(s) == [] || IsPart(DropRight(s))
  {
    if s != [] && s[|s| - 1] == '_' {
      NoDoubleInit(s);
      DropRightShape(s[..|s| - 1]);
    }
  }

  lemma SafeTextShape(value: string)
    ensures SafeText(value) == [] || IsPart(SafeText(value))
  {
    var once := Squeeze(Unsafe, Strip(value));
    SqueezeSafe(Strip(value));
    SqueezeSingles(once);
    DropLeftShape(Squeeze(Underscore, once));
    DropRightShape(DropLeft(Squeeze(Underscore, once)));
  }

  // ---------- Parts are words joined ----------

  lemma JoinedExtends(c: char, ws: seq<Word>)
    requires ws != []
    ensures Joined([Word([c] + ws[0].text)] + ws[1..]) == [c] + Joined(ws)
  {
    var more := [Word([c] + ws[0].text)] + ws[1..];
    assert more[1..] == ws[1..];
    if |ws| > 1 {
      assert [c] + ws[0].text + "_" + Joined(ws[1..]) == [c] + (ws[0].text + "_" + Joined(ws[1..]));
    }
  }

  lemma JoinedStarts(c: char, ws: seq<Word>)
    requires ws != []
    ensures Joined([Word([c])] + ws) == [c] + "_" + Joined(ws)
  {
    assert ([Word([c])] + ws)[1..] == ws;
  }

  /** Without the underscore it may start with */
  function Bare(s: string): string { if s != [] && s[0] == '_' then s[1..] else s }

  lemma {:induction false} PartIsJoined(s: string)
    requires AllSafe(s) && NoDouble(s) && (s != [] ==> s[|s| - 1] != '_')
    ensures Joined(Words(s)) == Bare(s)
  {
    if s != [] {
      var rest := s[1..];
      NoDoubleTail(s);
      PartIsJoined(rest);
      if s[0] == '_' {
        assert !DoubleAt(s, 0);
      } else if rest == [] {
        assert Words(s) == [Word([s[0]])];
      } else if IsWord(s[1]) {
        JoinedExtends(s[0], Words(rest));
        assert s == [s[0]] + rest;
      } else {
        assert s[1] == '_';
        assert Words(rest) != [] by { assert Joined(Words(rest)) == rest[1..]; }
        JoinedStarts(s[0], Words(rest));
        assert s == [s[0]] + "_" + rest[1..];
      }
    }
  }

  /** The two substitutions and the strippings together amount to joining the words of the name by
      underscores; a name without a word is refused. */
  lemma SafePartExact(value: string)
    ensures SafeText(value) == Joined(Words(value))
    ensures SafePart(value).Ok? <==> Words(value) != []
    ensures SafePart(value).Ok? ==> IsPart(SafePart(value).value)
  {
    SafeTextWords(value);
    SafeTextShape(value);
    PartIsJoined(SafeText(value));
    assert Words([]) == [];
  }

  lemma SafeTextIff(value: string)
    ensures SafeText(value) != [] <==> Words(value) != []
    ensures SafePart(value).Ok? <==> Words(value) != []
  {
    SafePartExact(value);
  }

  /** Two names become the same part exactly if they have the same words. */
  lemma SamePartIff(a: string, b: string)
    ensures SafeText(a) == SafeText(b) <==> Words(a) == Words(b)
  {
    SafePartExact(a);
    SafePartExact(b);
    SafeTextWords(a);
    SafeTextWords(b);
  }

  lemma PartStays(value: string)
    requires IsPart(value)
    ensures SafeText(value) == value
  {
    SafePartExact(value);
    PartIsJoined(value);
  }

  /** The names that stay as they are are exactly the parts; so sanitising twice changes nothing. */
  lemma SafePartFixedIff(value: string)
    ensures SafePart(value) == Ok(value) <==> IsPart(value)
    ensures SafePart(value).Ok? ==> SafePart(SafePart(value).value) == SafePart(value)
  {
    SafeTextShape(value);
    if IsPart(value) { PartStays(value); }
    if SafePart(value).Ok? { PartStays(SafeText(value)); }
  }

  // ---------- Names of two parts ----------

  /** `mcp__X__Y` and `plugin__X__Y` */
  function Qualified(kind: string, x: string, y: string): string { kind + "__" + x + "__" + y }

  /** The place of the first two underscores together, or the length */
  function FirstDouble(s: string): (i: nat)
    ensures i <= |s|
  {
    if |s| < 2 then |s| else if s[0] == '_' == s[1] then 0 else 1 + FirstDouble(s[1..])
  }

  lemma {:induction false} FirstDoubleOf(x: string, y: string)
    requires NoDouble(x) && (x != [] ==> x[|x| - 1] != '_')
    ensures FirstDouble(x + "__" + y) == |x|
  {
    if x != [] {
      NoDoubleTail(x);
      FirstDoubleOf(x[1..], y);
      assert (x + "__" + y)[1..] == x[1..] + "__" + y;
      assert !DoubleAt(x, 0);
    }
  }

  /** The two parts of a name of this kind */
  function Parts(kind: string, name: string): (string, string) {
    if |name| < |kind| + 2 then ([], []) else
      var body := name[|kind| + 2..];
      var k := FirstDouble(body);
      (body[..k], if k + 2 <= |body| then body[k + 2..] else [])
  }

  /** A qualified name tells its two parts. */
  lemma QualifiedDecodes(kind: string, x: string, y: string)
    requires IsPart(x)
    ensures Parts(kind, Qualified(kind, x, y)) == (x, y)
  {
    var body := x + "__" + y;
    FirstDoubleOf(x, y);
    assert Qualified(kind, x, y) == kind + "__" + body;
    assert Qualified(kind, x, y)[|kind| + 2..] == body;
    assert body[..|x|] == x && body[|x| + 2..] == y;
  }

  /** Two qualified names are the same exactly if the names they were made from have the same words. */
  lemma SameQualifiedIff(kind: string, a: string, b: string, a': string, b': string)
    requires SafePart(a).Ok? && SafePart(b).Ok? && SafePart(a').Ok? && SafePart(b').Ok?
    ensures Qualified(kind, SafeText(a), SafeText(b)) == Qualified(kind, SafeText(a'), SafeText(b')) <==>
            Words(a) == Words(a') && Words(b) == Words(b')
  {
    SafeTextShape(a);
    SafeTextShape(a');
    QualifiedDecodes(kind, SafeText(a), SafeText(b));
    QualifiedDecodes(kind, SafeText(a'), SafeText(b'));
    SamePartIff(a, a');
    SamePartIff(b, b');
  }
}
