/** The output of console sessions (functions/console_session_output.py, `snapshot` of
    functions/console_session_process.py, `_serialize` of functions/console_session_tools.py): a writer
    that drains a pipe into a spool and readers that page through it with cursors. */
module SessionOutput {
  import opened Basics
  import opened PrefixCode
  import opened Results
  import opened Utf8

  const MAX_CHARS := 16777216

  datatype Phase = Reading | Ending | Finished

  /** A stream: the characters captured, the bytes of an unfinished character, how capturing ended. */
  datatype Output = Output(text: string, pending: seq<Byte>, error: Option<string>, phase: Phase)

  const FRESH := Output([], [], None, Reading)

  lemma ReadersAdvance()
    ensures Advances(DecodeFirst) && Advances(ReadWord)
  {
  }

  /** What bytes decode to, all at once. */
  function DecodeUtf8(bytes: seq<Byte>): Decoded {
    ReadersAdvance();
    Decode(DecodeFirst, bytes)
  }

  // ---------- The writer ----------

  /** The incremental decoder: the characters now complete, and the bytes kept for the next call. */
  function DecodePiece(pending: seq<Byte>, piece: seq<Byte>): Result<(string, seq<Byte>)> {
    ReadersAdvance();
    Feed(DecodeFirst, pending, piece, piece == [])
  }

  /** A turn of the loop of `_drain` that got these bytes from the pipe; no bytes mean its end. */
  function Drain(o: Output, piece: seq<Byte>): Output {
    if !o.phase.Reading? then o else
      match DecodePiece(o.pending, piece)
      case Err(e) => o.(error := Some(e), phase := Ending)
      case Ok((text, pending)) =>
        if |o.text| + |text| > MAX_CHARS then o.(error := Some("limit exceeded"), phase := Ending)
        else o.(text := o.text + text, pending := pending, phase := if piece == [] then Ending else Reading)
  }

  /** The pipe cannot be read. */
  function Break(o: Output): Output {
    if o.phase.Reading? then o.(error := Some("read failed"), phase := Ending) else o
  }

  /** The `finally` of `_drain` */
  function Finish(o: Output): Output {
    if o.phase.Ending? then o.(phase := Finished) else o
  }

  // ---------- The reader ----------

  datatype Cursor = Cursor(session: string, out: int, err: int)

  datatype Snapshot = Snapshot(out: string, err: string, next: Cursor, hasMore: bool, complete: bool)

  /** `read`: the retained characters from an offset on, at most so many. */
  function Page(text: string, offset: int, limit: nat): Result<string> {
    if 0 <= offset <= |text| then Ok(text[offset..offset + Min(limit, |text| - offset)])
    else Err("Output cursor is outside the retained stream")
  }

  /** `snapshot` */
  function Snap(session: string, out: Output, err: Output, cursor: Option<Cursor>, size: nat): Result<Snapshot> {
    var c := if cursor.Some? then cursor.value else Cursor(session, 0, 0);
    if c.session != session then Err("Output cursor belongs to another session") else
      var outPage :- Page(out.text, c.out, size);
      var errPage :- Page(err.text, c.err, size);
      var next := Cursor(session, c.out + |outPage|, c.err + |errPage|);
      Ok(Snapshot(outPage, errPage, next,
                  next.out < |out.text| || next.err < |err.text|,
                  out.phase.Finished? && err.phase.Finished?))
  }

  // ---------- Runs: two writers and a reader that passes on the last cursor ----------

  /** Also the bytes received so far and everything the reader was given. */
  datatype World = World(session: string, out: Output, err: Output, outBytes: seq<Byte>, errBytes: seq<Byte>,
                         cursor: Option<Cursor>, gotOut: string, gotErr: string, last: Option<Snapshot>)

  datatype Action =
    | OutPiece(bytes: seq<Byte>) | OutBreaks | OutFinishes
    | ErrPiece(bytes: seq<Byte>) | ErrBreaks | ErrFinishes
    | ReadPage(size: nat)
    | DiscardPage(size: nat)       // a snapshot that was too long to submit

  function Received(o: Output, bytes: seq<Byte>, piece: seq<Byte>): seq<Byte> {
    if o.phase.Reading? then bytes + piece else bytes
  }

  function Step(w: World, a: Action): World {
    match a
    case OutPiece(piece) => w.(out := Drain(w.out, piece), outBytes := Received(w.out, w.outBytes, piece))
    case OutBreaks => w.(out := Break(w.out))
    case OutFinishes => w.(out := Finish(w.out))
    case ErrPiece(piece) => w.(err := Drain(w.err, piece), errBytes := Received(w.err, w.errBytes, piece))
    case ErrBreaks => w.(err := Break(w.err))
    case ErrFinishes => w.(err := Finish(w.err))
    case DiscardPage(_) => w
    case ReadPage(size) =>
      match Snap(w.session, w.out, w.err, w.cursor, size)
      case Err(_) => w
      case Ok(s) => w.(cursor := Some(s.next), gotOut := w.gotOut + s.out, gotErr := w.gotErr + s.err, last := Some(s))
  }

  function Run(w: World, actions: seq<Action>): World
    decreases |actions|
  {
    if actions == [] then w else Run(Step(w, actions[0]), actions[1..])
  }

  function Start(session: string): World { World(session, FRESH, FRESH, [], [], None, [], [], None) }

  // ---------- What is captured ----------

  /** The captured text encodes to the bytes received, up to a character still incomplete; when
      capturing failed, to a prefix of them; when it ended well, to all of them. */
  ghost predicate Captured(o: Output, bytes: seq<Byte>) {
    && |o.text| <= MAX_CHARS
    && EncodeAll(Encode, o.text) <= bytes
    && (o.error.None? ==> bytes == EncodeAll(Encode, o.text) + o.pending)
    && (o.error.None? && !o.phase.Reading? ==> o.pending == [])
    && (o.phase.Reading? ==> o.error.None?)
  }

  lemma DrainCaptures(o: Output, bytes: seq<Byte>, piece: seq<Byte>)
    requires Captured(o, bytes)
    ensures Captured(Drain(o, piece), Received(o, bytes, piece))
    ensures o.text <= Drain(o, piece).text
  {
    if o.phase.Reading? {
      ReadersAdvance();
      Utf8Matches();
      FeedExact(Encode, DecodeFirst, o.text, o.pending, bytes, piece, piece == []);
      PrefixGrows(EncodeAll(Encode, o.text), bytes, piece);
    }
  }

  lemma PrefixGrows(a: seq<Byte>, b: seq<Byte>, c: seq<Byte>)
    requires a <= b
    ensures a <= b + c
  {
  }

  /** What comes through a pipe: bytes, until it ends. */
  datatype Pipe = Pipe(bytes: seq<Byte>, ended: bool)

  const SILENT := Pipe([], false)

  /** One more piece comes; an empty one means that the pipe has ended. */
  function Filled(p: Pipe, piece: seq<Byte>): Pipe {
    if p.ended then p else Pipe(p.bytes + piece, piece == [])
  }

  function OutPipe(p: Pipe, actions: seq<Action>): Pipe
    decreases |actions|
  {
    if actions == [] then p
    else OutPipe(if actions[0].OutPiece? then Filled(p, actions[0].bytes) else p, actions[1..])
  }

  function ErrPipe(p: Pipe, actions: seq<Action>): Pipe
    decreases |actions|
  {
    if actions == [] then p
    else ErrPipe(if actions[0].ErrPiece? then Filled(p, actions[0].bytes) else p, actions[1..])
  }

  /** There is no error exactly if all that came through the pipe can be decoded, to no more characters than are
      retained, and no character is cut off when it has ended; and then the text is what it decodes to, and what
      is kept back are the bytes of the last, unfinished character. The writer reads on until there is an error
      or the pipe has ended. */
  ghost predicate Faithful(o: Output, p: Pipe) {
    var d := DecodeUtf8(p.bytes);
    && (o.error.None? <==> d.ok && |d.text| <= MAX_CHARS && (p.ended ==> d.rest == []))
    && (o.error.None? ==> o.text == d.text && o.pending == d.rest)
    && (o.phase.Reading? <==> o.error.None? && !p.ended)
  }

  lemma FreshIsFaithful()
    ensures Faithful(FRESH, SILENT)
  {
    Utf8Matches();
    DecodeWhole(Encode, DecodeFirst, []);
  }

  lemma Utf8Settles()
    ensures Settles(DecodeFirst)
  {
  }

  /** The decoded text and the bytes kept back are all that came. */
  lemma WholePipe(o: Output, p: Pipe)
    requires Faithful(o, p) && o.error.None?
    ensures p.bytes == EncodeAll(Encode, o.text) + o.pending
  {
    Utf8Matches();
    DecodeSound(Encode, DecodeFirst, p.bytes);
  }

  /** The writer takes the next piece. */
  lemma TakesPiece(o: Output, p: Pipe, piece: seq<Byte>)
    requires Faithful(o, p) && o.phase.Reading?
    ensures Faithful(Drain(o, piece), Filled(p, piece))
    ensures Drain(o, piece).error.Some? ==> Drain(o, piece).text == o.text
  {
    ReadersAdvance();
    Utf8Matches();
    WholePipe(o, p);
    FeedExact(Encode, DecodeFirst, o.text, o.pending, p.bytes, piece, piece == []);
  }

  /** The writer has given up, and the next piece cannot mend what was wrong. */
  lemma StaysWrong(o: Output, p: Pipe, piece: seq<Byte>)
    requires Faithful(o, p) && !o.phase.Reading?
    ensures Faithful(o, Filled(p, piece))
  {
    if !p.ended {
      Utf8Matches();
      Utf8Settles();
      DecodeGrows(Encode, DecodeFirst, p.bytes, piece);
    }
  }

  /** Every turn of the writer keeps that. A turn that fails captures nothing. */
  lemma DrainIsFaithful(o: Output, p: Pipe, piece: seq<Byte>)
    requires Faithful(o, p)
    ensures Faithful(Drain(o, piece), Filled(p, piece))
    ensures Drain(o, piece).error.Some? ==> Drain(o, piece).text == o.text
    ensures Faithful(Finish(o), p)
  {
    if o.phase.Reading? {
      TakesPiece(o, p, piece);
    } else {
      StaysWrong(o, p, piece);
    }
  }

  /** When the pipe breaks, what was captured is what the bytes before that decode to. */
  lemma BreakKeepsText(o: Output, p: Pipe)
    requires Faithful(o, p) && o.phase.Reading?
    ensures Break(o).error.Some? && Break(o).phase.Ending? && Break(o).text == DecodeUtf8(p.bytes).text
  {
  }

  lemma {:induction false} OutIsFaithful(w: World, p: Pipe, actions: seq<Action>)
    requires Faithful(w.out, p) && OutBreaks !in actions
    ensures Faithful(Run(w, actions).out, OutPipe(p, actions))
    decreases |actions|
  {
    if actions != [] {
      var a := actions[0];
      assert a in actions && forall b <- actions[1..] :: b in actions;
      DrainIsFaithful(w.out, p, if a.OutPiece? then a.bytes else []);
      OutIsFaithful(Step(w, a), if a.OutPiece? then Filled(p, a.bytes) else p, actions[1..]);
    }
  }

  lemma {:induction false} ErrIsFaithful(w: World, p: Pipe, actions: seq<Action>)
    requires Faithful(w.err, p) && ErrBreaks !in actions
    ensures Faithful(Run(w, actions).err, ErrPipe(p, actions))
    decreases |actions|
  {
    if actions != [] {
      var a := actions[0];
      assert a in actions && forall b <- actions[1..] :: b in actions;
      DrainIsFaithful(w.err, p, if a.ErrPiece? then a.bytes else []);
      ErrIsFaithful(Step(w, a), if a.ErrPiece? then Filled(p, a.bytes) else p, actions[1..]);
    }
  }

  /** So it is at every point of every run, for each of the two streams whose pipe does not break. */
  lemma RunCaptures(session: string, actions: seq<Action>)
    ensures var w := Run(Start(session), actions);
            && (OutBreaks !in actions ==> Faithful(w.out, OutPipe(SILENT, actions)))
            && (ErrBreaks !in actions ==> Faithful(w.err, ErrPipe(SILENT, actions)))
  {
    FreshIsFaithful();
    if OutBreaks !in actions { OutIsFaithful(Start(session), SILENT, actions); }
    if ErrBreaks !in actions { ErrIsFaithful(Start(session), SILENT, actions); }
  }

  /** What is captured is the beginning of what all the bytes received decode to, and all of it when
      capturing ended without an error. */
  lemma CapturedIsDecoded(o: Output, bytes: seq<Byte>)
    requires Captured(o, bytes)
    ensures o.text <= DecodeUtf8(bytes).text
    ensures o.error.None? && !o.phase.Reading? ==> DecodeUtf8(bytes) == Decoded(o.text, [], true)
  {
    Utf8Matches();
    DecodePrefix(Encode, DecodeFirst, o.text, bytes);
    if o.error.None? && !o.phase.Reading? {
      assert EncodeAll(Encode, o.text) + [] == EncodeAll(Encode, o.text);
      DecodeWhole(Encode, DecodeFirst, o.text);
    }
  }

  // ---------- What is read ----------

  ghost predicate UpTo(got: string, text: string, at: int) { 0 <= at <= |text| && got == text[..at] }

  /** The reader has exactly the characters before its cursor; once it was told that the output is
      complete and that there is no more, it has them all. */
  ghost predicate Inv(w: World) {
    && Captured(w.out, w.outBytes) && Captured(w.err, w.errBytes)
    && (w.cursor.Some? ==> w.cursor.value.session == w.session)
    && UpTo(w.gotOut, w.out.text, if w.cursor.Some? then w.cursor.value.out else 0)
    && UpTo(w.gotErr, w.err.text, if w.cursor.Some? then w.cursor.value.err else 0)
    && (w.last.Some? && !w.last.value.hasMore && w.last.value.complete ==>
          w.out.phase.Finished? && w.err.phase.Finished? && w.gotOut == w.out.text && w.gotErr == w.err.text)
  }

  lemma PageUpTo(got: string, text: string, at: int, size: nat)
    requires UpTo(got, text, at)
    ensures Page(text, at, size).Ok?
    ensures UpTo(got + Page(text, at, size).value, text, at + |Page(text, at, size).value|)
  {
    var k := at + Min(size, |text| - at);
    assert text[..at] + text[at..k] == text[..k];
  }

  lemma StillUpTo(got: string, text: string, more: string, at: int)
    requires UpTo(got, text, at) && text <= more
    ensures UpTo(got, more, at)
  {
    assert more[..at] == text[..at];
  }

  function At(w: World): (int, int) { if w.cursor.Some? then (w.cursor.value.out, w.cursor.value.err) else (0, 0) }

  lemma OutKeeps(w: World, out: Output, bytes: seq<Byte>)
    requires Inv(w) && Captured(out, bytes) && w.out.text <= out.text
    requires w.out.phase.Finished? ==> out == w.out
    ensures Inv(w.(out := out, outBytes := bytes))
  {
    StillUpTo(w.gotOut, w.out.text, out.text, At(w).0);
  }

  lemma ErrKeeps(w: World, err: Output, bytes: seq<Byte>)
    requires Inv(w) && Captured(err, bytes) && w.err.text <= err.text
    requires w.err.phase.Finished? ==> err == w.err
    ensures Inv(w.(err := err, errBytes := bytes))
  {
    StillUpTo(w.gotErr, w.err.text, err.text, At(w).1);
  }

  /** A read with the cursor the reader holds succeeds, and takes the reader on by the page. */
  lemma SnapMoves(w: World, size: nat)
    requires Inv(w)
    ensures Snap(w.session, w.out, w.err, w.cursor, size).Ok?
    ensures var s := Snap(w.session, w.out, w.err, w.cursor, size).value;
            && s.next.session == w.session
            && UpTo(w.gotOut + s.out, w.out.text, s.next.out)
            && UpTo(w.gotErr + s.err, w.err.text, s.next.err)
            && s.hasMore == (s.next.out < |w.out.text| || s.next.err < |w.err.text|)
            && s.complete == (w.out.phase.Finished? && w.err.phase.Finished?)
            && |s.out| == Min(size, |w.out.text| - At(w).0) && |s.err| == Min(size, |w.err.text| - At(w).1)
  {
    PageUpTo(w.gotOut, w.out.text, At(w).0, size);
    PageUpTo(w.gotErr, w.err.text, At(w).1, size);
  }

  /** A snapshot fails exactly on a cursor of another session or outside a stream. */
  lemma SnapFailsIff(session: string, out: Output, err: Output, cursor: Option<Cursor>, size: nat)
    ensures Snap(session, out, err, cursor, size).Err? <==>
            cursor.Some? &&
            (cursor.value.session != session
             || !(0 <= cursor.value.out <= |out.text|) || !(0 <= cursor.value.err <= |err.text|))
  {
  }

  lemma UpToEnd(got: string, text: string, at: int)
    requires UpTo(got, text, at) && at >= |text|
    ensures got == text
  {
  }

  lemma ReadKeeps(w: World, size: nat)
    requires Inv(w)
    ensures Inv(Step(w, ReadPage(size)))
  {
    SnapMoves(w, size);
    var s := Snap(w.session, w.out, w.err, w.cursor, size).value;
    if !s.hasMore {
      UpToEnd(w.gotOut + s.out, w.out.text, s.next.out);
      UpToEnd(w.gotErr + s.err, w.err.text, s.next.err);
    }
  }

  /** Every step keeps it, in whatever order writers and reader take turns. */
  lemma StepKeeps(w: World, a: Action)
    requires Inv(w)
    ensures Inv(Step(w, a))
  {
    match a
    case OutPiece(piece) =>
      DrainCaptures(w.out, w.outBytes, piece);
      OutKeeps(w, Drain(w.out, piece), Received(w.out, w.outBytes, piece));
    case OutBreaks => OutKeeps(w, Break(w.out), w.outBytes);
    case OutFinishes => OutKeeps(w, Finish(w.out), w.outBytes);
    case ErrPiece(piece) =>
      DrainCaptures(w.err, w.errBytes, piece);
      ErrKeeps(w, Drain(w.err, piece), Received(w.err, w.errBytes, piece));
    case ErrBreaks => ErrKeeps(w, Break(w.err), w.errBytes);
    case ErrFinishes => ErrKeeps(w, Finish(w.err), w.errBytes);
    case ReadPage(size) => ReadKeeps(w, size);
    case DiscardPage(_) =>
  }

  lemma {:induction false} RunKeeps(w: World, actions: seq<Action>)
    requires Inv(w)
    ensures Inv(Run(w, actions))
    decreases |actions|
  {
    if actions != [] {
      StepKeeps(w, actions[0]);
      RunKeeps(Step(w, actions[0]), actions[1..]);
    }
  }

  /** Reads that pass on the cursor lose and repeat nothing: under every interleaving of writers and
      reader, with any page sizes and any discarded pages, what the reader got is a prefix of what was
      captured, which is a prefix of what the bytes decode to; and when a page says that there is no
      more and the output is complete, the reader has everything that was captured, which is all that
      the bytes decode to unless capturing failed. */
  lemma ReadsLoseNothing(session: string, actions: seq<Action>)
    ensures var w := Run(Start(session), actions);
            && w.gotOut <= w.out.text <= DecodeUtf8(w.outBytes).text
            && w.gotErr <= w.err.text <= DecodeUtf8(w.errBytes).text
            && (w.last.Some? && !w.last.value.hasMore && w.last.value.complete ==>
                  && w.gotOut == w.out.text && w.gotErr == w.err.text
                  && (w.out.error.None? ==> DecodeUtf8(w.outBytes) == Decoded(w.gotOut, [], true))
                  && (w.err.error.None? ==> DecodeUtf8(w.errBytes) == Decoded(w.gotErr, [], true)))
  {
    RunKeeps(Start(session), actions);
    var w := Run(Start(session), actions);
    CapturedIsDecoded(w.out, w.outBytes);
    CapturedIsDecoded(w.err, w.errBytes);
  }

  // ---------- The code ----------

  /** `SessionOutput`: the stream as it is kept, four spool bytes a character. */
  class Stream {
    var spool: seq<Byte>
    var length: nat
    var pending: seq<Byte>
    var error: Option<string>
    var phase: Phase
    ghost var text: string

    ghost predicate Valid()
      reads this
    {
      spool == EncodeAll(Word, text) && length == |text|
    }

    ghost function Now(): Output
      reads this
    {
      Output(text, pending, error, phase)
    }

    constructor ()
      ensures Valid() && Now() == FRESH
    {
      spool, length, pending, error, phase, text := [], 0, [], None, Reading, [];
    }

    /** The write of `_drain`, under the lock that readers take */
    method Append(more: string)
      requires Valid()
      modifies this`spool, this`length, this`text
      ensures Valid() && text == old(text) + more
    {
      EncodeAllConcat(Word, text, more);
      spool := spool + EncodeAll(Word, more);
      length, text := length + |more|, text + more;
    }

    /** A turn of the loop of `_drain` */
    method DrainPiece(piece: seq<Byte>)
      requires Valid() && phase.Reading?
      modifies this
      ensures Valid() && Now() == Drain(old(Now()), piece)
    {
      var decoded := DecodePiece(pending, piece);
      if decoded.Err? {
        error, phase := Some(decoded.error), Ending;
        return;
      }
      var (more, rest) := decoded.value;
      if length + |more| > MAX_CHARS {
        error, phase := Some("limit exceeded"), Ending;
        return;
      }
      Append(more);
      pending := rest;
      if piece == [] {
        phase := Ending;
      }
    }

    /** `read`: seeks four bytes a character into the spool and decodes as many. */
    method ReadFrom(offset: int, limit: nat) returns (r: Result<string>)
      requires Valid()
      ensures r.Ok? <==> 0 <= offset <= |text|
      ensures r == Page(text, offset, limit)
    {
      if !(0 <= offset <= length) {
        return Err("Output cursor is outside the retained stream");
      }
      var count := Min(limit, length - offset);
      SpoolReadBack(text, offset, offset + count);
      var bytes := spool[4 * offset..4 * (offset + count)];
      r := Ok(Unspool(bytes));
    }
  }

  /** The text that spool bytes decode to */
  function Unspool(bytes: seq<Byte>): string {
    ReadersAdvance();
    Decode(ReadWord, bytes).text
  }

  lemma SpoolReadBack(text: string, i: nat, j: nat)
    requires i <= j <= |text|
    ensures |EncodeAll(Word, text)| == 4 * |text|
    ensures Unspool(EncodeAll(Word, text)[4 * i..4 * j]) == text[i..j]
  {
    SpoolMatches();
    FourWideReadBack(Word, ReadWord, text, i, j);
  }

  /** `snapshot` over the two streams of a session */
  method TakeSnapshot(session: string, out: Stream, err: Stream, cursor: Option<Cursor>, size: nat)
    returns (r: Result<Snapshot>)
    requires out.Valid() && err.Valid()
    ensures r == Snap(session, out.Now(), err.Now(), cursor, size)
  {
    var c := if cursor.Some? then cursor.value else Cursor(session, 0, 0);
    if c.session != session {
      return Err("Output cursor belongs to another session");
    }
    var outPage := out.ReadFrom(c.out, size);
    if outPage.Err? {
      return Err(outPage.error);
    }
    var errPage := err.ReadFrom(c.err, size);
    if errPage.Err? {
      return Err(errPage.error);
    }
    var next := Cursor(session, c.out + |outPage.value|, c.err + |errPage.value|);
    r := Ok(Snapshot(outPage.value, errPage.value, next, next.out < out.length || next.err < err.length,
                     out.phase.Finished? && err.phase.Finished?));
  }

  /** The size of the k-th attempt */
  function Halved(maxChars: nat, k: nat): nat {
    if k == 0 then maxChars else Max(1, Halved(maxChars, k - 1) / 2)
  }

  /** What the k-th attempt gives, with pages of this size */
  type Taker = (nat, nat) -> Result<Snapshot>

  /** The k-th attempt made a page, and it was too long. */
  ghost predicate TooLong(take: Taker, size: nat, k: nat, limit: Option<nat>, render: Snapshot -> nat) {
    take(k, size).Ok? && limit.Some? && render(take(k, size).value) > limit.value
  }

  /** So did the n attempts before. */
  ghost predicate AllTooLong(take: Taker, maxChars: nat, n: nat, limit: Option<nat>, render: Snapshot -> nat) {
    forall k :: 0 <= k < n ==> TooLong(take, Halved(maxChars, k), k, limit, render)
  }

  /** The loop of `_serialize`, whatever is taken */
  method Retry(take: Taker, maxChars: nat, limit: Option<nat>, render: Snapshot -> nat)
    returns (r: Result<Snapshot>, size: nat, attempt: nat)
    requires maxChars >= 1
    ensures 1 <= size <= maxChars && size == Halved(maxChars, attempt)
    ensures AllTooLong(take, maxChars, attempt, limit, render)
    ensures limit.None? ==> attempt == 0
    ensures r.Ok? ==> take(attempt, size) == r && (limit.Some? ==> render(r.value) <= limit.value)
    ensures r.Err? ==> take(attempt, size).Err? || (size == 1 && TooLong(take, size, attempt, limit, render))
  {
    attempt, size := 0, maxChars;
    while true
      invariant 1 <= size <= maxChars && size == Halved(maxChars, attempt)
      invariant AllTooLong(take, maxChars, attempt, limit, render)
      invariant limit.None? ==> attempt == 0
      decreases size
    {
      var s := take(attempt, size);
      if s.Err? || limit.None? || render(s.value) <= limit.value {
        return s, size, attempt;
      }
      if size == 1 {
        return Err("Session metadata exceeds toolResultSubmissionMaxChars"), size, attempt;
      }
      assert TooLong(take, Halved(maxChars, attempt), attempt, limit, render);
      size, attempt := Max(1, size / 2), attempt + 1;
    }
  }

  /** Snapshots of a session while its writers go on: `seen(k)` is the session as the k-th attempt finds it. */
  function Snapping(session: string, seen: nat -> (Output, Output), cursor: Option<Cursor>): Taker {
    (k: nat, size: nat) => Snap(session, seen(k).0, seen(k).1, cursor, size)
  }

  /** `_serialize`: retries with half the size while the serialised snapshot is too long. A page is returned
      only if it fits, and it is the page of the size it was taken with; every larger size that was tried
      gave a page that was too long, so that without a limit the first is returned. The call fails only on a
      cursor that is no good or when a page of one character is too long. */
  method Serialize(session: string, seen: nat -> (Output, Output), cursor: Option<Cursor>, maxChars: int,
                   limit: Option<nat>, render: Snapshot -> nat) returns (r: Result<Snapshot>, size: nat, attempt: nat)
    ensures r.Ok? ==>
      && 1 <= size <= maxChars <= 65536
      && Snap(session, seen(attempt).0, seen(attempt).1, cursor, size) == r
      && (limit.Some? ==> render(r.value) <= limit.value)
    ensures r.Err? && 1 <= maxChars <= 65536 ==>
      || Snap(session, seen(attempt).0, seen(attempt).1, cursor, size).Err?
      || (size == 1 && TooLong(Snapping(session, seen, cursor), 1, attempt, limit, render))
    ensures 1 <= maxChars <= 65536 ==>
      && size == Halved(maxChars, attempt)
      && AllTooLong(Snapping(session, seen, cursor), maxChars, attempt, limit, render)
    ensures 1 <= maxChars <= 65536 && limit.None? ==> size == maxChars && attempt == 0
  {
    if !(1 <= maxChars <= 65536) {
      return Err("max_chars must be an integer between 1 and 65536"), 1, 0;
    }
    r, size, attempt := Retry(Snapping(session, seen, cursor), maxChars, limit, render);
  }
}
