/** The pytest progress watchdog (functions/console_progress_watchdog.py).

    The code recognises progress byte by byte. The specification looks at whole lines: how many glyphs
    of a line count, and whether a finished line shows a verbose status. */
module ProgressWatchdog {
  import opened Basics

  const LINE_FEED: Byte := 10
  const CARRIAGE_RETURN: Byte := 13
  const DOT: Byte := 46
  const MAX_LINE_BUFFER_BYTES := 4096

  /** One of ".FEsxX". */
  predicate Glyph(b: Byte) { b == DOT || b == 70 || b == 69 || b == 115 || b == 120 || b == 88 }
  predicate Space(b: Byte) { b == 32 || b == 9 }

  // ---------- Specification: lines ----------

  function WithoutReturns(s: seq<Byte>): seq<Byte> {
    if s == [] then []
    else WithoutReturns(s[..|s| - 1]) + (if s[|s| - 1] == CARRIAGE_RETURN then [] else [s[|s| - 1]])
  }

  /** The lines of a stream: the finished ones and, last, the one in progress. */
  function Lines(s: seq<Byte>): (lines: seq<seq<Byte>>)
    ensures lines != []
  {
    if s == [] then [[]] else
      var before := Lines(s[..|s| - 1]);
      var b := s[|s| - 1];
      if b == LINE_FEED then before + [[]]
      else before[..|before| - 1] + [before[|before| - 1] + [b]]
  }

  function Unlines(lines: seq<seq<Byte>>): seq<Byte>
    requires lines != []
  {
    if |lines| == 1 then lines[0] else Unlines(lines[..|lines| - 1]) + [LINE_FEED] + lines[|lines| - 1]
  }

  /** The lines are the stream cut at its line feeds. */
  lemma {:induction false} LinesExact(s: seq<Byte>)
    ensures Unlines(Lines(s)) == s
    ensures forall i :: 0 <= i < |Lines(s)| ==> LINE_FEED !in Lines(s)[i]
  {
    if s != [] {
      var before, b := Lines(s[..|s| - 1]), s[|s| - 1];
      LinesExact(s[..|s| - 1]);
      assert s == s[..|s| - 1] + [b];
      if b == LINE_FEED {
        assert Lines(s)[..|Lines(s)| - 1] == before;
      } else {
        assert Lines(s)[..|Lines(s)| - 1] == before[..|before| - 1];
      }
    }
  }

  // ---------- Specification: one line ----------

  function Glyphs(s: seq<Byte>): nat {
    if s == [] then 0 else Glyphs(s[..|s| - 1]) + (if Glyph(s[|s| - 1]) then 1 else 0)
  }

  predicate HasTerminal(s: seq<Byte>) { exists i :: 0 <= i < |s| && Glyph(s[i]) && s[i] != DOT }

  /** All the glyphs of a run count once it has four, or two when one is not a dot; before, none. */
  function Reported(s: seq<Byte>): nat {
    if Glyphs(s) >= (if HasTerminal(s) then 2 else 4) then Glyphs(s) else 0
  }

  /** A run of glyphs; spaces may come before the first glyph or once the run counts. */
  predicate QuietRun(s: seq<Byte>) {
    forall i :: 0 <= i < |s| ==> Glyph(s[i]) || (Space(s[i]) && (Glyphs(s[..i]) == 0 || Reported(s[..i]) > 0))
  }

  /** The longest run a line starts with. */
  function RunLength(line: seq<Byte>): (k: nat)
    ensures k <= |line|
  {
    if QuietRun(line) then |line| else RunLength(line[..|line| - 1])
  }

  lemma {:induction false} RunLengthExact(line: seq<Byte>)
    ensures QuietRun(line[..RunLength(line)])
    ensures forall k :: RunLength(line) < k <= |line| ==> !QuietRun(line[..k])
  {
    if QuietRun(line) {
      assert line[..|line|] == line;
    } else {
      var shorter := line[..|line| - 1];
      RunLengthExact(shorter);
      assert line[..RunLength(line)] == shorter[..RunLength(line)];
      forall k | RunLength(line) < k <= |line| ensures !QuietRun(line[..k]) {
        if k == |line| {
          assert line[..k] == line;
        } else {
          assert line[..k] == shorter[..k];
        }
      }
    }
  }

  function QuietEvents(line: seq<Byte>): nat { Reported(line[..RunLength(line)]) }

  /** The bytes of a line that are remembered. */
  function Tail(line: seq<Byte>): seq<Byte> {
    if |line| <= MAX_LINE_BUFFER_BYTES then line else line[|line| - MAX_LINE_BUFFER_BYTES..]
  }

  /** What a finished line adds: its quiet glyphs, and one if its remembered end shows a status. */
  function LineEvents(line: seq<Byte>, shows: seq<Byte> -> bool): nat {
    QuietEvents(line) + (if shows(Tail(line)) then 1 else 0)
  }

  function Sum(lines: seq<seq<Byte>>, shows: seq<Byte> -> bool): nat {
    if lines == [] then 0 else Sum(lines[..|lines| - 1], shows) + LineEvents(lines[|lines| - 1], shows)
  }

  /** The progress events of a stream: those of its finished lines and the quiet ones of its last. */
  function Events(stream: seq<Byte>, shows: seq<Byte> -> bool): nat {
    var lines := Lines(WithoutReturns(stream));
    Sum(lines[..|lines| - 1], shows) + QuietEvents(lines[|lines| - 1])
  }

  function Concat(chunks: seq<seq<Byte>>): seq<Byte> {
    if chunks == [] then [] else Concat(chunks[..|chunks| - 1]) + chunks[|chunks| - 1]
  }

  // ---------- One more byte ----------

  lemma SnocFacts(s: seq<Byte>, b: Byte)
    ensures Glyphs(s + [b]) == Glyphs(s) + (if Glyph(b) then 1 else 0)
    ensures HasTerminal(s + [b]) <==> HasTerminal(s) || (Glyph(b) && b != DOT)
  {
    var t := s + [b];
    assert t[..|s|] == s;
    if Glyph(b) && b != DOT { assert t[|s|] == b; }
    if HasTerminal(s) {
      var i :| 0 <= i < |s| && Glyph(s[i]) && s[i] != DOT;
      assert t[i] == s[i];
    }
  }

  lemma QuietRunSnoc(s: seq<Byte>, b: Byte)
    ensures QuietRun(s + [b]) <==> QuietRun(s) && (Glyph(b) || (Space(b) && (Glyphs(s) == 0 || Reported(s) > 0)))
  {
    var t := s + [b];
    assert t[..|s|] == s && t[|s|] == b;
    if QuietRun(t) {
      forall i | 0 <= i < |s|
        ensures Glyph(s[i]) || (Space(s[i]) && (Glyphs(s[..i]) == 0 || Reported(s[..i]) > 0))
      {
        assert s[i] == t[i] && s[..i] == t[..i];
      }
    }
    if QuietRun(s) {
      forall i | 0 <= i < |s|
        ensures Glyph(t[i]) || (Space(t[i]) && (Glyphs(t[..i]) == 0 || Reported(t[..i]) > 0))
      {
        assert s[i] == t[i] && s[..i] == t[..i];
      }
    }
  }

  /** The longest run grows with the line exactly while the line is a run. */
  lemma RunSnoc(s: seq<Byte>, b: Byte)
    ensures var t := s + [b];
            t[..RunLength(t)] == if QuietRun(t) then t else s[..RunLength(s)]
    ensures QuietRun(s) ==> s[..RunLength(s)] == s
  {
    var t := s + [b];
    assert t[..|s|] == s;
    if QuietRun(t) {
      assert t[..|t|] == t;
    } else {
      assert t[..RunLength(t)] == s[..RunLength(s)];
    }
    assert s[..|s|] == s;
  }

  lemma WithoutReturnsSnoc(s: seq<Byte>, b: Byte)
    ensures WithoutReturns(s + [b]) == WithoutReturns(s) + (if b == CARRIAGE_RETURN then [] else [b])
  {
    assert (s + [b])[..|s|] == s;
  }

  /** The line in progress. */
  function Current(stream: seq<Byte>): seq<Byte> {
    var lines := Lines(WithoutReturns(stream));
    lines[|lines| - 1]
  }

  function Finished(stream: seq<Byte>): seq<seq<Byte>> {
    var lines := Lines(WithoutReturns(stream));
    lines[..|lines| - 1]
  }

  lemma StreamSnoc(s: seq<Byte>, b: Byte)
    ensures b == CARRIAGE_RETURN ==> Current(s + [b]) == Current(s) && Finished(s + [b]) == Finished(s)
    ensures b == LINE_FEED ==> Current(s + [b]) == [] && Finished(s + [b]) == Finished(s) + [Current(s)]
    ensures b != CARRIAGE_RETURN && b != LINE_FEED ==>
            Current(s + [b]) == Current(s) + [b] && Finished(s + [b]) == Finished(s)
  {
    WithoutReturnsSnoc(s, b);
    var w := WithoutReturns(s);
    if b == CARRIAGE_RETURN {
      assert w + [] == w;
    } else {
      assert (w + [b])[..|w|] == w;
    }
  }

  lemma SumSnoc(lines: seq<seq<Byte>>, line: seq<Byte>, shows: seq<Byte> -> bool)
    ensures Sum(lines + [line], shows) == Sum(lines, shows) + LineEvents(line, shows)
  {
    assert (lines + [line])[..|lines|] == lines;
  }

  /** The line in progress after one more byte. */
  function NextLine(current: seq<Byte>, b: Byte): seq<Byte> {
    if b == CARRIAGE_RETURN then current else if b == LINE_FEED then [] else current + [b]
  }

  /** What one more byte adds to the count. */
  function Added(current: seq<Byte>, b: Byte, shows: seq<Byte> -> bool): int {
    if b == CARRIAGE_RETURN then 0
    else if b == LINE_FEED then (if shows(Tail(current)) then 1 else 0)
    else QuietEvents(current + [b]) - QuietEvents(current)
  }

  lemma EventsSnoc(s: seq<Byte>, b: Byte, shows: seq<Byte> -> bool)
    ensures Current(s + [b]) == NextLine(Current(s), b)
    ensures Events(s + [b], shows) == Events(s, shows) + Added(Current(s), b, shows)
  {
    StreamSnoc(s, b);
    EventsSplit(s, shows);
    EventsSplit(s + [b], shows);
    if b == LINE_FEED {
      SumSnoc(Finished(s), Current(s), shows);
      NoEvents();
    }
  }

  lemma NoEvents()
    ensures QuietEvents([]) == 0
  {
  }

  lemma EventsSplit(s: seq<Byte>, shows: seq<Byte> -> bool)
    ensures Events(s, shows) == Sum(Finished(s), shows) + QuietEvents(Current(s))
  {
  }

  lemma ConcatStep(chunks: seq<seq<Byte>>, n: nat)
    requires n < |chunks|
    ensures Concat(chunks[..n + 1]) == Concat(chunks[..n]) + chunks[n]
  {
    assert chunks[..n + 1][..n] == chunks[..n];
  }

  lemma Regroup(s: seq<Byte>, data: seq<Byte>, n: nat)
    requires n < |data|
    ensures s + data[n..] == s + [data[n]] + data[n + 1..]
  {
  }

  // ---------- Observations ----------

  /** When the watchdog looked, and all the output it had seen then */
  datatype Observation = Observation(at: real, seen: seq<Byte>)

  function Seen(history: seq<Observation>): seq<Byte> {
    if history == [] then [] else history[|history| - 1].seen
  }

  /** The observation found more progress in the output than the one before. */
  predicate Rises(history: seq<Observation>, k: int, shows: seq<Byte> -> bool) {
    0 <= k < |history| && Events(history[k].seen, shows) > Events(Seen(history[..k]), shows)
  }

  /** When that was the case for the last time, or the start */
  function LastRise(startedAt: real, history: seq<Observation>, shows: seq<Byte> -> bool): real {
    if history == [] then startedAt
    else if Rises(history, |history| - 1, shows) then history[|history| - 1].at
    else LastRise(startedAt, history[..|history| - 1], shows)
  }

  /** The clock does not go back. */
  predicate InOrder(startedAt: real, history: seq<Observation>) {
    && (forall k :: 0 <= k < |history| ==> startedAt <= history[k].at)
    && (forall j, k :: 0 <= j < k < |history| ==> history[j].at <= history[k].at)
  }

  lemma LastRiseSnoc(startedAt: real, history: seq<Observation>, o: Observation, shows: seq<Byte> -> bool)
    ensures LastRise(startedAt, history + [o], shows) ==
            if Events(o.seen, shows) > Events(Seen(history), shows) then o.at else LastRise(startedAt, history, shows)
  {
    assert (history + [o])[..|history|] == history;
  }

  lemma RisesBefore(history: seq<Observation>, n: nat, k: int, shows: seq<Byte> -> bool)
    requires n <= |history| && k < n
    ensures Rises(history[..n], k, shows) <==> Rises(history, k, shows)
  {
    if 0 <= k { assert history[..n][..k] == history[..k]; }
  }

  /** The last rise is by this time exactly if the start and all rises are. */
  lemma {:induction false} LastRiseExact(startedAt: real, history: seq<Observation>, t: real, shows: seq<Byte> -> bool)
    requires InOrder(startedAt, history)
    ensures LastRise(startedAt, history, shows) <= t <==>
            startedAt <= t && forall k :: Rises(history, k, shows) ==> history[k].at <= t
  {
    if history != [] {
      var n := |history| - 1;
      LastRiseExact(startedAt, history[..n], t, shows);
      forall k | k < n ensures Rises(history[..n], k, shows) <==> Rises(history, k, shows) {
        RisesBefore(history, n, k, shows);
      }
    }
  }

  // ---------- The code ----------

  /** The list of output chunks that the process reader appends to. */
  class Chunks {
    var items: seq<seq<Byte>>

    constructor ()
      ensures items == []
    {
      items := [];
    }
  }

  class Watchdog {
    const chunks: Chunks
    const timeout: real
    const startedAt: real
    const shows: seq<Byte> -> bool      // whether a line shows a verbose test status

    var lastProgressAt: real
    var processed: nat
    var progressEvents: nat
    var line: seq<Byte>
    var candidate: bool
    var glyphCount: nat
    var reportedCount: nat
    var hasTerminal: bool
    ghost var consumed: seq<Byte>
    ghost var history: seq<Observation>

    /** The quiet-run fields describe the run that the line in progress starts with. */
    ghost predicate Tracks(current: seq<Byte>)
      reads this`candidate, this`glyphCount, this`reportedCount, this`hasTerminal
    {
      var run := current[..RunLength(current)];
      && candidate == QuietRun(current)
      && glyphCount == Glyphs(run) && reportedCount == Reported(run) && hasTerminal == HasTerminal(run)
    }

    ghost predicate At(current: seq<Byte>, events: int)
      reads this
    {
      line == Tail(current) && Tracks(current) && progressEvents == events
    }

    /** The fields tell the truth about the bytes consumed so far. */
    ghost predicate Scanned()
      reads this`candidate, this`glyphCount, this`reportedCount, this`hasTerminal, this`line, this`progressEvents,
        this`consumed
    {
      && line == Tail(Current(consumed))
      && Tracks(Current(consumed))
      && progressEvents == Events(consumed, shows)
    }

    ghost predicate Valid()
      reads this, chunks
    {
      Scanned() && processed <= |chunks.items| && consumed == Concat(chunks.items[..processed]) && Remembered()
    }

    /** The last observation saw what was consumed, and progress was last made when the count last rose. */
    ghost predicate Remembered()
      reads this`history, this`consumed, this`lastProgressAt
    {
      consumed == Seen(history) && lastProgressAt == LastRise(startedAt, history, shows)
    }

    constructor (chunks: Chunks, timeout: real, startedAt: real, shows: seq<Byte> -> bool)
      requires timeout > 0.0
      ensures Valid() && processed == 0 && progressEvents == 0 && lastProgressAt == startedAt && history == []
      ensures this.chunks == chunks && this.timeout == timeout && this.startedAt == startedAt && this.shows == shows
    {
      this.chunks, this.timeout, this.startedAt, this.shows := chunks, timeout, startedAt, shows;
      lastProgressAt, processed, progressEvents, line := startedAt, 0, 0, [];
      candidate, glyphCount, reportedCount, hasTerminal := true, 0, 0, false;
      consumed, history := [], [];
      new;
      assert Current([]) == [] && Finished([]) == [];
    }

    /** `_record_progress` */
    method RecordProgress(count: nat, now: real)
      modifies this`progressEvents, this`lastProgressAt
      ensures progressEvents == old(progressEvents) + count && lastProgressAt == now
    {
      progressEvents := progressEvents + count;
      lastProgressAt := now;
    }

    /** `_append_line_byte` */
    method AppendLineByte(b: Byte, ghost current: seq<Byte>)
      requires line == Tail(current)
      modifies this`line
      ensures line == Tail(current + [b])
    {
      line := line + [b];
      if |line| > MAX_LINE_BUFFER_BYTES {
        line := line[|line| - MAX_LINE_BUFFER_BYTES..];
      }
    }

    /** `_observe_quiet_glyph` */
    method ObserveQuietGlyph(b: Byte, now: real, ghost current: seq<Byte>)
      requires Tracks(current)
      modifies this`progressEvents, this`lastProgressAt, this`candidate, this`glyphCount, this`reportedCount,
        this`hasTerminal
      ensures Tracks(current + [b])
      ensures progressEvents == old(progressEvents) + QuietEvents(current + [b]) - QuietEvents(current)
      ensures lastProgressAt == if progressEvents > old(progressEvents) then now else old(lastProgressAt)
      ensures progressEvents >= old(progressEvents)
    {
      SnocFacts(current, b);
      QuietRunSnoc(current, b);
      RunSnoc(current, b);
      if !candidate {
        return;
      }
      if Glyph(b) {
        glyphCount := glyphCount + 1;
        if b != DOT {
          hasTerminal := true;
        }
        var minimumRun := if hasTerminal then 2 else 4;
        if glyphCount >= minimumRun {
          var newlyReported := glyphCount - reportedCount;
          if newlyReported > 0 {
            RecordProgress(newlyReported, now);
            reportedCount := glyphCount;
          }
        }
        return;
      }
      if Space(b) && (glyphCount == 0 || reportedCount > 0) {
        return;
      }
      candidate := false;
    }

    /** `_finish_line` */
    method FinishLine(now: real)
      modifies this`progressEvents, this`lastProgressAt, this`line, this`candidate, this`glyphCount, this`reportedCount,
        this`hasTerminal
      ensures line == [] && Tracks([])
      ensures progressEvents == old(progressEvents) + if shows(old(line)) then 1 else 0
      ensures lastProgressAt == if progressEvents > old(progressEvents) then now else old(lastProgressAt)
    {
      if shows(line) {
        RecordProgress(1, now);
      }
      line := [];
      candidate, glyphCount, reportedCount, hasTerminal := true, 0, 0, false;
    }

    /** A byte of the line in progress, in `_consume` */
    method ExtendLine(b: Byte, now: real, ghost current: seq<Byte>)
      requires line == Tail(current) && Tracks(current)
      modifies this`progressEvents, this`lastProgressAt, this`line, this`candidate, this`glyphCount, this`reportedCount,
        this`hasTerminal
      ensures line == Tail(current + [b]) && Tracks(current + [b])
      ensures progressEvents == old(progressEvents) + QuietEvents(current + [b]) - QuietEvents(current)
      ensures progressEvents >= old(progressEvents)
      ensures lastProgressAt == if progressEvents > old(progressEvents) then now else old(lastProgressAt)
    {
      AppendLineByte(b, current);
      ObserveQuietGlyph(b, now, current);
    }

    /** One byte in the loop of `_consume` */
    method Step(b: Byte, now: real, ghost current: seq<Byte>, ghost events: int)
      requires At(current, events)
      modifies this`progressEvents, this`lastProgressAt, this`line, this`candidate, this`glyphCount, this`reportedCount,
        this`hasTerminal
      ensures At(NextLine(current, b), events + Added(current, b, shows))
      ensures progressEvents >= old(progressEvents)
      ensures lastProgressAt == if progressEvents > old(progressEvents) then now else old(lastProgressAt)
    {
      if b == CARRIAGE_RETURN {
        return;
      }
      if b == LINE_FEED {
        FinishLine(now);
      } else {
        ExtendLine(b, now, current);
      }
    }

    method ConsumeByte(b: Byte, now: real)
      requires Scanned()
      modifies this`progressEvents, this`lastProgressAt, this`line, this`candidate, this`glyphCount,
               this`reportedCount, this`hasTerminal, this`consumed
      ensures Scanned() && consumed == old(consumed) + [b] && processed == old(processed)
      ensures progressEvents >= old(progressEvents)
      ensures lastProgressAt == if progressEvents > old(progressEvents) then now else old(lastProgressAt)
    {
      EventsSnoc(consumed, b, shows);
      Step(b, now, Current(consumed), Events(consumed, shows));
      consumed := consumed + [b];
    }

    /** `_consume` */
    method Consume(data: seq<Byte>, now: real)
      requires Scanned()
      modifies this`progressEvents, this`lastProgressAt, this`line, this`candidate, this`glyphCount,
               this`reportedCount, this`hasTerminal, this`consumed
      ensures Scanned() && consumed == old(consumed) + data && processed == old(processed)
      ensures progressEvents >= old(progressEvents)
      ensures lastProgressAt == if progressEvents > old(progressEvents) then now else old(lastProgressAt)
    {
      var n := 0;
      ghost var goal := consumed + data;
      assert data[0..] == data;
      while n < |data|
        invariant 0 <= n <= |data|
        invariant Scanned() && processed == old(processed)
        invariant consumed + data[n..] == goal
        invariant progressEvents >= old(progressEvents)
        invariant lastProgressAt == if progressEvents > old(progressEvents) then now else old(lastProgressAt)
      {
        Regroup(consumed, data, n);
        ConsumeByte(data[n], now);
        n := n + 1;
      }
      assert consumed + [] == consumed;
    }

    /** A turn of the loop of `observe` */
    method ConsumeChunk(items: seq<seq<Byte>>, n: nat, now: real)
      requires Scanned() && n < |items| && consumed == Concat(items[..n])
      modifies this`progressEvents, this`lastProgressAt, this`line, this`candidate, this`glyphCount,
               this`reportedCount, this`hasTerminal, this`consumed
      ensures Scanned() && consumed == Concat(items[..n + 1]) && processed == old(processed)
      ensures progressEvents >= old(progressEvents)
      ensures lastProgressAt == if progressEvents > old(progressEvents) then now else old(lastProgressAt)
    {
      ConcatStep(items, n);
      Consume(items[n], now);
    }

    /** The loop of `observe`: consumes each chunk that arrived since the last time, once and in order. */
    method ConsumeNew(now: real)
      requires Valid()
      modifies this`progressEvents, this`lastProgressAt, this`line, this`candidate, this`glyphCount,
               this`reportedCount, this`hasTerminal, this`consumed, this`processed
      ensures Scanned() && processed == |chunks.items| && consumed == Concat(chunks.items)
      ensures progressEvents >= old(progressEvents)
      ensures lastProgressAt == if progressEvents > old(progressEvents) then now else old(lastProgressAt)
    {
      var items := chunks.items;
      assert items[..|items|] == items;
      if |items| <= processed {
        return;
      }
      for n := processed to |items|
        invariant Scanned() && chunks.items == items && processed == old(processed)
        invariant consumed == Concat(items[..n])
        invariant progressEvents >= old(progressEvents)
        invariant lastProgressAt == if progressEvents > old(progressEvents) then now else old(lastProgressAt)
      {
        ConsumeChunk(items, n, now);
      }
      processed := |items|;
    }

    /** `observe`. Then the count is what the specification says of everything that has arrived. */
    method Observe(now: real)
      requires Valid()
      modifies this
      ensures Valid() && processed == |chunks.items| && progressEvents == Events(Concat(chunks.items), shows)
      ensures progressEvents >= old(progressEvents)
      ensures lastProgressAt == if progressEvents > old(progressEvents) then now else old(lastProgressAt)
      ensures history == old(history) + [Observation(now, Concat(chunks.items))]
    {
      ConsumeNew(now);
      history := history + [Observation(now, consumed)];
      LastRiseSnoc(startedAt, old(history), Observation(now, consumed), shows);
      assert chunks.items[..processed] == chunks.items;
    }

    /** Output may arrive at any time; the watchdog has not seen it until it observes. */
    method Arrive(chunk: seq<Byte>)
      requires Valid()
      modifies chunks
      ensures Valid() && chunks.items == old(chunks.items) + [chunk]
    {
      chunks.items := chunks.items + [chunk];
      assert chunks.items[..processed] == old(chunks.items)[..processed];
    }

    /** `expired`: provided that the clock does not go back, the watchdog expires exactly when it was started
        that long ago and no observation since then found more progress in the output than the one before. */
    method Expired(now: real) returns (r: bool)
      requires Valid()
      ensures InOrder(startedAt, history) ==>
        (r <==> && startedAt + timeout <= now
                && forall k :: Rises(history, k, shows) ==> history[k].at + timeout <= now)
    {
      r := now - lastProgressAt >= timeout;
      if InOrder(startedAt, history) {
        LastRiseExact(startedAt, history, now - timeout, shows);
      }
    }
  }
}
