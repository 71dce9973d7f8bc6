/** The output of console commands under a budget (functions/console_output_policy.py): how one stream is
    cut, and the search for the limit with which the serialised result can be submitted. */
module OutputBudget {
  import opened Basics
  import opened Results

  // ---------- Cutting a stream ----------

  /** `value[:k]` */
  function Upto(value: string, k: int): string {
    if k >= 0 then value[..Min(k, |value|)] else value[..Max(0, |value| + k)]
  }

  /** `value[k:]` */
  function From(value: string, k: int): string {
    if k >= 0 then value[Min(k, |value|)..] else value[Max(0, |value| + k)..]
  }

  function Decimal(n: nat): (s: string)
    ensures |s| >= 1
  {
    var digit := ['0' + (n % 10) as char];
    if n < 10 then digit else Decimal(n / 10) + digit
  }

  /** The number that digits stand for */
  function Number(digits: string): int {
    if digits == [] then 0
    else 10 * Number(digits[..|digits| - 1]) + (digits[|digits| - 1] as int - '0' as int)
  }

  predicate Digits(s: string) { forall i :: 0 <= i < |s| ==> '0' <= s[i] <= '9' }

  /** A number is written in digits, without leading zeros, and can be read back. */
  lemma {:induction false} DecimalExact(n: nat)
    ensures Digits(Decimal(n)) && Number(Decimal(n)) == n
    ensures Decimal(n)[0] == '0' ==> n == 0
  {
    var digit := ['0' + (n % 10) as char];
    if n < 10 {
      assert Number(digit[..0]) == 0;
    } else {
      DecimalExact(n / 10);
      assert (Decimal(n / 10) + digit)[..|Decimal(n / 10)|] == Decimal(n / 10);
    }
  }

  function Marker(omitted: nat): string { "\n... <" + Decimal(omitted) + " chars omitted> ...\n" }

  /** A stream as it is returned, with the numbers that are reported about it */
  datatype Limited = Limited(text: string, truncated: bool, returned: int, head: int, tail: int)

  /** `_limit_stream_text` */
  function LimitStream(value: string, limit: int, preserveHead: bool): Limited {
    if |value| <= limit then Limited(value, false, |value|, |value|, 0)
    else CutStream(value, limit, preserveHead, Marker(|value| - limit))
  }

  function CutStream(value: string, limit: int, preserveHead: bool, marker: string): Limited {
    if !preserveHead then Limited(From(value, -limit), true, limit, 0, limit) else
    if |marker| < limit then
      var available := limit - |marker|;
      var head := Max(1, available / 4);
      Limited(Upto(value, head) + marker + From(value, -(available - head)), true, limit, head, available - head)
    else
      Limited(Upto(value, limit / 2) + From(value, -(limit - limit / 2)), true, limit, limit / 2, limit - limit / 2)
  }

  /** The beginning and the end of a stream, without overlap, around a part of its own */
  ghost predicate Cut(value: string, r: Limited, middle: string) {
    && 0 <= r.head && 0 <= r.tail && r.head + r.tail < |value|
    && r.text == value[..r.head] + middle + value[|value| - r.tail..]
  }

  /** The one case in which the tail is empty, and `value[-0:]` is everything */
  predicate TailVanishes(length: int, limit: int, preserveHead: bool) {
    preserveHead && 0 < limit < length && limit == |Marker(length - limit)| + 1
  }

  lemma HeadAndTail(value: string, head: int, middle: string, tail: int)
    requires 0 <= head && 0 < tail && head + tail < |value|
    ensures Upto(value, head) + middle + From(value, -tail) == value[..head] + middle + value[|value| - tail..]
    ensures |Upto(value, head) + middle + From(value, -tail)| == head + |middle| + tail
  {
  }

  /** The marker, where there is room for it */
  function Middle(limit: int, preserveHead: bool, marker: string): string {
    if preserveHead && |marker| < limit then marker else []
  }

  /** How the limit is shared: nothing for the beginning of a successful command; otherwise, beside the marker a
      quarter for the beginning, but one character at least, and without the marker a half of it. */
  predicate Shared(r: Limited, limit: int, preserveHead: bool, marker: string) {
    && 0 <= r.head && 0 <= r.tail && r.head + |Middle(limit, preserveHead, marker)| + r.tail == limit
    && if !preserveHead then r.head == 0
       else if |marker| < limit
         then r.head >= 1 && (r.head == 1 || 4 * r.head <= r.head + r.tail)
              && r.head + r.tail < 4 * (r.head + 1)
         else r.tail - 1 <= r.head <= r.tail
  }

  lemma MarkedExact(value: string, limit: int, marker: string)
    requires marker != [] && |marker| + 1 < limit < |value|
    ensures var r := CutStream(value, limit, true, marker);
            && |r.text| == limit == r.returned && r.truncated && Cut(value, r, marker) && Shared(r, limit, true, marker)
  {
    var available := limit - |marker|;
    var head := Max(1, available / 4);
    HeadAndTail(value, head, marker, available - head);
  }

  lemma TailExact(value: string, limit: int, marker: string)
    requires 0 < limit < |value|
    ensures var r := CutStream(value, limit, false, marker);
            && |r.text| == limit == r.returned && r.truncated && Cut(value, r, []) && Shared(r, limit, false, marker)
  {
    HeadAndTail(value, 0, [], limit);
    assert Upto(value, 0) + [] + From(value, -limit) == From(value, -limit);
  }

  lemma HalvesExact(value: string, limit: int, marker: string)
    requires 0 < limit < |value| && limit <= |marker|
    ensures var r := CutStream(value, limit, true, marker);
            && |r.text| == limit == r.returned && r.truncated && Cut(value, r, []) && Shared(r, limit, true, marker)
  {
    HeadAndTail(value, limit / 2, [], limit - limit / 2);
    assert Upto(value, limit / 2) + [] == Upto(value, limit / 2);
  }

  lemma CutExact(value: string, limit: int, preserveHead: bool, marker: string)
    requires 0 < limit < |value| && marker != []
    requires preserveHead ==> limit != |marker| + 1
    ensures var r := CutStream(value, limit, preserveHead, marker);
            && |r.text| == limit == r.returned && r.truncated && Cut(value, r, Middle(limit, preserveHead, marker))
            && Shared(r, limit, preserveHead, marker) && r.head <= r.tail
  {
    if !preserveHead {
      TailExact(value, limit, marker);
    } else if |marker| < limit {
      MarkedExact(value, limit, marker);
    } else {
      HalvesExact(value, limit, marker);
    }
  }

  lemma WholeExact(value: string, marker: string)
    requires marker != [] && |marker| + 1 < |value|
    ensures CutStream(value, |marker| + 1, true, marker) ==
            Limited(value[..1] + marker + value, true, |marker| + 1, 1, 0)
  {
  }

  /** What is returned of a stream: all of it when it fits, and of any other its end and for a failed command its
      beginning too, with or without the marker between them; except that in the one case the whole stream
      follows its own first character and the marker. */
  ghost predicate Shown(value: string, limit: int, preserveHead: bool, r: Limited) {
    if |value| <= limit then r == Limited(value, false, |value|, |value|, 0) else
      var marker := Marker(|value| - limit);
      && r.truncated && r.returned == limit
      && if TailVanishes(|value|, limit, preserveHead)
         then r.text == value[..1] + marker + value && r.head == 1 && r.tail == 0
         else Cut(value, r, Middle(limit, preserveHead, marker)) && Shared(r, limit, preserveHead, marker)
  }

  /** A stream that fits is returned as it is; of any other exactly as much as the limit allows and the
      report says, its end and for a failed command its beginning too, never more of that than of the end;
      except when the limit is the length of the marker and one, and only then. */
  lemma LimitExact(value: string, limit: int, preserveHead: bool)
    requires limit > 0
    ensures var r := LimitStream(value, limit, preserveHead);
            && Shown(value, limit, preserveHead, r)
            && (|r.text| == Min(|value|, limit) <==> !TailVanishes(|value|, limit, preserveHead))
            && r.returned == Min(|value|, limit) && (r.truncated <==> |value| > limit)
            && (r.truncated && !TailVanishes(|value|, limit, preserveHead) ==> r.head <= r.tail)
  {
    if limit < |value| {
      var marker := Marker(|value| - limit);
      if TailVanishes(|value|, limit, preserveHead) {
        WholeExact(value, marker);
      } else {
        CutExact(value, limit, preserveHead, marker);
      }
    }
  }

  /** There is only one way to cut a stream and share the limit. */
  lemma SharedOnce(value: string, a: Limited, b: Limited, limit: int, preserveHead: bool, marker: string)
    requires Shared(a, limit, preserveHead, marker) && Shared(b, limit, preserveHead, marker)
    requires Cut(value, a, Middle(limit, preserveHead, marker)) && Cut(value, b, Middle(limit, preserveHead, marker))
    ensures a.head == b.head && a.tail == b.tail && a.text == b.text
  {
  }

  lemma ShownOnce(value: string, limit: int, preserveHead: bool, a: Limited, b: Limited)
    requires Shown(value, limit, preserveHead, a) && Shown(value, limit, preserveHead, b)
    ensures a == b
  {
    if limit < |value| && !TailVanishes(|value|, limit, preserveHead) {
      SharedOnce(value, a, b, limit, preserveHead, Marker(|value| - limit));
    }
  }

  /** That says all about what is returned. */
  lemma ShownIff(value: string, limit: int, preserveHead: bool, r: Limited)
    requires limit > 0
    ensures Shown(value, limit, preserveHead, r) <==> r == LimitStream(value, limit, preserveHead)
  {
    LimitExact(value, limit, preserveHead);
    if Shown(value, limit, preserveHead, r) {
      ShownOnce(value, limit, preserveHead, r, LimitStream(value, limit, preserveHead));
    }
  }

  /** The shortest such stream: of 29 characters with a limit of 28, 57 are returned. */
  lemma AVanishingTail(value: string)
    requires |value| == 29
    ensures TailVanishes(29, 28, true) && |LimitStream(value, 28, true).text| == 57
  {
    assert Decimal(1) == "1";
    assert |Marker(1)| == 27;
    WholeExact(value, Marker(1));
  }

  // ---------- The search ----------

  /** Every limit that is tried before one fits fails: the middle of what is left, downwards. */
  predicate AllProbesFail(fits: int -> bool, high: int)
    decreases high
  {
    high < 1 || (!fits((1 + high) / 2) && AllProbesFail(fits, (1 + high) / 2 - 1))
  }

  predicate DownwardClosed(fits: int -> bool, limit: int) {
    forall a, b :: 1 <= a < b <= limit && fits(b) ==> fits(a)
  }

  /** The loop of `build_console_command_result`. Nothing is assumed about which limits fit. A limit that
      is found fits and the next one does not; none is found exactly if all probes fail, in which case one
      character does not fit either. If less always fits when more does, the largest is found. */
  method Search(fits: int -> bool, limit: int) returns (best: Option<int>)
    ensures best.Some? ==>
            1 <= best.value <= limit && fits(best.value) && (best.value < limit ==> !fits(best.value + 1))
    ensures best.None? <==> AllProbesFail(fits, limit)
    ensures best.None? && limit >= 1 ==> !fits(1)
    ensures DownwardClosed(fits, limit) ==>
              forall n :: 1 <= n <= limit && fits(n) ==> best.Some? && n <= best.value
  {
    best := None;
    var low, high := 1, limit;
    while low <= high
      invariant 1 <= low <= Max(limit, 0) + 1
      invariant high <= limit && (low <= high + 1 || limit < 1)
      invariant best.None? ==> low == 1 && (AllProbesFail(fits, limit) <==> AllProbesFail(fits, high))
      invariant best.Some? ==>
                best.value == low - 1 >= 1 && fits(best.value) && best.value <= high && !AllProbesFail(fits, limit)
      invariant high < limit ==> high >= 0 && !fits(high + 1)
      decreases high - low
    {
      var candidate := (low + high) / 2;
      if fits(candidate) {
        best := Some(candidate);
        low := candidate + 1;
      } else {
        high := candidate - 1;
      }
    }
  }

  /** The result of a command: as configured, or cut for the submission. */
  datatype Submission = Submission(out: Limited, err: Limited, limit: int, reduced: bool)

  /** What is submitted when streams are cut to this limit */
  function Build(out: string, err: string, preserveHead: bool, limit: int, reduced: bool): Submission {
    Submission(LimitStream(out, limit, preserveHead), LimitStream(err, limit, preserveHead), limit, reduced)
  }

  /** A result shows both streams under its own limit. */
  ghost predicate Shows(out: string, err: string, preserveHead: bool, s: Submission) {
    Shown(out, s.limit, preserveHead, s.out) && Shown(err, s.limit, preserveHead, s.err)
  }

  /** Whatever shows the streams under this limit is too long to be submitted. */
  ghost predicate Exceeds(out: string, err: string, preserveHead: bool, limit: int, reduced: bool,
                          length: Submission -> nat, budget: nat)
  {
    forall s | Shows(out, err, preserveHead, s) && s.limit == limit && s.reduced == reduced :: length(s) > budget
  }

  lemma BuildExact(out: string, err: string, preserveHead: bool, s: Submission)
    requires s.limit > 0
    ensures Shows(out, err, preserveHead, s) <==> s == Build(out, err, preserveHead, s.limit, s.reduced)
  {
    ShownIff(out, s.limit, preserveHead, s.out);
    ShownIff(err, s.limit, preserveHead, s.err);
  }

  lemma ExceedsIff(out: string, err: string, preserveHead: bool, limit: int, reduced: bool,
                   length: Submission -> nat, budget: nat)
    requires limit > 0
    ensures Exceeds(out, err, preserveHead, limit, reduced, length, budget) <==>
            length(Build(out, err, preserveHead, limit, reduced)) > budget
  {
    var built := Build(out, err, preserveHead, limit, reduced);
    BuildExact(out, err, preserveHead, built);
    forall s | Shows(out, err, preserveHead, s) && s.limit == limit && s.reduced == reduced
      ensures s == built
    {
      BuildExact(out, err, preserveHead, s);
    }
  }

  /** What is built with this limit can be submitted. */
  function Fits<S(!new)>(build: (int, bool) -> S, length: S -> nat, budget: nat): int -> bool {
    n => length(build(n, true)) <= budget
  }

  /** The body of `build_console_command_result`, whatever is built */
  method Choose<S(!new)>(build: (int, bool) -> S, limit: int, budget: Option<nat>, length: S -> nat)
    returns (r: Result<(int, bool)>)
    ensures r.Ok? && !r.value.1 ==> r.value.0 == limit && (budget.Some? ==> length(build(limit, false)) <= budget.value)
    ensures r.Ok? && r.value.1 ==>
      && budget.Some? && length(build(limit, false)) > budget.value
      && 1 <= r.value.0 <= limit && length(build(r.value.0, true)) <= budget.value
      && (r.value.0 < limit ==> length(build(r.value.0 + 1, true)) > budget.value)
    ensures r.Err? ==>
      && budget.Some? && length(build(limit, false)) > budget.value
      && AllProbesFail(Fits(build, length, budget.value), limit)
      && (limit >= 1 ==> length(build(1, true)) > budget.value)
  {
    if budget.None? || length(build(limit, false)) <= budget.value {
      return Ok((limit, false));
    }
    var best := Search(Fits(build, length, budget.value), limit);
    if best.None? {
      return Err("console command metadata exceeds agent.config.toolResultSubmissionMaxChars");
    }
    r := Ok((best.value, true));
  }

  /** `build_console_command_result`: `length` is the length of the serialised result. Both streams are shown
      under the limit of the result: the configured one, or, when that is too much to be submitted, a smaller
      one or the same of which one more would be too much. It is an error only if one character a stream is
      too much. A configured limit below one, which `_parse_output_char_limit` refuses, is never reduced. */
  method BuildResult(out: string, err: string, preserveHead: bool, limit: int, budget: Option<nat>,
                     length: Submission -> nat)
    returns (r: Result<Submission>)
    ensures r.Ok? ==>
      && (r.value.limit > 0 ==> Shows(out, err, preserveHead, r.value))
      && (budget.Some? ==> length(r.value) <= budget.value)
      && (!r.value.reduced ==> r.value == Build(out, err, preserveHead, limit, false))
      && (r.value.reduced ==>
            && 1 <= r.value.limit <= limit && budget.Some?
            && Exceeds(out, err, preserveHead, limit, false, length, budget.value)
            && (r.value.limit < limit ==>
                  Exceeds(out, err, preserveHead, r.value.limit + 1, true, length, budget.value)))
    ensures r.Err? ==>
      && budget.Some? && length(Build(out, err, preserveHead, limit, false)) > budget.value
      && (limit > 0 ==> && Exceeds(out, err, preserveHead, limit, false, length, budget.value)
                        && Exceeds(out, err, preserveHead, 1, true, length, budget.value))
  {
    var build := (n: int, reduced: bool) => Build(out, err, preserveHead, n, reduced);
    var chosen := Choose(build, limit, budget, length);
    if budget.Some? && limit > 0 {
      ExceedsIff(out, err, preserveHead, limit, false, length, budget.value);
      ExceedsIff(out, err, preserveHead, 1, true, length, budget.value);
    }
    if chosen.Err? {
      return Err(chosen.error);
    }
    var (n, reduced) := chosen.value;
    if n > 0 {
      BuildExact(out, err, preserveHead, build(n, reduced));
    }
    if reduced && n < limit {
      ExceedsIff(out, err, preserveHead, n + 1, true, length, budget.value);
    }
    r := Ok(build(n, reduced));
  }
}
