/** The agent step ledger (src/agent_step_ledger.py): an append-only log of events and the scans over it. */
module StepLedger {
  import opened Text
  import opened Uniques

  type Id = string

  datatype Kind =
    | ProviderRequestStarted | ProviderResponseReceived | ProviderRequestFailed
    | ProviderRetryScheduled | ProviderRetryStarted | StepClosed
    | ToolCallStarted | ToolCallFinished | ToolOutcomeUnknownResolved | ToolOutcomeRecovered
    | SessionContextCompacted

  /** A record of the log. Every scan strips call ids, tool names and the step ids of tool events and
      replaces a blank tool name by "tool"; the fields hold them as the scans read them. */
  datatype Event = Event(seqNo: nat, kind: Kind, stepId: Id, callId: Id, tool: string, arguments: string)

  function ToolLabel(name: string): string {
    if Strip(name) == [] then "tool" else Strip(name)
  }

  type Log = seq<Event>

  /** A record as `append` writes it: numbered after the records already there. */
  function Appended(log: Log, kind: Kind, stepId: Id, callId: Id, tool: string, arguments: string): Log {
    log + [Event(|log| + 1, kind, stepId, callId, tool, arguments)]
  }

  predicate Numbered(log: Log) { forall i :: 0 <= i < |log| ==> log[i].seqNo == i + 1 }

  // ---------- Open steps ----------

  predicate Starts(e: Event, id: Id) { e.kind.ProviderRequestStarted? && e.stepId == id && id != [] }
  predicate Closes(e: Event, id: Id) { e.kind.StepClosed? && e.stepId == id && id != [] }

  /** A step is open when it was started and not closed since. */
  ghost predicate Open(log: Log, id: Id) {
    exists i :: 0 <= i < |log| && Starts(log[i], id) && forall j :: i < j < |log| ==> !Closes(log[j], id)
  }

  /** An insertion-ordered set, as a Python dictionary keeps it. */
  function Insert(ids: seq<Id>, id: Id): seq<Id> { if id in ids then ids else ids + [id] }

  function Remove(ids: seq<Id>, id: Id): seq<Id> {
    if ids == [] then [] else (if ids[0] == id then [] else [ids[0]]) + Remove(ids[1..], id)
  }

  lemma {:induction false} RemoveExact(ids: seq<Id>, id: Id)
    ensures forall other :: other in Remove(ids, id) <==> other in ids && other != id
    ensures AllDifferent(ids) ==> AllDifferent(Remove(ids, id))
  {
    if ids != [] {
      RemoveExact(ids[1..], id);
      assert ids == [ids[0]] + ids[1..];
      if AllDifferent(ids) && ids[0] != id {
        assert ids[0] !in ids[1..];
        DifferentCons(ids[0], Remove(ids[1..], id));
      }
    }
  }

  lemma DifferentCons(id: Id, ids: seq<Id>)
    requires AllDifferent(ids) && id !in ids
    ensures AllDifferent([id] + ids)
  {
  }

  lemma InsertExact(ids: seq<Id>, id: Id)
    ensures forall other :: other in Insert(ids, id) <==> other in ids || other == id
    ensures AllDifferent(ids) ==> AllDifferent(Insert(ids, id))
  {
  }

  /** The keys of `open_steps` after an event. */
  function Track(open: seq<Id>, e: Event): seq<Id> {
    if e.stepId == [] then open
    else if e.kind.ProviderRequestStarted? then Insert(open, e.stepId)
    else if e.kind.StepClosed? then Remove(open, e.stepId)
    else open
  }

  function OpenSteps(log: Log): seq<Id> {
    if log == [] then [] else Track(OpenSteps(log[..|log| - 1]), log[|log| - 1])
  }

  function LatestOpen(log: Log): Id {
    var open := OpenSteps(log);
    if open == [] then [] else open[|open| - 1]
  }

  lemma OpenAfter(log: Log, e: Event, id: Id)
    ensures Open(log + [e], id) <==> Starts(e, id) || (Open(log, id) && !Closes(e, id))
  {
    var log' := log + [e];
    if Starts(e, id) {
      assert Starts(log'[|log|], id);
    } else if Open(log, id) && !Closes(e, id) {
      var i :| 0 <= i < |log| && Starts(log[i], id) && forall j :: i < j < |log| ==> !Closes(log[j], id);
      assert Starts(log'[i], id);
    }
    if Open(log', id) && !Starts(e, id) {
      var i :| 0 <= i < |log'| && Starts(log'[i], id) && forall j :: i < j < |log'| ==> !Closes(log'[j], id);
      assert Starts(log[i], id);
      assert !Closes(log'[|log|], id);
      assert forall j :: i < j < |log| ==> log[j] == log'[j];
    }
  }

  /** The scan collects exactly the open steps, each once. */
  lemma {:induction false} OpenStepsExact(log: Log)
    ensures forall id :: id in OpenSteps(log) <==> Open(log, id)
    ensures AllDifferent(OpenSteps(log)) && [] !in OpenSteps(log)
  {
    if log != [] {
      var before, e := log[..|log| - 1], log[|log| - 1];
      OpenStepsExact(before);
      assert log == before + [e];
      RemoveExact(OpenSteps(before), e.stepId);
      forall id ensures id in OpenSteps(log) <==> Open(log, id) {
        OpenAfter(before, e, id);
      }
    }
  }

  ghost predicate AtMostOneOpen(log: Log) { forall a, b :: Open(log, a) && Open(log, b) ==> a == b }

  /** With at most one step open, `latest_open_step_id` returns it, or the empty id if there is none. */
  lemma LatestOpenExact(log: Log)
    ensures LatestOpen(log) != [] ==> Open(log, LatestOpen(log))
    ensures AtMostOneOpen(log) ==> forall id :: Open(log, id) <==> id == LatestOpen(log) && id != []
  {
    OpenStepsExact(log);
    forall id | Open(log, id) ensures id != [] && LatestOpen(log) != [] {
      assert id in OpenSteps(log);
    }
  }

  // ---------- Tool calls with an unknown outcome ----------

  predicate StartsCall(e: Event, id: Id) { e.kind.ToolCallStarted? && e.callId == id && id != [] }
  predicate SettlesCall(e: Event, id: Id) {
    (e.kind.ToolCallFinished? || e.kind.ToolOutcomeUnknownResolved?) && e.callId == id && id != []
  }
  predicate RecoversCall(e: Event, id: Id) { e.kind.ToolOutcomeRecovered? && e.callId == id && id != [] }

  ghost predicate Started(log: Log, id: Id) { exists i :: 0 <= i < |log| && StartsCall(log[i], id) }
  ghost predicate Settled(log: Log, id: Id) { exists i :: 0 <= i < |log| && SettlesCall(log[i], id) }
  ghost predicate Recovered(log: Log, id: Id) { exists i :: 0 <= i < |log| && RecoversCall(log[i], id) }

  datatype Outcome = Outcome(callId: Id, tool: string, arguments: string, stepId: Id)

  function OutcomeOf(e: Event): Outcome { Outcome(e.callId, e.tool, e.arguments, e.stepId) }

  /** `starts` of `unknown_tool_outcomes`: its keys in order of first start, its values the last start. */
  datatype Calls = Calls(order: seq<Id>, latest: map<Id, Event>, finished: set<Id>)

  function File(calls: Calls, e: Event): Calls {
    var id := e.callId;
    if id == [] then calls
    else if e.kind.ToolCallStarted? then calls.(order := Insert(calls.order, id), latest := calls.latest[id := e])
    else if e.kind.ToolCallFinished? || e.kind.ToolOutcomeUnknownResolved? then
      calls.(finished := calls.finished + {id})
    else calls
  }

  function Filed(log: Log): Calls {
    if log == [] then Calls([], map[], {}) else File(Filed(log[..|log| - 1]), log[|log| - 1])
  }

  /** The started calls that are not finished, in order. */
  function Pending(order: seq<Id>, calls: Calls): seq<Outcome>
    requires forall id :: id in order ==> id in calls.latest
  {
    if order == [] then []
    else (if order[0] in calls.finished then [] else [OutcomeOf(calls.latest[order[0]])]) + Pending(order[1..], calls)
  }

  ghost predicate LastStartOf(log: Log, i: int, id: Id) {
    0 <= i < |log| && StartsCall(log[i], id) && forall j :: i < j < |log| ==> !StartsCall(log[j], id)
  }

  ghost predicate FiledExactly(log: Log, calls: Calls) {
    && AllDifferent(calls.order)
    && (forall id :: id in calls.order <==> Started(log, id))
    && (forall id :: id in calls.latest <==> Started(log, id))
    && (forall id :: id in calls.latest ==>
        calls.latest[id].callId == id && exists i :: LastStartOf(log, i, id) && log[i] == calls.latest[id])
    && (forall id :: id in calls.finished <==> Settled(log, id))
  }

  lemma StartedAfter(log: Log, e: Event, id: Id)
    ensures Started(log + [e], id) <==> Started(log, id) || StartsCall(e, id)
    ensures Settled(log + [e], id) <==> Settled(log, id) || SettlesCall(e, id)
    ensures Recovered(log + [e], id) <==> Recovered(log, id) || RecoversCall(e, id)
  {
    var log' := log + [e];
    assert log'[|log|] == e;
    assert forall i :: 0 <= i < |log| ==> log'[i] == log[i];
  }

  lemma LastStartAfter(log: Log, e: Event, id: Id, i: int)
    requires LastStartOf(log, i, id) && !StartsCall(e, id)
    ensures LastStartOf(log + [e], i, id) && (log + [e])[i] == log[i]
  {
  }

  lemma {:induction false} FiledCorrectly(log: Log)
    ensures FiledExactly(log, Filed(log))
  {
    if log != [] {
      var before, e := log[..|log| - 1], log[|log| - 1];
      FiledCorrectly(before);
      FiledNext(before, e);
      assert log == before + [e];
    }
  }

  lemma FiledNext(before: Log, e: Event)
    requires FiledExactly(before, Filed(before))
    ensures FiledExactly(before + [e], File(Filed(before), e))
  {
    forall id ensures Started(before + [e], id) <==> Started(before, id) || StartsCall(e, id)
      ensures Settled(before + [e], id) <==> Settled(before, id) || SettlesCall(e, id)
    {
      StartedAfter(before, e, id);
    }
    InsertExact(Filed(before).order, e.callId);
    FiledLatest(before, e);
  }

  lemma FiledLatest(before: Log, e: Event)
    requires FiledExactly(before, Filed(before))
    ensures var calls := File(Filed(before), e);
            forall id :: id in calls.latest ==>
              && calls.latest[id].callId == id
              && exists i :: LastStartOf(before + [e], i, id) && (before + [e])[i] == calls.latest[id]
  {
    var calls, log := File(Filed(before), e), before + [e];
    forall id | id in calls.latest
      ensures calls.latest[id].callId == id && exists i :: LastStartOf(log, i, id) && log[i] == calls.latest[id]
    {
      if StartsCall(e, id) {
        assert LastStartOf(log, |before|, id);
      } else {
        assert id in Filed(before).latest && calls.latest[id] == Filed(before).latest[id];
        var i :| LastStartOf(before, i, id) && before[i] == calls.latest[id];
        LastStartAfter(before, e, id, i);
      }
    }
  }

  /** `unknown_tool_outcomes` */
  function Unknown(log: Log): seq<Outcome> {
    FiledCorrectly(log);
    Pending(Filed(log).order, Filed(log))
  }

  ghost predicate Lists(out: seq<Outcome>, id: Id) { exists i :: 0 <= i < |out| && out[i].callId == id }

  ghost predicate Known(order: seq<Id>, calls: Calls) {
    forall id :: id in order ==> id in calls.latest && calls.latest[id].callId == id
  }

  lemma PendingStep(order: seq<Id>, calls: Calls)
    requires Known(order, calls) && order != []
    ensures Pending(order, calls) ==
            if order[0] in calls.finished then Pending(order[1..], calls)
            else [OutcomeOf(calls.latest[order[0]])] + Pending(order[1..], calls)
  {
  }

  lemma {:induction false} PendingSound(order: seq<Id>, calls: Calls)
    requires Known(order, calls)
    ensures var out := Pending(order, calls);
            forall i :: 0 <= i < |out| ==>
              out[i].callId in order && out[i].callId !in calls.finished
                && out[i] == OutcomeOf(calls.latest[out[i].callId])
  {
    if order != [] {
      PendingSound(order[1..], calls);
      PendingStep(order, calls);
    }
  }

  lemma {:induction false} PendingComplete(order: seq<Id>, calls: Calls, id: Id)
    requires Known(order, calls) && id in order && id !in calls.finished
    ensures Lists(Pending(order, calls), id)
  {
    var out, rest := Pending(order, calls), Pending(order[1..], calls);
    if id == order[0] {
      assert out[0].callId == id;
    } else {
      PendingComplete(order[1..], calls, id);
      var i :| 0 <= i < |rest| && rest[i].callId == id;
      assert out[|out| - |rest| + i] == rest[i];
    }
  }

  lemma {:induction false} PendingOnce(order: seq<Id>, calls: Calls)
    requires AllDifferent(order) && Known(order, calls)
    ensures var out := Pending(order, calls); forall i, j :: 0 <= i < j < |out| ==> out[i].callId != out[j].callId
  {
    if order != [] {
      PendingOnce(order[1..], calls);
      PendingSound(order[1..], calls);
      PendingStep(order, calls);
      assert order[0] !in order[1..];
    }
  }

  lemma PendingExact(order: seq<Id>, calls: Calls)
    requires AllDifferent(order) && Known(order, calls)
    ensures var out := Pending(order, calls);
            && (forall i :: 0 <= i < |out| ==>
                out[i].callId in order && out[i].callId !in calls.finished
                  && out[i] == OutcomeOf(calls.latest[out[i].callId]))
            && (forall id :: id in order && id !in calls.finished ==> Lists(out, id))
            && (forall i, j :: 0 <= i < j < |out| ==> out[i].callId != out[j].callId)
  {
    PendingSound(order, calls);
    PendingOnce(order, calls);
    forall id | id in order && id !in calls.finished
      ensures Lists(Pending(order, calls), id) { PendingComplete(order, calls, id); }
  }

  /** The unknown outcomes are precisely the calls that were started and neither finished nor
      resolved, each listed once, each as its last start recorded it. */
  lemma UnknownExact(log: Log)
    ensures forall id :: Lists(Unknown(log), id) <==> Started(log, id) && !Settled(log, id)
    ensures forall i, j :: 0 <= i < j < |Unknown(log)| ==> Unknown(log)[i].callId != Unknown(log)[j].callId
    ensures forall k :: 0 <= k < |Unknown(log)| ==>
      exists i :: LastStartOf(log, i, Unknown(log)[k].callId) && Unknown(log)[k] == OutcomeOf(log[i])
  {
    FiledCorrectly(log);
    var calls, out := Filed(log), Unknown(log);
    PendingExact(calls.order, calls);
    forall id ensures Lists(out, id) <==> Started(log, id) && !Settled(log, id) {
      assert id in calls.order <==> Started(log, id);
      assert id in calls.finished <==> Settled(log, id);
    }
    forall k | 0 <= k < |out| ensures exists i :: LastStartOf(log, i, out[k].callId) && out[k] == OutcomeOf(log[i]) {
      var i :| LastStartOf(log, i, out[k].callId) && log[i] == calls.latest[out[k].callId];
    }
  }
}
