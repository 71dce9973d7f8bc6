/** The ledger and the agent's side of it as the code has them (src/agent_step_ledger.py): objects whose
    methods scan the log in loops and update fields. Each method is proved to take the step of the
    same name in `StepRuns`, so what is proved of every run there holds of the code. */
module StepAgent {
  import opened Results
  import opened StepLedger
  import opened StepRuns
  import opened Text

  class Ledger {
    var events: Log

    constructor (events: Log)
      ensures this.events == events
    {
      this.events := events;
    }

    /** `append`, under the lock; the fault says what becomes of it. */
    method Append(kind: Kind, stepId: Id, callId: Id, tool: string, arguments: string, f: Fault)
      returns (signal: Signal)
      modifies this
      ensures events == Write(old(events), f, kind, stepId, callId, tool, arguments) && signal == SignalOf(f)
    {
      if Writes(f) {
        events := events + [Event(|events| + 1, kind, stepId, callId, tool, arguments)];
      }
      signal := SignalOf(f);
    }

    /** `latest_open_step_id` */
    method LatestOpenStepId() returns (r: Id)
      ensures r == LatestOpen(events)
    {
      var open: seq<Id> := [];
      for n := 0 to |events|
        invariant open == OpenSteps(events[..n])
      {
        var e := events[n];
        assert events[..n + 1][..n] == events[..n];
        if e.stepId != [] {
          if e.kind.ProviderRequestStarted? {
            open := if e.stepId in open then open else open + [e.stepId];
          } else if e.kind.StepClosed? {
            open := Remove(open, e.stepId);
          }
        }
      }
      assert events[..|events|] == events;
      r := if open == [] then [] else open[|open| - 1];
    }

    /** `unknown_tool_outcomes` */
    method UnknownToolOutcomes() returns (output: seq<Outcome>)
      ensures output == Unknown(events)
    {
      var order: seq<Id>, starts: map<Id, Event>, finished: set<Id> := [], map[], {};
      for n := 0 to |events|
        invariant Calls(order, starts, finished) == Filed(events[..n])
      {
        var e := events[n];
        assert events[..n + 1][..n] == events[..n];
        if e.callId != [] {
          if e.kind.ToolCallStarted? {
            order := if e.callId in order then order else order + [e.callId];
            starts := starts[e.callId := e];
          } else if e.kind.ToolCallFinished? || e.kind.ToolOutcomeUnknownResolved? {
            finished := finished + {e.callId};
          }
        }
      }
      assert events[..|events|] == events;
      FiledCorrectly(events);
      output := ListPending(Calls(order, starts, finished));
    }

    /** The second loop of `unknown_tool_outcomes` */
    static method ListPending(calls: Calls) returns (output: seq<Outcome>)
      requires forall id :: id in calls.order ==> id in calls.latest
      ensures output == Pending(calls.order, calls)
    {
      var order := calls.order;
      output := [];
      ghost var rest := order;
      for n := 0 to |order|
        invariant rest == order[n..]
        invariant Pending(order, calls) == output + Pending(rest, calls)
      {
        assert rest[0] == order[n];
        ghost var tail := Pending(rest[1..], calls);
        if order[n] !in calls.finished {
          var o := OutcomeOf(calls.latest[order[n]]);
          assert output + ([o] + tail) == output + [o] + tail;
          output := output + [o];
        } else {
          assert [] + tail == tail;
        }
        rest := rest[1..];
      }
    }

    /** `recovered_unknown_call_ids`: the calls that have a recovery in the log. */
    method RecoveredUnknownCallIds() returns (ids: set<Id>)
      ensures forall id :: id in ids <==> Recovered(events, id)
    {
      ids := set i | 0 <= i < |events| && events[i].kind.ToolOutcomeRecovered? && events[i].callId != [] ::
               events[i].callId;
    }
  }

  /** The fields that `AgentStepLedgerMixin` keeps on the agent. */
  class Agent {
    const ledger: Ledger
    var stepId: Id
    var requestId: Id
    var injected: bool
    var messages: seq<Message>

    constructor (ledger: Ledger, messages: seq<Message>)
      ensures this.ledger == ledger && Mem() == Memory([], [], false, messages)
    {
      this.ledger, this.messages := ledger, messages;
      stepId, requestId, injected := [], [], false;
    }

    function Mem(): Memory
      reads this
    {
      Memory(stepId, requestId, injected, messages)
    }

    /** The state the code is in; a process that died has no agent. */
    ghost function Now(signal: Signal): State
      reads this, ledger
    {
      State(ledger.events, if signal.Died? then None else Some(Mem()))
    }

    /** `_close_current_agent_step` */
    method CloseCurrentStep(f: Fault) returns (signal: Signal)
      modifies this`stepId, this`requestId, ledger
      ensures Turn(Now(signal), signal) == CloseStep(old(ledger.events), old(Mem()), f)
    {
      if stepId == [] {
        return Returned;
      }
      signal := ledger.Append(StepClosed, stepId, [], [], [], f);
      if signal.Returned? {
        stepId, requestId := [], [];
      }
    }

    /** `_checkpoint_provider_request` */
    method CheckpointProviderRequest(step: Id, request: Id, f1: Fault, f2: Fault) returns (signal: Signal)
      modifies this`stepId, this`requestId, ledger
      ensures Turn(Now(signal), signal) == Checkpoint(old(ledger.events), old(Mem()), step, request, f1, f2)
    {
      if stepId != [] {
        signal := CloseCurrentStep(f1);
        if !signal.Returned? {
          return;
        }
      } else {
        var interrupted := ledger.LatestOpenStepId();
        if interrupted != [] {
          signal := ledger.Append(StepClosed, interrupted, [], [], [], f1);
          if !signal.Returned? {
            return;
          }
        }
      }
      stepId, requestId := step, request;
      signal := ledger.Append(ProviderRequestStarted, step, [], [], [], f2);
    }

    /** `_record_provider_response` and the two retry records */
    method RecordForStep(kind: Kind, f: Fault) returns (signal: Signal)
      modifies ledger
      ensures Turn(Now(signal), signal) == Record(old(ledger.events), old(Mem()), kind, f)
    {
      if stepId == [] {
        return Returned;
      }
      signal := ledger.Append(kind, stepId, [], [], [], f);
    }

    /** `_record_provider_failure` */
    method RecordProviderFailure(terminal: bool, f1: Fault, f2: Fault) returns (signal: Signal)
      modifies this`stepId, this`requestId, ledger
      ensures Turn(Now(signal), signal) == RecordFailure(old(ledger.events), old(Mem()), terminal, f1, f2)
    {
      if stepId == [] {
        return Returned;
      }
      signal := ledger.Append(ProviderRequestFailed, stepId, [], [], [], f1);
      if signal.Returned? && terminal {
        signal := CloseCurrentStep(f2);
      }
    }

    /** `_record_tool_call_started` */
    method RecordToolCallStarted(callId: string, tool: string, arguments: string, f: Fault) returns (signal: Signal)
      modifies ledger
      ensures Turn(Now(signal), signal) ==
        RecordTool(old(ledger.events), old(Mem()), ToolCallStarted, Strip(callId), ToolLabel(tool), arguments, f)
    {
      signal := ledger.Append(ToolCallStarted, stepId, Strip(callId), ToolLabel(tool), arguments, f);
    }

    /** `_record_tool_call_finished` */
    method RecordToolCallFinished(callId: string, tool: string, f: Fault) returns (signal: Signal)
      modifies ledger
      ensures Turn(Now(signal), signal) ==
        RecordTool(old(ledger.events), old(Mem()), ToolCallFinished, Strip(callId), ToolLabel(tool), [], f)
    {
      signal := ledger.Append(ToolCallFinished, stepId, Strip(callId), ToolLabel(tool), [], f);
    }

    /** The recording loop of `_inject_unknown_tool_outcomes` */
    method RecordRecovered(outcomes: seq<Outcome>, known: set<Id>, faults: seq<Fault>) returns (signal: Signal)
      modifies ledger
      ensures (ledger.events, signal) == RecoverAll(old(ledger.events), outcomes, known, faults)
    {
      var left := faults;
      ghost var rest := outcomes;
      for n := 0 to |outcomes|
        invariant rest == outcomes[n..]
        invariant RecoverAll(old(ledger.events), outcomes, known, faults) ==
                  RecoverAll(ledger.events, rest, known, left)
      {
        var o := outcomes[n];
        assert rest[0] == o;
        if o.callId !in known {
          var f := if left == [] then Fine else left[0];
          left := if left == [] then [] else left[1..];
          signal := ledger.Append(ToolOutcomeRecovered, o.stepId, o.callId, o.tool, o.arguments, f);
          if !signal.Returned? {
            return;
          }
        }
        rest := rest[1..];
      }
      signal := Returned;
    }

    /** The insertion index of `_inject_unknown_tool_outcomes` */
    method LastUserMessage() returns (at: nat)
      ensures at == InsertAt(messages)
    {
      at := |messages|;
      for n := 0 to |messages|
        invariant at == |messages| || at < n
        invariant at < |messages| ==> IsUser(messages[at])
        invariant forall i :: 0 <= i < n && (i > at || at == |messages|) ==> !IsUser(messages[i])
      {
        if IsUser(messages[n]) {
          at := n;
        }
      }
      InsertAtUnique(messages, at);
    }

    /** `_inject_unknown_tool_outcomes` */
    method InjectUnknownToolOutcomes(readFails: bool, faults: seq<Fault>) returns (signal: Signal)
      modifies this`injected, this`messages, ledger
      ensures Turn(Now(signal), signal) == Inject(old(ledger.events), old(Mem()), readFails, faults)
    {
      if injected {
        return Returned;
      }
      var outcomes := ledger.UnknownToolOutcomes();
      injected := true;
      if outcomes == [] {
        return Returned;
      }
      if readFails {
        return Raised;
      }
      var known := ledger.RecoveredUnknownCallIds();
      RecoveredIdsUnique(ledger.events, known);
      signal := RecordRecovered(outcomes, known, faults);
      if !signal.Returned? {
        return;
      }
      var at := LastUserMessage();
      messages := messages[..at] + Recovery(outcomes) + messages[at..];
    }
  }

  lemma InsertAtUnique(messages: seq<Message>, at: nat)
    requires at <= |messages| && (at < |messages| ==> IsUser(messages[at]))
    requires forall i :: 0 <= i < |messages| && (i > at || at == |messages|) ==> !IsUser(messages[i])
    ensures at == InsertAt(messages)
  {
    var k := InsertAt(messages);
    if at < |messages| {
      assert IsUser(messages[at]);
    }
  }
}
