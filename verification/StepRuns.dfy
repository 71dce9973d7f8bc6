/** Runs of an agent over its step ledger (src/agent_step_ledger.py), with failing appends, crashes
    and restarts. What an agent remembers is lost in a crash; the log is not.

    Every append takes a fault: it may raise or the process may die, in either case with the record
    written or not. Dying between two appends is dying at one of them, since only the log survives. */
module StepRuns {
  import opened Results
  import opened StepLedger

  datatype Fault = Fine | Raises(written: bool) | Dies(written: bool)
  datatype Signal = Returned | Raised | Died

  datatype Message =
    | Plain(role: string, content: string)
    | ToolCalls(calls: seq<Outcome>)     // an assistant message
    | ToolReply(call: Outcome)           // a tool message

  datatype Memory = Memory(stepId: Id, requestId: Id, injected: bool, messages: seq<Message>)

  /** The log and, while the process lives, the memory of its one agent. */
  datatype State = State(log: Log, agent: Option<Memory>)

  /** Where a call left the state and how it ended. */
  datatype Turn = Turn(state: State, signal: Signal)

  predicate Writes(f: Fault) { f.Fine? || f.written }

  function Write(log: Log, f: Fault, kind: Kind, stepId: Id, callId: Id, tool: string, arguments: string): Log {
    if Writes(f) then Appended(log, kind, stepId, callId, tool, arguments) else log
  }

  function SignalOf(f: Fault): Signal {
    match f case Fine => Returned case Raises(_) => Raised case Dies(_) => Died
  }

  /** The state after an append as the last thing a call does: `fine` if it succeeds, else `broken`. */
  function Settle(f: Fault, log: Log, fine: Memory, broken: Memory): Turn {
    Turn(State(log, if f.Dies? then None else Some(if f.Fine? then fine else broken)), SignalOf(f))
  }

  // ---------- The calls ----------

  /** `_close_current_agent_step` */
  function CloseStep(log: Log, mem: Memory, f: Fault): Turn {
    if mem.stepId == [] then Turn(State(log, Some(mem)), Returned)
    else Settle(f, Write(log, f, StepClosed, mem.stepId, [], [], []), mem.(stepId := [], requestId := []), mem)
  }

  /** Closing what a dead process left open, in `_checkpoint_provider_request` */
  function CloseInterrupted(log: Log, mem: Memory, f: Fault): Turn {
    if LatestOpen(log) == [] then Turn(State(log, Some(mem)), Returned)
    else Settle(f, Write(log, f, StepClosed, LatestOpen(log), [], [], []), mem, mem)
  }

  /** `_checkpoint_provider_request`; the new step id is remembered before it is logged. */
  function Checkpoint(log: Log, mem: Memory, step: Id, request: Id, f1: Fault, f2: Fault): Turn {
    var closed := if mem.stepId != [] then CloseStep(log, mem, f1) else CloseInterrupted(log, mem, f1);
    if !closed.signal.Returned? || closed.state.agent.None? then closed else
      var mem' := closed.state.agent.value.(stepId := step, requestId := request);
      Settle(f2, Write(closed.state.log, f2, ProviderRequestStarted, step, [], [], []), mem', mem')
  }

  /** `_record_provider_response`, `_record_provider_retry_scheduled`, `_record_provider_retry_started` */
  function Record(log: Log, mem: Memory, kind: Kind, f: Fault): Turn {
    if mem.stepId == [] then Turn(State(log, Some(mem)), Returned)
    else Settle(f, Write(log, f, kind, mem.stepId, [], [], []), mem, mem)
  }

  /** `_record_provider_failure` */
  function RecordFailure(log: Log, mem: Memory, terminal: bool, f1: Fault, f2: Fault): Turn {
    var failed := Record(log, mem, ProviderRequestFailed, f1);
    if failed.signal.Returned? && terminal then CloseStep(failed.state.log, mem, f2) else failed
  }

  /** `_record_tool_call_started` and `_record_tool_call_finished`; ids and names as the scans read them */
  function RecordTool(log: Log, mem: Memory, kind: Kind, callId: Id, tool: string, arguments: string, f: Fault): Turn {
    Settle(f, Write(log, f, kind, mem.stepId, callId, tool, arguments), mem, mem)
  }

  function RecoveredIds(log: Log): set<Id> {
    set i | 0 <= i < |log| && log[i].kind.ToolOutcomeRecovered? && log[i].callId != [] :: log[i].callId
  }

  /** The recording loop of `_inject_unknown_tool_outcomes`; a fault for each append it makes. */
  function RecoverAll(log: Log, outcomes: seq<Outcome>, known: set<Id>, faults: seq<Fault>): (Log, Signal)
    decreases |outcomes|
  {
    if outcomes == [] then (log, Returned)
    else if outcomes[0].callId in known then RecoverAll(log, outcomes[1..], known, faults)
    else
      var f := if faults == [] then Fine else faults[0];
      var o := outcomes[0];
      var log' := Write(log, f, ToolOutcomeRecovered, o.stepId, o.callId, o.tool, o.arguments);
      if f.Fine? then RecoverAll(log', outcomes[1..], known, if faults == [] then [] else faults[1..])
      else (log', SignalOf(f))
  }

  predicate IsUser(m: Message) {
    && m.Plain? && |m.role| == 4
    && (m.role[0] == 'u' || m.role[0] == 'U') && (m.role[1] == 's' || m.role[1] == 'S')
    && (m.role[2] == 'e' || m.role[2] == 'E') && (m.role[3] == 'r' || m.role[3] == 'R')
  }

  /** The index of the last user message, or the length if there is none. */
  function InsertAt(messages: seq<Message>): (k: nat)
    ensures k <= |messages| && (k < |messages| ==> IsUser(messages[k]))
    ensures forall i :: 0 <= i < |messages| && (i > k || k == |messages|) ==> !IsUser(messages[i])
  {
    if messages == [] then 0 else
      var k := InsertAt(messages[1..]);
      assert forall i :: 1 <= i < |messages| ==> messages[i] == messages[1..][i - 1];
      if k < |messages| - 1 then k + 1 else if IsUser(messages[0]) then 0 else |messages|
  }

  function Replies(outcomes: seq<Outcome>): seq<Message> {
    seq(|outcomes|, i requires 0 <= i < |outcomes| => ToolReply(outcomes[i]))
  }

  /** The recovery messages: one assistant message, then one tool reply per call in the same order. */
  function Recovery(outcomes: seq<Outcome>): (block: seq<Message>)
    ensures |block| == 1 + |outcomes| && block[0] == ToolCalls(outcomes)
    ensures forall i :: 0 <= i < |outcomes| ==> block[1 + i] == ToolReply(outcomes[i])
  {
    [ToolCalls(outcomes)] + Replies(outcomes)
  }

  function Inserted(messages: seq<Message>, outcomes: seq<Outcome>): seq<Message> {
    var k := InsertAt(messages);
    messages[..k] + Recovery(outcomes) + messages[k..]
  }

  /** `_inject_unknown_tool_outcomes`. The second reading of the log may fail too, when the agent has already
      noted that it injected; if the first fails, nothing has happened. */
  function Inject(log: Log, mem: Memory, readFails: bool, faults: seq<Fault>): Turn {
    var outcomes := Unknown(log);
    var mem' := mem.(injected := true);
    if mem.injected then Turn(State(log, Some(mem)), Returned)
    else if outcomes == [] then Turn(State(log, Some(mem')), Returned)
    else if readFails then Turn(State(log, Some(mem')), Raised)
    else
      var (log', signal) := RecoverAll(log, outcomes, RecoveredIds(log), faults);
      match signal
      case Returned => Turn(State(log', Some(mem'.(messages := Inserted(mem.messages, outcomes)))), Returned)
      case Raised => Turn(State(log', Some(mem')), Raised)
      case Died => Turn(State(log', None), Died)
  }

  // ---------- Runs ----------

  datatype Action =
    | Crash
    | NewAgent(messages: seq<Message>)
    | DoCheckpoint(step: Id, request: Id, f1: Fault, f2: Fault)
    | DoClose(f1: Fault)
    | DoRecord(kind: Kind, f1: Fault)
    | DoRecordFailure(terminal: bool, f1: Fault, f2: Fault)
    | DoToolStart(callId: Id, tool: string, arguments: string, f1: Fault)
    | DoToolFinish(callId: Id, tool: string, f1: Fault)
    | DoResolve(callId: Id, f1: Fault)          // a recorded resolution of an unknown outcome
    | DoInject(readFails: bool, faults: seq<Fault>)

  /** New step ids are not empty, and the calls that record for the current step record these kinds. */
  predicate Possible(a: Action) {
    && (a.DoCheckpoint? ==> a.step != [])
    && (a.DoRecord? ==>
        a.kind.ProviderResponseReceived? || a.kind.ProviderRetryScheduled? || a.kind.ProviderRetryStarted?)
  }

  function Act(log: Log, mem: Memory, a: Action): State {
    match a
    case Crash => State(log, None)
    case NewAgent(_) => State(log, Some(mem))   // one live agent per ledger
    case DoCheckpoint(step, request, f1, f2) => Checkpoint(log, mem, step, request, f1, f2).state
    case DoClose(f1) => CloseStep(log, mem, f1).state
    case DoRecord(kind, f1) => Record(log, mem, kind, f1).state
    case DoRecordFailure(terminal, f1, f2) => RecordFailure(log, mem, terminal, f1, f2).state
    case DoToolStart(callId, tool, arguments, f1) =>
      RecordTool(log, mem, ToolCallStarted, callId, tool, arguments, f1).state
    case DoToolFinish(callId, tool, f1) => RecordTool(log, mem, ToolCallFinished, callId, tool, [], f1).state
    case DoResolve(callId, f1) => RecordTool(log, mem, ToolOutcomeUnknownResolved, callId, [], [], f1).state
    case DoInject(readFails, faults) => Inject(log, mem, readFails, faults).state
  }

  function Step(s: State, a: Action): State {
    match s.agent
    case Some(mem) => Act(s.log, mem, a)
    case None => if a.NewAgent? then State(s.log, Some(Memory([], [], false, a.messages))) else s
  }

  function Run(s: State, actions: seq<Action>): State
    decreases |actions|
  {
    if actions == [] then s else Run(Step(s, actions[0]), actions[1..])
  }

  // ---------- What every step keeps ----------

  ghost predicate RecoveredOnce(log: Log) {
    forall i, j :: 0 <= i < j < |log| && log[i].kind.ToolOutcomeRecovered? && log[j].kind.ToolOutcomeRecovered? ==>
      log[i].callId != log[j].callId
  }

  ghost predicate LogInv(log: Log) { Numbered(log) && AtMostOneOpen(log) && RecoveredOnce(log) }

  /** Nothing is open but the given step, if it is open. */
  ghost predicate OnlyOpen(log: Log, step: Id) { forall id :: Open(log, id) ==> id == step }

  ghost predicate Inv(s: State) {
    && LogInv(s.log)
    && (s.agent.Some? && s.agent.value.stepId != [] ==> OnlyOpen(s.log, s.agent.value.stepId))
  }

  lemma OpensAfter(log: Log, e: Event)
    ensures forall id :: Open(log + [e], id) <==> Starts(e, id) || (Open(log, id) && !Closes(e, id))
  {
    forall id ensures Open(log + [e], id) <==> Starts(e, id) || (Open(log, id) && !Closes(e, id)) {
      OpenAfter(log, e, id);
    }
  }

  /** Any record other than a start or a recovery keeps the log's invariant and opens nothing. */
  lemma WriteKeeps(log: Log, f: Fault, kind: Kind, stepId: Id, callId: Id, tool: string, arguments: string)
    requires LogInv(log) && !kind.ProviderRequestStarted? && !kind.ToolOutcomeRecovered?
    ensures LogInv(Write(log, f, kind, stepId, callId, tool, arguments))
    ensures forall id :: Open(Write(log, f, kind, stepId, callId, tool, arguments), id) ==> Open(log, id)
    ensures kind.StepClosed? && Writes(f) && stepId != [] ==>
            !Open(Write(log, f, kind, stepId, callId, tool, arguments), stepId)
  {
    OpensAfter(log, Event(|log| + 1, kind, stepId, callId, tool, arguments));
  }

  /** A start keeps it when nothing is open. */
  lemma StartKeeps(log: Log, f: Fault, step: Id)
    requires LogInv(log) && (forall id :: !Open(log, id)) && step != []
    ensures LogInv(Write(log, f, ProviderRequestStarted, step, [], [], []))
    ensures OnlyOpen(Write(log, f, ProviderRequestStarted, step, [], [], []), step)
  {
    OpensAfter(log, Event(|log| + 1, ProviderRequestStarted, step, [], [], []));
  }

  lemma CloseKeeps(log: Log, mem: Memory, f: Fault)
    requires Inv(State(log, Some(mem)))
    ensures Inv(CloseStep(log, mem, f).state)
    ensures mem.stepId != [] && CloseStep(log, mem, f).signal.Returned? ==>
      forall id :: !Open(CloseStep(log, mem, f).state.log, id)
  {
    WriteKeeps(log, f, StepClosed, mem.stepId, [], [], []);
  }

  lemma CloseInterruptedKeeps(log: Log, mem: Memory, f: Fault)
    requires Inv(State(log, Some(mem))) && mem.stepId == []
    ensures Inv(CloseInterrupted(log, mem, f).state)
    ensures CloseInterrupted(log, mem, f).signal.Returned? ==>
            forall id :: !Open(CloseInterrupted(log, mem, f).state.log, id)
  {
    LatestOpenExact(log);
    WriteKeeps(log, f, StepClosed, LatestOpen(log), [], [], []);
  }

  lemma CheckpointKeeps(log: Log, mem: Memory, step: Id, request: Id, f1: Fault, f2: Fault)
    requires Inv(State(log, Some(mem))) && step != []
    ensures Inv(Checkpoint(log, mem, step, request, f1, f2).state)
  {
    if mem.stepId != [] {
      CloseKeeps(log, mem, f1);
    } else {
      CloseInterruptedKeeps(log, mem, f1);
    }
    var closed := if mem.stepId != [] then CloseStep(log, mem, f1) else CloseInterrupted(log, mem, f1);
    if closed.signal.Returned? && closed.state.agent.Some? {
      StartKeeps(closed.state.log, f2, step);
    }
  }

  /** The second log is the first with recoveries added. */
  ghost predicate AddsRecoveries(log: Log, log': Log) {
    log <= log' && forall i :: |log| <= i < |log'| ==> log'[i].kind.ToolOutcomeRecovered?
  }

  lemma RecoveredIdsExact(log: Log, id: Id)
    ensures id in RecoveredIds(log) <==> Recovered(log, id)
  {
  }

  lemma RecoveredIdsUnique(log: Log, ids: set<Id>)
    requires forall id :: id in ids <==> Recovered(log, id)
    ensures ids == RecoveredIds(log)
  {
    forall id ensures id in RecoveredIds(log) <==> Recovered(log, id) { RecoveredIdsExact(log, id); }
  }

  /** One more recovery, of a call not recovered before. */
  lemma RecoverKeeps(log: Log, f: Fault, o: Outcome)
    requires LogInv(log) && o.callId != [] && !Recovered(log, o.callId)
    ensures var log' := Write(log, f, ToolOutcomeRecovered, o.stepId, o.callId, o.tool, o.arguments);
            && LogInv(log') && AddsRecoveries(log, log')
            && (forall id :: Open(log', id) <==> Open(log, id))
            && (forall id :: Recovered(log', id) <==> Recovered(log, id) || (Writes(f) && id == o.callId))
  {
    var e := Event(|log| + 1, ToolOutcomeRecovered, o.stepId, o.callId, o.tool, o.arguments);
    OpensAfter(log, e);
    forall id ensures Recovered(log + [e], id) <==> Recovered(log, id) || RecoversCall(e, id) {
      StartedAfter(log, e, id);
    }
    forall i | 0 <= i < |log| && log[i].kind.ToolOutcomeRecovered? ensures log[i].callId != o.callId {
      assert !RecoversCall(log[i], o.callId);
    }
  }

  ghost predicate DistinctCalls(outcomes: seq<Outcome>) {
    && (forall i :: 0 <= i < |outcomes| ==> outcomes[i].callId != [])
    && (forall i, j :: 0 <= i < j < |outcomes| ==> outcomes[i].callId != outcomes[j].callId)
  }

  lemma {:induction false} RecoverAllKeeps(log: Log, outcomes: seq<Outcome>, known: set<Id>, faults: seq<Fault>)
    requires LogInv(log) && DistinctCalls(outcomes)
    requires forall i :: 0 <= i < |outcomes| ==> (outcomes[i].callId in known <==> Recovered(log, outcomes[i].callId))
    ensures var (log', signal) := RecoverAll(log, outcomes, known, faults);
            && LogInv(log') && AddsRecoveries(log, log')
            && (forall id :: Open(log', id) <==> Open(log, id))
            && (forall id :: Recovered(log, id) ==> Recovered(log', id))
            && (signal.Returned? ==> forall i :: 0 <= i < |outcomes| ==> Recovered(log', outcomes[i].callId))
    decreases |outcomes|
  {
    if outcomes != [] {
      var o, rest := outcomes[0], outcomes[1..];
      if o.callId in known {
        RecoverAllKeeps(log, rest, known, faults);
      } else {
        var f := if faults == [] then Fine else faults[0];
        RecoverKeeps(log, f, o);
        if f.Fine? {
          var next := Write(log, f, ToolOutcomeRecovered, o.stepId, o.callId, o.tool, o.arguments);
          RecoverAllKeeps(next, rest, known, if faults == [] then [] else faults[1..]);
        }
      }
    }
  }

  lemma InjectKeeps(log: Log, mem: Memory, readFails: bool, faults: seq<Fault>)
    requires Inv(State(log, Some(mem)))
    ensures Inv(Inject(log, mem, readFails, faults).state)
    ensures AddsRecoveries(log, Inject(log, mem, readFails, faults).state.log)
    ensures !mem.injected && Inject(log, mem, readFails, faults).signal.Returned? ==>
      forall i :: 0 <= i < |Unknown(log)| ==>
        Recovered(Inject(log, mem, readFails, faults).state.log, Unknown(log)[i].callId)
  {
    UnknownNamed(log);
    forall i | 0 <= i < |Unknown(log)|
      ensures Unknown(log)[i].callId in RecoveredIds(log) <==> Recovered(log, Unknown(log)[i].callId)
    {
      RecoveredIdsExact(log, Unknown(log)[i].callId);
    }
    RecoverAllKeeps(log, Unknown(log), RecoveredIds(log), faults);
  }

  lemma UnknownNamed(log: Log)
    ensures DistinctCalls(Unknown(log))
  {
    UnknownExact(log);
    forall k | 0 <= k < |Unknown(log)| ensures Unknown(log)[k].callId != [] {
      var i :| LastStartOf(log, i, Unknown(log)[k].callId) && Unknown(log)[k] == OutcomeOf(log[i]);
    }
  }

  lemma RecordKeeps(log: Log, mem: Memory, kind: Kind, stepId: Id, callId: Id, tool: string, arguments: string,
                    f: Fault)
    requires Inv(State(log, Some(mem))) && !kind.ProviderRequestStarted? && !kind.ToolOutcomeRecovered?
    ensures Inv(Settle(f, Write(log, f, kind, stepId, callId, tool, arguments), mem, mem).state)
  {
    WriteKeeps(log, f, kind, stepId, callId, tool, arguments);
  }

  lemma ProviderKeeps(log: Log, mem: Memory, kind: Kind, f: Fault)
    requires Inv(State(log, Some(mem))) && !kind.ProviderRequestStarted? && !kind.ToolOutcomeRecovered?
    ensures Inv(Record(log, mem, kind, f).state)
  {
    RecordKeeps(log, mem, kind, mem.stepId, [], [], [], f);
  }

  lemma ToolKeeps(log: Log, mem: Memory, kind: Kind, callId: Id, tool: string, arguments: string, f: Fault)
    requires Inv(State(log, Some(mem))) && !kind.ProviderRequestStarted? && !kind.ToolOutcomeRecovered?
    ensures Inv(RecordTool(log, mem, kind, callId, tool, arguments, f).state)
  {
    RecordKeeps(log, mem, kind, mem.stepId, callId, tool, arguments, f);
  }

  lemma FailureKeeps(log: Log, mem: Memory, terminal: bool, f1: Fault, f2: Fault)
    requires Inv(State(log, Some(mem)))
    ensures Inv(RecordFailure(log, mem, terminal, f1, f2).state)
  {
    ProviderKeeps(log, mem, ProviderRequestFailed, f1);
    var failed := Record(log, mem, ProviderRequestFailed, f1);
    if failed.signal.Returned? {
      CloseKeeps(failed.state.log, mem, f2);
    }
  }

  /** Every step keeps the invariant, whatever fails during it. */
  lemma StepKeeps(s: State, a: Action)
    requires Inv(s) && Possible(a)
    ensures Inv(Step(s, a))
  {
    if s.agent.Some? {
      ActKeeps(s.log, s.agent.value, a);
    }
  }

  lemma ActKeeps(log: Log, mem: Memory, a: Action)
    requires Inv(State(log, Some(mem))) && Possible(a)
    ensures Inv(Act(log, mem, a))
  {
    match a
    case Crash =>
    case NewAgent(_) =>
    case DoCheckpoint(step, request, f1, f2) => CheckpointKeeps(log, mem, step, request, f1, f2);
    case DoClose(f1) => CloseKeeps(log, mem, f1);
    case DoRecord(kind, f1) => ProviderKeeps(log, mem, kind, f1);
    case DoRecordFailure(terminal, f1, f2) => FailureKeeps(log, mem, terminal, f1, f2);
    case DoInject(readFails, faults) => InjectKeeps(log, mem, readFails, faults);
    case DoToolStart(callId, tool, arguments, f1) => ToolKeeps(log, mem, ToolCallStarted, callId, tool, arguments, f1);
    case DoToolFinish(callId, tool, f1) => ToolKeeps(log, mem, ToolCallFinished, callId, tool, [], f1);
    case DoResolve(callId, f1) => ToolKeeps(log, mem, ToolOutcomeUnknownResolved, callId, [], [], f1);
  }

  ghost predicate AllPossible(actions: seq<Action>) { forall i :: 0 <= i < |actions| ==> Possible(actions[i]) }

  lemma {:induction false} RunKeeps(s: State, actions: seq<Action>)
    requires Inv(s) && AllPossible(actions)
    ensures Inv(Run(s, actions))
    decreases |actions|
  {
    if actions != [] {
      StepKeeps(s, actions[0]);
      RunKeeps(Step(s, actions[0]), actions[1..]);
    }
  }

  const EMPTY := State([], None)

  /** In every run from an empty ledger, with appends failing and the process dying anywhere: at most
      one step is open and `latest_open_step_id` tells exactly which; the records are numbered in
      order; and no call is recorded as recovered twice. */
  lemma RunSafe(actions: seq<Action>)
    requires AllPossible(actions)
    ensures var log := Run(EMPTY, actions).log;
            && AtMostOneOpen(log)
            && (forall id :: Open(log, id) <==> id == LatestOpen(log) && id != [])
            && Numbered(log)
            && RecoveredOnce(log)
  {
    RunKeeps(EMPTY, actions);
    LatestOpenExact(Run(EMPTY, actions).log);
  }

  // ---------- Recovery ----------

  lemma RecoveriesChangeNothingElse(log: Log, log': Log, id: Id)
    requires AddsRecoveries(log, log')
    ensures Started(log', id) <==> Started(log, id)
    ensures Settled(log', id) <==> Settled(log, id)
  {
    forall i | 0 <= i < |log| ensures log'[i] == log[i] {}
  }

  /** At any point of any run, an injection that is not cut short leaves every call with an unknown
      outcome recorded as recovered, and recorded so once; the calls whose outcome is unknown are the
      same afterwards. */
  lemma InjectionCompletes(actions: seq<Action>, readFails: bool, faults: seq<Fault>)
    requires AllPossible(actions)
    requires Run(EMPTY, actions).agent.Some? && !Run(EMPTY, actions).agent.value.injected
    requires var s := Run(EMPTY, actions); Inject(s.log, s.agent.value, readFails, faults).signal.Returned?
    ensures var s := Run(EMPTY, actions);
            var log' := Inject(s.log, s.agent.value, readFails, faults).state.log;
            && (forall id :: Lists(Unknown(log'), id) <==> Lists(Unknown(s.log), id))
            && (forall id :: Lists(Unknown(log'), id) ==> Recovered(log', id))
            && RecoveredOnce(log')
  {
    RunKeeps(EMPTY, actions);
    var s := Run(EMPTY, actions);
    InjectKeeps(s.log, s.agent.value, readFails, faults);
    var log' := Inject(s.log, s.agent.value, readFails, faults).state.log;
    UnknownExact(s.log);
    UnknownExact(log');
    forall id ensures Lists(Unknown(log'), id) <==> Lists(Unknown(s.log), id) {
      RecoveriesChangeNothingElse(s.log, log', id);
    }
  }

  // ---------- The log is only ever appended to ----------

  lemma {:induction false} RecoverAllGrows(log: Log, outcomes: seq<Outcome>, known: set<Id>, faults: seq<Fault>)
    ensures log <= RecoverAll(log, outcomes, known, faults).0
    decreases |outcomes|
  {
    if outcomes != [] {
      var o := outcomes[0];
      var f := if faults == [] then Fine else faults[0];
      RecoverAllGrows(log, outcomes[1..], known, faults);
      RecoverAllGrows(Write(log, f, ToolOutcomeRecovered, o.stepId, o.callId, o.tool, o.arguments),
                      outcomes[1..], known, if faults == [] then [] else faults[1..]);
    }
  }

  lemma StepGrows(s: State, a: Action)
    ensures s.log <= Step(s, a).log
  {
    if a.DoInject? && s.agent.Some? {
      RecoverAllGrows(s.log, Unknown(s.log), RecoveredIds(s.log), a.faults);
    }
  }

  lemma {:induction false} RunGrows(s: State, actions: seq<Action>)
    ensures s.log <= Run(s, actions).log
    decreases |actions|
  {
    if actions != [] {
      StepGrows(s, actions[0]);
      RunGrows(Step(s, actions[0]), actions[1..]);
      PrefixTransitive(s.log, Step(s, actions[0]).log, Run(s, actions).log);
    }
  }

  lemma PrefixTransitive(a: Log, b: Log, c: Log)
    requires a <= b <= c
    ensures a <= c
  {
  }

  // ---------- The messages ----------

  lemma SpliceExact(messages: seq<Message>, k: nat, block: seq<Message>)
    requires k <= |messages|
    ensures var out := messages[..k] + block + messages[k..];
            && |out| == |messages| + |block|
            && out[k..k + |block|] == block
            && out[..k] + out[k + |block|..] == messages
            && (forall i :: k <= i < |messages| ==> out[i + |block|] == messages[i])
  {
    var out := messages[..k] + block + messages[k..];
    assert out[..k] == messages[..k] && out[k + |block|..] == messages[k..];
  }

  /** They stand together, and taking them out gives the messages there were. */
  lemma InsertionExact(messages: seq<Message>, outcomes: seq<Outcome>)
    ensures var k, block, out := InsertAt(messages), Recovery(outcomes), Inserted(messages, outcomes);
            && |out| == |messages| + |block|
            && out[k..k + |block|] == block
            && out[..k] + out[k + |block|..] == messages
  {
    SpliceExact(messages, InsertAt(messages), Recovery(outcomes));
  }

  /** They stand directly before the last user message, or at the end if there is no user message. */
  lemma InsertionPlace(messages: seq<Message>, outcomes: seq<Outcome>)
    ensures var k, n, out := InsertAt(messages), |Recovery(outcomes)|, Inserted(messages, outcomes);
            && (k < |messages| ==> IsUser(out[k + n]))
            && (forall i :: k + n < i < |out| ==> !IsUser(out[i]))
            && (k == |messages| ==> forall i :: 0 <= i < |messages| ==> !IsUser(messages[i]))
  {
    var k, n, out := InsertAt(messages), |Recovery(outcomes)|, Inserted(messages, outcomes);
    AfterSplice(messages, k, Recovery(outcomes));
    assert k < |messages| ==> out[k + n] == messages[k];
    forall i | k + n < i < |out| ensures !IsUser(out[i]) {
      assert out[i] == messages[i - n];
    }
  }

  lemma AfterSplice(messages: seq<Message>, k: nat, block: seq<Message>)
    requires k <= |messages|
    ensures var out := messages[..k] + block + messages[k..];
            |out| == |messages| + |block| && forall i :: k + |block| <= i < |out| ==> out[i] == messages[i - |block|]
  {
  }
}
