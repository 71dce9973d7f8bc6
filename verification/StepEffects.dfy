/** What the calls of an agent (src/agent_step_ledger.py) do when they return: to the log, to the steps and
    calls that its scans find in it, and to the agent's messages. */
module StepEffects {
  import opened Results
  import opened Sequences
  import opened StepLedger
  import opened StepRuns

  // ---------- Steps ----------

  /** A checkpoint that returns has left its step open and no other, and the agent remembers it. */
  lemma CheckpointOpens(log: Log, mem: Memory, step: Id, request: Id, f1: Fault, f2: Fault)
    requires Inv(State(log, Some(mem))) && step != []
    requires Checkpoint(log, mem, step, request, f1, f2).signal.Returned?
    ensures var s := Checkpoint(log, mem, step, request, f1, f2).state;
            && (forall id :: Open(s.log, id) <==> id == step)
            && LatestOpen(s.log) == step
            && s.agent == Some(mem.(stepId := step, requestId := request))
  {
    var closed := if mem.stepId != [] then CloseStep(log, mem, f1) else CloseInterrupted(log, mem, f1);
    if mem.stepId != [] {
      CloseKeeps(log, mem, f1);
    } else {
      CloseInterruptedKeeps(log, mem, f1);
    }
    var log' := Checkpoint(log, mem, step, request, f1, f2).state.log;
    OpensAfter(closed.state.log, Event(|closed.state.log| + 1, ProviderRequestStarted, step, [], [], []));
    assert Open(log', step);
    LatestOpenExact(log');
  }

  /** Closing that returns leaves no step open and none remembered. */
  lemma CloseCloses(log: Log, mem: Memory, f: Fault)
    requires Inv(State(log, Some(mem))) && mem.stepId != [] && CloseStep(log, mem, f).signal.Returned?
    ensures var s := CloseStep(log, mem, f).state;
            && (forall id :: !Open(s.log, id)) && LatestOpen(s.log) == []
            && s.agent == Some(mem.(stepId := [], requestId := []))
  {
    CloseKeeps(log, mem, f);
    LatestOpenExact(CloseStep(log, mem, f).state.log);
  }

  /** A failed request is recorded, and if the failure is final its step is closed. */
  lemma FailureCloses(log: Log, mem: Memory, terminal: bool, f1: Fault, f2: Fault)
    requires Inv(State(log, Some(mem))) && mem.stepId != []
    requires RecordFailure(log, mem, terminal, f1, f2).signal.Returned?
    ensures var s := RecordFailure(log, mem, terminal, f1, f2).state;
            && |s.log| > |log| && s.log[|log|].kind.ProviderRequestFailed? && s.log[|log|].stepId == mem.stepId
            && (forall id :: Open(s.log, id) <==> Open(log, id) && !terminal)
            && s.agent == Some(if terminal then mem.(stepId := [], requestId := []) else mem)
  {
    var failed := Record(log, mem, ProviderRequestFailed, f1);
    var e := Event(|log| + 1, ProviderRequestFailed, mem.stepId, [], [], []);
    assert failed.state == State(log + [e], Some(mem));
    OpensAfter(log, e);
    ProviderKeeps(log, mem, ProviderRequestFailed, f1);
    if terminal {
      CloseKeeps(failed.state.log, mem, f2);
    }
  }

  /** Nothing is recorded of a provider when no step is remembered. When one is, the call returns exactly if the
      append does, and then the log ends in one more record: of that kind, of that step, and numbered after the
      others; what it leaves of the log before, and of the agent, is everything. */
  lemma ProviderRecorded(log: Log, mem: Memory, kind: Kind, f: Fault)
    requires Numbered(log)
    ensures var t := Record(log, mem, kind, f);
            && (mem.stepId == [] ==> t == Turn(State(log, Some(mem)), Returned))
            && (mem.stepId != [] && t.signal.Returned? ==>
                  && t.state.agent == Some(mem) && Numbered(t.state.log)
                  && |t.state.log| == |log| + 1 && t.state.log[..|log|] == log
                  && t.state.log[|log|].kind == kind && t.state.log[|log|].stepId == mem.stepId)
  {
  }

  // ---------- Which calls return, and what those that raise leave ----------

  lemma ReturnsIff(log: Log, mem: Memory, kind: Kind, step: Id, request: Id, terminal: bool, f1: Fault, f2: Fault)
    ensures CloseStep(log, mem, f1).signal.Returned? <==> mem.stepId == [] || f1.Fine?
    ensures Record(log, mem, kind, f1).signal.Returned? <==> mem.stepId == [] || f1.Fine?
    ensures RecordTool(log, mem, kind, step, [], [], f1).signal.Returned? <==> f1.Fine?
    ensures RecordFailure(log, mem, terminal, f1, f2).signal.Returned? <==>
            mem.stepId == [] || (f1.Fine? && (terminal ==> f2.Fine?))
    ensures Checkpoint(log, mem, step, request, f1, f2).signal.Returned? <==>
            f2.Fine? && (f1.Fine? || (mem.stepId == [] && LatestOpen(log) == []))
  {
  }

  /** A checkpoint remembers its step before it tries to record it; closing forgets a step only once that is
      recorded. */
  lemma RaisedLeaves(log: Log, mem: Memory, step: Id, request: Id, f1: Fault, f2: Fault)
    ensures f1.Fine? && f2.Raises? ==>
            Checkpoint(log, mem, step, request, f1, f2).state.agent == Some(mem.(stepId := step, requestId := request))
    ensures f1.Raises? && mem.stepId != [] ==> Checkpoint(log, mem, step, request, f1, f2).state.agent == Some(mem)
    ensures f1.Raises? ==> CloseStep(log, mem, f1).state.agent == Some(mem)
  {
  }

  lemma {:induction false} RecoverAllReturns(log: Log, calls: seq<Outcome>, known: set<Id>, faults: seq<Fault>)
    requires forall i :: 0 <= i < |faults| ==> faults[i].Fine?
    ensures RecoverAll(log, calls, known, faults).1.Returned?
    decreases |calls|
  {
    if calls != [] {
      var f, o := if faults == [] then Fine else faults[0], calls[0];
      RecoverAllReturns(log, calls[1..], known, faults);
      RecoverAllReturns(Write(log, f, ToolOutcomeRecovered, o.stepId, o.callId, o.tool, o.arguments), calls[1..], known,
                        if faults == [] then [] else faults[1..]);
    }
  }

  /** An injection that nothing fails in returns. */
  lemma InjectionReturns(log: Log, mem: Memory, faults: seq<Fault>)
    requires forall i :: 0 <= i < |faults| ==> faults[i].Fine?
    ensures Inject(log, mem, false, faults).signal.Returned?
  {
    RecoverAllReturns(log, Unknown(log), RecoveredIds(log), faults);
  }

  // ---------- Tool calls ----------

  /** Recording the start of a call that has an id starts it, recording its end or its resolution settles it,
      and neither does anything to another call, to the steps or to the agent. */
  lemma ToolRecorded(log: Log, mem: Memory, kind: Kind, callId: Id, tool: string, arguments: string, f: Fault)
    requires RecordTool(log, mem, kind, callId, tool, arguments, f).signal.Returned?
    requires kind.ToolCallStarted? || kind.ToolCallFinished? || kind.ToolOutcomeUnknownResolved?
    ensures var s := RecordTool(log, mem, kind, callId, tool, arguments, f).state;
            && s.agent == Some(mem)
            && (forall id :: Started(s.log, id) <==> Started(log, id) || (kind.ToolCallStarted? && id == callId != []))
            && (forall id :: Settled(s.log, id) <==> Settled(log, id) || (!kind.ToolCallStarted? && id == callId != []))
            && (forall id :: Recovered(s.log, id) <==> Recovered(log, id))
            && (forall id :: Open(s.log, id) <==> Open(log, id))
  {
    var e := Event(|log| + 1, kind, mem.stepId, callId, tool, arguments);
    OpensAfter(log, e);
    forall id
      ensures Started(log + [e], id) <==> Started(log, id) || StartsCall(e, id)
      ensures Settled(log + [e], id) <==> Settled(log, id) || SettlesCall(e, id)
      ensures Recovered(log + [e], id) <==> Recovered(log, id) || RecoversCall(e, id)
    {
      StartedAfter(log, e, id);
    }
  }

  /** A call that was started and not settled before is listed as unknown once its start is recorded, with the
      name and the arguments recorded last and the step that was open; settled, it is listed no more. */
  lemma StartIsListed(log: Log, mem: Memory, callId: Id, tool: string, arguments: string, f: Fault)
    requires RecordTool(log, mem, ToolCallStarted, callId, tool, arguments, f).signal.Returned?
    requires callId != [] && !Settled(log, callId)
    ensures var log' := RecordTool(log, mem, ToolCallStarted, callId, tool, arguments, f).state.log;
            Outcome(callId, tool, arguments, mem.stepId) in Unknown(log')
  {
    var log' := RecordTool(log, mem, ToolCallStarted, callId, tool, arguments, f).state.log;
    ToolRecorded(log, mem, ToolCallStarted, callId, tool, arguments, f);
    UnknownExact(log');
    assert Lists(Unknown(log'), callId);
    var k :| 0 <= k < |Unknown(log')| && Unknown(log')[k].callId == callId;
    var i :| LastStartOf(log', i, callId) && Unknown(log')[k] == OutcomeOf(log'[i]);
    assert StartsCall(log'[|log|], callId);
    assert i == |log|;
  }

  lemma EndIsNotListed(log: Log, mem: Memory, kind: Kind, callId: Id, tool: string, arguments: string, f: Fault)
    requires RecordTool(log, mem, kind, callId, tool, arguments, f).signal.Returned?
    requires callId != [] && (kind.ToolCallFinished? || kind.ToolOutcomeUnknownResolved?)
    ensures !Lists(Unknown(RecordTool(log, mem, kind, callId, tool, arguments, f).state.log), callId)
  {
    ToolRecorded(log, mem, kind, callId, tool, arguments, f);
    UnknownExact(RecordTool(log, mem, kind, callId, tool, arguments, f).state.log);
  }

  // ---------- Recovery ----------

  /** The outcomes are those of exactly the calls that were started and not settled, each once, as their last
      start recorded them, in the order in which they were first started. */
  ghost predicate AreUnknown(calls: seq<Outcome>, log: Log) {
    && (forall id :: Lists(calls, id) <==> Started(log, id) && !Settled(log, id))
    && (forall k :: 0 <= k < |calls| ==>
        exists i :: LastStartOf(log, i, calls[k].callId) && calls[k] == OutcomeOf(log[i]))
    && InStartOrder(calls, log)
  }

  ghost predicate FirstStartOf(log: Log, i: int, id: Id) {
    0 <= i < |log| && StartsCall(log[i], id) && forall j :: 0 <= j < i ==> !StartsCall(log[j], id)
  }

  /** The first start of the one is before that of the other. */
  ghost predicate StartsBefore(log: Log, a: Id, b: Id) {
    forall i, j :: FirstStartOf(log, i, a) && FirstStartOf(log, j, b) ==> i < j
  }

  ghost predicate InStartOrder(calls: seq<Outcome>, log: Log) {
    forall k, l :: 0 <= k < l < |calls| ==> StartsBefore(log, calls[k].callId, calls[l].callId)
  }

  ghost predicate OrderedIds(order: seq<Id>, log: Log) {
    forall k, l :: 0 <= k < l < |order| ==> StartsBefore(log, order[k], order[l])
  }

  lemma FirstStaysFirst(log: Log, e: Event, id: Id, i: int)
    requires Started(log, id) && FirstStartOf(log + [e], i, id)
    ensures FirstStartOf(log, i, id)
  {
    var j :| 0 <= j < |log| && StartsCall(log[j], id);
    assert (log + [e])[j] == log[j];
    assert i <= j;
    forall k | 0 <= k < i ensures !StartsCall(log[k], id) {
      assert (log + [e])[k] == log[k];
    }
  }

  lemma NewIsLast(log: Log, e: Event, id: Id, i: int)
    requires !Started(log, id) && FirstStartOf(log + [e], i, id)
    ensures i == |log|
  {
    forall j | 0 <= j < |log| ensures (log + [e])[j] == log[j] {}
  }

  lemma StillBefore(log: Log, e: Event, a: Id, b: Id)
    requires Started(log, a) && (Started(log, b) ==> StartsBefore(log, a, b))
    ensures StartsBefore(log + [e], a, b)
  {
    forall i, j | FirstStartOf(log + [e], i, a) && FirstStartOf(log + [e], j, b) ensures i < j {
      FirstStaysFirst(log, e, a, i);
      if Started(log, b) {
        FirstStaysFirst(log, e, b, j);
      } else {
        NewIsLast(log, e, b, j);
      }
    }
  }

  lemma {:induction false} FiledInOrder(log: Log)
    ensures OrderedIds(Filed(log).order, log)
  {
    if log != [] {
      var before, e := log[..|log| - 1], log[|log| - 1];
      FiledInOrder(before);
      FiledCorrectly(before);
      var order, order' := Filed(before).order, Filed(log).order;
      assert log == before + [e];
      assert order' == order || (order' == order + [e.callId] && e.callId !in order);
      forall k, l | 0 <= k < l < |order'| ensures StartsBefore(log, order'[k], order'[l]) {
        assert order'[k] == order[k] && order[k] in order;
        if l < |order| {
          assert order'[l] == order[l] && order[l] in order;
        }
        StillBefore(before, e, order'[k], order'[l]);
      }
    }
  }

  /** Leaving calls out keeps the order. */
  lemma {:induction false} PendingInOrder(order: seq<Id>, calls: Calls, log: Log)
    requires Known(order, calls) && OrderedIds(order, log)
    ensures InStartOrder(Pending(order, calls), log)
  {
    if order != [] {
      var rest := Pending(order[1..], calls);
      assert OrderedIds(order[1..], log) by {
        forall k, l | 0 <= k < l < |order[1..]| ensures StartsBefore(log, order[1..][k], order[1..][l]) {
          assert order[1..][k] == order[k + 1] && order[1..][l] == order[l + 1];
        }
      }
      PendingInOrder(order[1..], calls, log);
      PendingStep(order, calls);
      PendingSound(order[1..], calls);
      forall l | 0 <= l < |rest| ensures StartsBefore(log, order[0], rest[l].callId) {
        var m :| 0 <= m < |order[1..]| && order[1..][m] == rest[l].callId;
        assert order[m + 1] == rest[l].callId;
      }
      if order[0] !in calls.finished {
        FirstOfOrder(OutcomeOf(calls.latest[order[0]]), rest, log);
      }
    }
  }

  lemma FirstOfOrder(first: Outcome, rest: seq<Outcome>, log: Log)
    requires InStartOrder(rest, log)
    requires forall l :: 0 <= l < |rest| ==> StartsBefore(log, first.callId, rest[l].callId)
    ensures InStartOrder([first] + rest, log)
  {
    var all := [first] + rest;
    forall k, l | 0 <= k < l < |all| ensures StartsBefore(log, all[k].callId, all[l].callId) {
      assert all[l] == rest[l - 1] && (k > 0 ==> all[k] == rest[k - 1]);
    }
  }

  lemma UnknownIsUnknown(log: Log)
    ensures AreUnknown(Unknown(log), log)
    ensures forall i, j :: 0 <= i < j < |Unknown(log)| ==> Unknown(log)[i].callId != Unknown(log)[j].callId
    ensures Unknown(log) != [] <==> exists id :: Started(log, id) && !Settled(log, id)
  {
    UnknownExact(log);
    UnknownInOrder(log);
    SomeListed(Unknown(log));
  }

  lemma UnknownInOrder(log: Log)
    ensures InStartOrder(Unknown(log), log)
  {
    FiledCorrectly(log);
    FiledInOrder(log);
    PendingInOrder(Filed(log).order, Filed(log), log);
  }

  lemma SomeListed(calls: seq<Outcome>)
    ensures calls != [] <==> exists id :: Lists(calls, id)
  {
    if calls != [] {
      assert Lists(calls, calls[0].callId);
    }
  }

  /** The new messages are the old ones and, in one place, one assistant message with the calls and then their
      replies in the same order; that place is directly before the last user message, or at the end. */
  ghost predicate InsertedBlock(messages: seq<Message>, messages': seq<Message>, calls: seq<Outcome>) {
    exists k, replies :: BlockAt(messages, messages', calls, k, replies)
  }

  ghost predicate BlockAt(messages: seq<Message>, messages': seq<Message>, calls: seq<Outcome>, k: nat,
                          replies: seq<Message>) {
    && k <= |messages|
    && messages' == messages[..k] + [ToolCalls(calls)] + replies + messages[k..]
    && |replies| == |calls| && (forall i :: 0 <= i < |calls| ==> replies[i] == ToolReply(calls[i]))
    && (k < |messages| ==> IsUser(messages[k]))
    && (forall i :: k < i < |messages| ==> !IsUser(messages[i]))
    && (k == |messages| ==> forall i :: 0 <= i < |messages| ==> !IsUser(messages[i]))
  }

  lemma InsertedIsBlock(messages: seq<Message>, calls: seq<Outcome>)
    ensures InsertedBlock(messages, Inserted(messages, calls), calls)
  {
    var k, replies := InsertAt(messages), Replies(calls);
    Assoc(messages[..k], [ToolCalls(calls)], replies);
    assert BlockAt(messages, Inserted(messages, calls), calls, k, replies);
  }

  ghost predicate RecoveryTold(log: Log, messages: seq<Message>, messages': seq<Message>) {
    exists calls :: AreUnknown(calls, log) && InsertedBlock(messages, messages', calls)
  }

  /** The agent after an injection. */
  lemma InjectAgent(log: Log, mem: Memory, readFails: bool, faults: seq<Fault>)
    ensures var t := Inject(log, mem, readFails, faults);
            && (t.state.agent.None? <==> t.signal.Died?)
            && (t.state.agent.Some? ==>
                t.state.agent.value ==
                mem.(injected := true,
                     messages := if t.signal.Returned? && !mem.injected && Unknown(log) != []
                                 then Inserted(mem.messages, Unknown(log)) else mem.messages))
  {
  }

  /** What an injection does to the agent that survives it. It notes that it injected. When it returns, the agent
      had not injected before and there are calls whose outcome is unknown, the recovery messages of exactly
      those stand among the agent's messages; in every other case the messages are as they were. */
  lemma InjectionExact(log: Log, mem: Memory, readFails: bool, faults: seq<Fault>)
    ensures var t := Inject(log, mem, readFails, faults);
            t.state.agent.Some? ==>
              var mem' := t.state.agent.value;
              && mem'.injected && mem'.stepId == mem.stepId && mem'.requestId == mem.requestId
              && (if t.signal.Returned? && !mem.injected && (exists id :: Started(log, id) && !Settled(log, id)) then
                    RecoveryTold(log, mem.messages, mem'.messages)
                  else mem'.messages == mem.messages)
    ensures var t := Inject(log, mem, readFails, faults); t.state.agent.None? <==> t.signal.Died?
  {
    InjectAgent(log, mem, readFails, faults);
    UnknownIsUnknown(log);
    InsertedIsBlock(mem.messages, Unknown(log));
    assert RecoveryTold(log, mem.messages, Inserted(mem.messages, Unknown(log)));
  }

  /** Each record that the recording loop adds is that of one of the calls, with the data of the call. */
  ghost predicate RecordsOf(log: Log, log': Log, calls: seq<Outcome>) {
    log <= log' && forall i :: |log| <= i < |log'| ==> IsRecoveryOf(log'[i], i, calls)
  }

  ghost predicate IsRecoveryOf(e: Event, i: nat, calls: seq<Outcome>) {
    exists k :: 0 <= k < |calls| && IsRecovery(e, i, calls[k])
  }

  predicate IsRecovery(e: Event, i: nat, o: Outcome) {
    e == Event(i + 1, ToolOutcomeRecovered, o.stepId, o.callId, o.tool, o.arguments)
  }

  lemma RecordsOfMore(log: Log, log': Log, calls: seq<Outcome>)
    requires calls != [] && RecordsOf(log, log', calls[1..])
    ensures RecordsOf(log, log', calls)
  {
    forall i | |log| <= i < |log'| ensures IsRecoveryOf(log'[i], i, calls) {
      var k :| 0 <= k < |calls[1..]| && IsRecovery(log'[i], i, calls[1..][k]);
      assert calls[1..][k] == calls[k + 1];
    }
  }

  lemma {:induction false} RecoverAllRecords(log: Log, calls: seq<Outcome>, known: set<Id>, faults: seq<Fault>)
    ensures RecordsOf(log, RecoverAll(log, calls, known, faults).0, calls)
    decreases |calls|
  {
    if calls != [] {
      if calls[0].callId in known {
        RecoverAllRecords(log, calls[1..], known, faults);
        RecordsOfMore(log, RecoverAll(log, calls, known, faults).0, calls);
      } else {
        var f, o := if faults == [] then Fine else faults[0], calls[0];
        var next := Write(log, f, ToolOutcomeRecovered, o.stepId, o.callId, o.tool, o.arguments);
        var done :=
          if f.Fine? then RecoverAll(next, calls[1..], known, if faults == [] then [] else faults[1..]).0 else next;
        if f.Fine? {
          RecoverAllRecords(next, calls[1..], known, if faults == [] then [] else faults[1..]);
          RecordsOfMore(next, done, calls);
        }
        RecordsFrom(log, next, done, calls);
      }
    }
  }

  lemma RecordsFrom(log: Log, next: Log, done: Log, calls: seq<Outcome>)
    requires calls != [] && log <= next && |next| <= |log| + 1 && RecordsOf(next, done, calls)
    requires |next| == |log| + 1 ==> IsRecovery(next[|log|], |log|, calls[0])
    ensures RecordsOf(log, done, calls)
  {
    PrefixTransitive(log, next, done);
    forall i | |log| <= i < |done| ensures IsRecoveryOf(done[i], i, calls) {
      if i < |next| {
        assert done[i] == next[i] && i == |log| && IsRecovery(done[i], i, calls[0]);
      }
    }
  }

  /** An injection adds recoveries of unknown calls to the log and nothing else, each with the data of its call. */
  lemma InjectionRecords(log: Log, mem: Memory, readFails: bool, faults: seq<Fault>)
    ensures RecordsOf(log, Inject(log, mem, readFails, faults).state.log, Unknown(log))
  {
    RecoverAllRecords(log, Unknown(log), RecoveredIds(log), faults);
  }
}
