/** The registry that bounds the sessions of an agent run (functions/console_session_registry.py). Its methods
    and the monitors of its sessions take the steps of `SessionLifecycle`, so what is proved of every run there
    holds of the code. */
module SessionRegistry {
  import opened Results
  import opened Sequences
  import opened SessionLifecycle
  import opened Uniques

  /** What closing these sessions raised, in order */
  function Messages(ids: seq<string>, close: map<string, Call>): seq<string>
    requires forall id <- ids :: id in close
  {
    if ids == [] then [] else
      var before, call := Messages(ids[..|ids| - 1], close), close[ids[|ids| - 1]];
      if call.Raises? then before + [call.message] else before
  }

  /** All of these can be asked for. */
  predicate Answered(ids: seq<string>, close: map<string, Call>) { forall id <- ids :: id in close }

  lemma MessageOf(id: string, close: map<string, Call>)
    requires id in close
    ensures Messages([id], close) == match close[id] case Returns => [] case Raises(message) => [message]
  {
    assert [id][..0] == [];
  }

  lemma LastOf<T>(xs: seq<T>, ys: seq<T>)
    requires ys != []
    ensures (xs + ys)[..|xs + ys| - 1] == xs + ys[..|ys| - 1] && (xs + ys)[|xs + ys| - 1] == ys[|ys| - 1]
  {
  }

  /** What is reported of two lists of sessions is what is reported of the one and then of the other. */
  lemma {:induction false} MessagesConcat(a: seq<string>, b: seq<string>, close: map<string, Call>)
    requires Answered(a, close) && Answered(b, close) && Answered(a + b, close)
    ensures Messages(a + b, close) == Messages(a, close) + Messages(b, close)
    decreases |b|
  {
    if b == [] {
      assert a + b == a;
    } else {
      var before := b[..|b| - 1];
      LastOf(a, b);
      MessagesConcat(a, before, close);
      if close[b[|b| - 1]].Raises? {
        Assoc(Messages(a, close), Messages(before, close), [close[b[|b| - 1]].message]);
      }
    }
  }

  /** One session changes. */
  function With(s: System, id: string, p: Process): System { s.(sessions := s.sessions[id := p]) }

  class Registry {
    var sessions: map<string, Session>
    var ids: seq<string>                 // the order of the dictionary
    var closed: bool

    /** The registry as a state of a run */
    ghost function View(): System
      reads this, sessions.Values
    {
      System(map id | id in sessions :: sessions[id].Now(), closed)
    }

    ghost predicate Listed()
      reads this`sessions, this`ids
    {
      (forall id :: id in ids <==> id in sessions) && AllDifferent(ids)
    }

    /** Every session is filed under its own name. */
    ghost predicate Filed()
      reads this, sessions.Values
    {
      Listed() && forall id <- sessions :: sessions[id].id == id
    }

    /** The state is also one that a run leads to, so that everything proved of runs holds of it. */
    ghost predicate Valid()
      reads this, sessions.Values
    {
      Filed() && Reachable(View())
    }

    constructor ()
      ensures Valid() && View() == EMPTY
    {
      sessions, ids, closed := map[], [], false;
      new;
      assert View() == EMPTY;
      StartReachable();
    }

    /** The sessions among these that are not done */
    ghost function Unfinished(some: seq<string>): set<string>
      requires forall id <- some :: id in sessions
      reads this, sessions.Values
    {
      set id | id in some && !sessions[id].done
    }

    /** The count of `start` */
    method CountRunning() returns (n: nat)
      requires Listed()
      ensures n == |RunningIds(View())|
    {
      n := 0;
      for i := 0 to |ids|
        invariant n == |Unfinished(ids[..i])|
      {
        UnfinishedNext(i);
        if !sessions[ids[i]].done {
          n := n + 1;
        }
      }
      assert ids[..|ids|] == ids;
      assert RunningIds(View()) == Unfinished(ids);
    }

    lemma UnfinishedNext(i: nat)
      requires Listed() && i < |ids|
      ensures |Unfinished(ids[..i + 1])| == |Unfinished(ids[..i])| + if sessions[ids[i]].done then 0 else 1
    {
      var some, more := ids[..i], ids[..i + 1];
      assert more == some + [ids[i]] && ids[i] !in some;
      if sessions[ids[i]].done {
        assert Unfinished(more) == Unfinished(some);
      } else {
        assert Unfinished(more) == Unfinished(some) + {ids[i]};
      }
    }

    /** `start`: the identifier is one that was never used, the launch may fail. */
    method Start(id: string, launch: Call) returns (r: Result<Session>)
      requires Valid() && id !in sessions
      modifies this`sessions, this`ids
      ensures Valid() && View() == Step(old(View()), Action.Start(id, launch))
      ensures r.Ok? <==> old(MayStart(View())) && launch.Returns?
      ensures r.Err? ==> sessions == old(sessions)
      ensures r.Ok? ==> fresh(r.value) && sessions == old(sessions)[id := r.value]
    {
      var refusal := Refusal();
      if refusal.Some? {
        return Err(refusal.value);
      }
      if launch.Raises? {
        return Err(launch.message);
      }
      StepReachable(View(), Action.Start(id, launch));
      var session := Admit(id);
      r := Ok(session);
    }

    /** The checks of `start` */
    method Refusal() returns (r: Option<string>)
      requires Listed()
      ensures r.None? <==> MayStart(View())
    {
      SameSize();
      if closed {
        return Some("Agent run has ended; its console sessions are closed");
      }
      var running := CountRunning();
      if |sessions| >= MAX_RETAINED || running >= MAX_RUNNING {
        return Some("Console session limit reached");
      }
      r := None;
    }

    /** The end of `start` */
    method Admit(id: string) returns (session: Session)
      requires Filed() && id !in sessions
      modifies this`sessions, this`ids
      ensures fresh(session) && sessions == old(sessions)[id := session] && Filed()
      ensures View() == old(View()).(sessions := old(View()).sessions[id := LAUNCHED])
    {
      session := new Session(id);
      assert forall i <- sessions :: sessions[i] != session;
      sessions, ids := sessions[id := session], ids + [id];
    }

    /** The registry observes its limits. */
    lemma Limits()
      requires Valid()
      ensures |sessions| <= MAX_RETAINED && |RunningIds(View())| <= MAX_RUNNING
    {
      ReachableSafe(View());
      SameSize();
    }

    lemma SameSize()
      ensures |View().sessions| == |sessions|
    {
      assert View().sessions.Keys == sessions.Keys;
    }

    /** `get` */
    method Get(id: string) returns (r: Result<Session>)
      requires Valid()
      ensures r.Ok? <==> id != "" && !closed && id in sessions
      ensures r.Ok? ==> r.value == sessions[id] && r.value.id == id
    {
      if id == "" {
        return Err("session_id must be a non-empty string");
      }
      if closed || id !in sessions {
        return Err("Unknown console session for this Agent run");
      }
      r := Ok(sessions[id]);
    }

    /** The monitor of a session looks once more. */
    method Turn(id: string, cancelled: bool, captureFailed: bool) returns (leaves: bool)
      requires Valid() && id in sessions && Looks(sessions[id].Now())
      modifies sessions.Values`ticks
      ensures Valid() && View() == Step(old(View()), Action.Turn(id, cancelled, captureFailed))
      ensures leaves <==> old(sessions[id].stopRequested) || cancelled || captureFailed
    {
      StepReachable(View(), Action.Turn(id, cancelled, captureFailed));
      leaves := LookAt(id, cancelled, captureFailed);
    }

    method LookAt(id: string, cancelled: bool, captureFailed: bool) returns (leaves: bool)
      requires Filed() && id in sessions && Looks(sessions[id].Now())
      modifies sessions.Values`ticks
      ensures Filed() && View() == With(old(View()), id, Seen(old(sessions[id].Now()), cancelled, captureFailed))
      ensures leaves <==> old(sessions[id].stopRequested) || cancelled || captureFailed
    {
      leaves := sessions[id].Look(cancelled, captureFailed);
    }

    /** The monitor of a session ends. */
    method End(id: string, seen: seq<Tick>, e: Ending)
      requires Valid() && id in sessions && !sessions[id].done && seen == sessions[id].ticks
      modifies sessions.Values
      ensures Valid() && View() == Step(old(View()), Action.End(id, e))
    {
      StepReachable(View(), Action.End(id, e));
      Finish(id, seen, e);
    }

    method Finish(id: string, seen: seq<Tick>, e: Ending)
      requires Filed() && id in sessions && !sessions[id].done && seen == sessions[id].ticks
      modifies sessions.Values
      ensures Filed() && View() == With(old(View()), id, Ended(old(sessions[id].Now()), e))
    {
      sessions[id].Monitor(seen, e);
    }

    /** A session is asked to stop, by a tool or by the wait for it. */
    method RequestStop(id: string)
      requires Valid() && id in sessions
      modifies sessions.Values`stopRequested
      ensures Valid() && View() == Step(old(View()), Action.RequestStop(id))
    {
      StepReachable(View(), Action.RequestStop(id));
      Ask(id);
    }

    method Ask(id: string)
      requires Filed() && id in sessions
      modifies sessions.Values`stopRequested
      ensures Filed() && View() == With(old(View()), id, old(sessions[id].Now()).(stopRequested := true))
    {
      sessions[id].stopRequested := true;
    }

    /** `close`: asks every session to stop before it waits for any of them; a session that cannot be closed
        is reported, once and in order, and keeps no other from being closed. */
    method Close(close: map<string, Call>) returns (errors: seq<string>)
      requires Valid() && close.Keys == sessions.Keys
      modifies this`closed, sessions.Values`stopRequested
      ensures Valid() && View() == Step(old(View()), Action.Close)
      ensures errors == Messages(ids, close)
    {
      StepReachable(View(), Action.Close);
      AskAll();
      errors := CollectErrors(ids, close);
    }

    /** The first half of `close`, under the lock */
    method AskAll()
      requires Filed()
      modifies this`closed, sessions.Values`stopRequested
      ensures Filed() && View() == Asked(old(View()))
    {
      closed := true;
      SetStops();
    }

    method SetStops()
      requires Listed()
      modifies sessions.Values`stopRequested
      ensures forall id <- sessions :: sessions[id].stopRequested
    {
      for i := 0 to |ids|
        invariant forall k :: 0 <= k < i ==> sessions[ids[k]].stopRequested
      {
        sessions[ids[i]].stopRequested := true;
      }
      forall id <- sessions ensures sessions[id].stopRequested {
        assert id in ids;
      }
    }
  }

  /** The second half of `close` */
  method CollectErrors(ids: seq<string>, close: map<string, Call>) returns (errors: seq<string>)
    requires forall id <- ids :: id in close
    ensures errors == Messages(ids, close)
  {
    errors := [];
    for i := 0 to |ids|
      invariant errors == Messages(ids[..i], close)
    {
      assert ids[..i + 1][..i] == ids[..i];
      if close[ids[i]].Raises? {
        errors := errors + [close[ids[i]].message];
      }
    }
    assert ids[..|ids|] == ids;
  }
}
