/** How a console session ends (`_monitor` of functions/console_session_process.py) and the registry
    that bounds the sessions of an agent run (functions/console_session_registry.py). */
module SessionLifecycle {
  import opened Results
  import opened Uniques

  const MAX_RETAINED := 128
  const MAX_RUNNING := 8

  datatype Status = Running | Success | Error | Stopped

  /** What a turn of the monitor's loop sees while the process has not exited. */
  datatype Tick = Tick(stop: bool, captureFailed: bool)

  datatype Call = Returns | Raises(message: string)

  /** What the calls of the monitor give after its loop. */
  datatype Ending = Ending(
    poll: Call,              // the poll that left the loop without an interruption
    terminate: Call,         // terminating the tree and waiting for it, after an interruption
    job: bool,               // the process runs in a job object
    count: Call, children: nat, childrenForbidden: bool,
    release: Call,           // closing the job or terminating the tree
    lingering: bool,         // an output thread outlives the first wait
    terminateAgain: Call, stillOpen: bool,
    captureErrors: seq<string>,
    returncode: Option<int>, // none if the process has not exited
    cleanup: Call)           // closing the job and the launch script

  // ---------- How a session must end ----------

  predicate Interrupts(t: Tick) { t.stop || t.captureFailed }

  /** The first tick that interrupts the loop */
  function Interruption(ticks: seq<Tick>): Option<Tick> {
    if ticks == [] then None else
    if Interrupts(ticks[0]) then Some(ticks[0]) else Interruption(ticks[1..])
  }

  /** A call that is made raises. */
  predicate Fails(interrupted: bool, e: Ending) {
    || (if interrupted then e.terminate.Raises? else e.poll.Raises? || (e.job && e.count.Raises?))
    || e.release.Raises?
    || (e.lingering && (e.terminateAgain.Raises? || e.stillOpen))
    || e.cleanup.Raises?
  }

  /** The shell exited by itself and left children behind although the policy forbids it. */
  predicate LeavesChildren(interrupted: bool, e: Ending) {
    !interrupted && e.job && e.children > 0 && e.childrenForbidden
  }

  /** What must become of a session */
  function Outcome(ticks: seq<Tick>, e: Ending): Status {
    var first := Interruption(ticks);
    if Fails(first.Some?, e) || e.captureErrors != [] || LeavesChildren(first.Some?, e) then Error
    else match first
      case Some(t) => if t.stop then Stopped else Error
      case None => if e.returncode == Some(0) then Success else Error
  }

  lemma {:induction false} InterruptionExact(ticks: seq<Tick>)
    ensures Interruption(ticks).None? <==> forall t <- ticks :: !Interrupts(t)
    ensures Interruption(ticks).Some? ==> Interrupts(Interruption(ticks).value) && Interruption(ticks).value in ticks
  {
    if ticks != [] {
      InterruptionExact(ticks[1..]);
      assert ticks == [ticks[0]] + ticks[1..];
    }
  }

  /** No turn of the loop saw anything amiss. */
  predicate Undisturbed(ticks: seq<Tick>) { forall t <- ticks :: !t.stop && !t.captureFailed }

  /** The first thing that a turn of the loop saw was a stop. */
  predicate StopCameFirst(ticks: seq<Tick>) {
    exists k :: 0 <= k < |ticks| && ticks[k].stop && Undisturbed(ticks[..k])
  }

  /** The process exited and, as far as it is known, left no child behind that is forbidden. */
  predicate Exited(e: Ending) {
    && e.poll.Returns?
    && (e.job ==> e.count.Returns? && !(e.children > 0 && e.childrenForbidden))
  }

  /** Nothing went wrong on the way out, neither with the process nor with its output. */
  predicate Tidy(e: Ending) {
    && e.release.Returns? && e.cleanup.Returns? && e.captureErrors == []
    && (e.lingering ==> e.terminateAgain.Returns? && !e.stillOpen)
  }

  lemma StopComesLater(t: Tick, ticks: seq<Tick>)
    requires !Interrupts(t)
    ensures StopCameFirst([t] + ticks) <==> StopCameFirst(ticks)
  {
    var all := [t] + ticks;
    if k :| 0 <= k < |ticks| && ticks[k].stop && Undisturbed(ticks[..k]) {
      assert all[..k + 1] == [t] + ticks[..k];
      assert all[k + 1].stop && Undisturbed(all[..k + 1]);
    }
    if k :| 0 <= k < |all| && all[k].stop && Undisturbed(all[..k]) {
      assert all[..k] == [t] + ticks[..k - 1];
      assert ticks[k - 1].stop && Undisturbed(ticks[..k - 1]);
    }
  }

  lemma StopComesNow(t: Tick, ticks: seq<Tick>)
    requires Interrupts(t)
    ensures StopCameFirst([t] + ticks) <==> t.stop
  {
    var all := [t] + ticks;
    if t.stop {
      assert all[0].stop && Undisturbed(all[..0]);
    }
    forall k | 0 < k < |all| ensures !Undisturbed(all[..k]) { assert all[..k][0] == t; }
  }

  lemma {:induction false} StopFirst(ticks: seq<Tick>)
    ensures Interruption(ticks).None? <==> Undisturbed(ticks)
    ensures Interruption(ticks).Some? && Interruption(ticks).value.stop <==> StopCameFirst(ticks)
  {
    InterruptionExact(ticks);
    if ticks != [] {
      assert ticks == [ticks[0]] + ticks[1..];
      if Interrupts(ticks[0]) {
        StopComesNow(ticks[0], ticks[1..]);
      } else {
        StopComesLater(ticks[0], ticks[1..]);
        StopFirst(ticks[1..]);
      }
    }
  }

  /** A session ends in success exactly when the process exited by itself with code zero, no forbidden child was
      left, nothing was lost of its output and no call failed; it is stopped exactly when a stop was the first
      thing that was seen and ending it went well; and in all other cases it is an error. */
  lemma OutcomeExact(ticks: seq<Tick>, e: Ending)
    ensures Outcome(ticks, e) in {Success, Error, Stopped}
    ensures Outcome(ticks, e) == Success <==> Undisturbed(ticks) && Exited(e) && Tidy(e) && e.returncode == Some(0)
    ensures Outcome(ticks, e) == Stopped <==> StopCameFirst(ticks) && e.terminate.Returns? && Tidy(e)
  {
    StopFirst(ticks);
  }

  // ---------- The monitor ----------

  class Session {
    const id: string
    var status: Status
    var error: Option<string>
    var returncode: Option<int>
    var done: bool
    var stopRequested: bool
    ghost var ticks: seq<Tick>           // what the turns of the monitor's loop have seen
    ghost var ending: Option<Ending>     // how it ended

    /** The session as it appears in a run */
    ghost function Now(): Process
      reads this`status, this`done, this`stopRequested, this`ticks, this`ending
    {
      Process(status, done, stopRequested, ticks, ending)
    }

    constructor (id: string)
      ensures this.id == id && Now() == LAUNCHED && error == None && returncode == None
    {
      this.id := id;
      status, error, returncode, done, stopRequested := Running, None, None, false, false;
      ticks, ending := [], None;
    }

    /** A turn of the loop of `_monitor` while the process runs: whether it leaves the loop */
    method Look(cancelled: bool, captureFailed: bool) returns (leaves: bool)
      requires Looks(Now())
      modifies this`ticks
      ensures Now() == Seen(old(Now()), cancelled, captureFailed)
      ensures leaves <==> !Looks(Now())
      ensures leaves <==> stopRequested || cancelled || captureFailed
    {
      var stop := stopRequested || cancelled;
      leaves := stop || captureFailed;
      LookMeans(ticks, Tick(stop, captureFailed));
      ticks := ticks + [Tick(stop, captureFailed)];
    }

    /** `_monitor`, given what the turns of its loop have seen: ends in exactly one of three ways, as `Outcome`
        says; the only end without a message but for success is a process that exited by itself with a code
        other than zero. */
    method Monitor(seen: seq<Tick>, e: Ending)
      requires !done && seen == ticks
      modifies this`status, this`error, this`returncode, this`done, this`ending
      ensures Now() == Ended(old(Now()), e) && returncode == e.returncode
      ensures error.None? <==> Undisturbed(seen) && Exited(e) && Tidy(e)
      ensures e.cleanup.Raises? ==> error == Some(e.cleanup.message)
    {
      StopFirst(seen);
      var supervised := Supervise(seen, e);
      var outcome, message := Error, None;
      if supervised.Ok? {
        outcome, message := supervised.value.0, supervised.value.1;
      } else {
        message := Some(supervised.error);
      }
      if e.cleanup.Raises? {
        outcome, message := Error, Some(e.cleanup.message);
      }
      status, error := outcome, message;
      returncode := e.returncode;
      done, ending := true, Some(e);
    }
  }

  lemma {:induction false} LookMeans(ticks: seq<Tick>, t: Tick)
    requires Interruption(ticks).None?
    ensures Interruption(ticks + [t]).None? <==> !Interrupts(t)
  {
    InterruptionExact(ticks);
    InterruptionExact(ticks + [t]);
    assert (ticks + [t])[|ticks|] == t;
  }

  /** The `try` block of `_monitor` with the cleanup taken away */
  function Uncleaned(e: Ending): Ending { e.(cleanup := Returns) }

  /** The `try` block of `_monitor`: an error is an exception. */
  method Supervise(ticks: seq<Tick>, e: Ending) returns (r: Result<(Status, Option<string>)>)
    ensures r.Err? <==> Fails(Interruption(ticks).Some?, Uncleaned(e))
    ensures r.Ok? ==> r.value.0 == Outcome(ticks, Uncleaned(e))
    ensures r.Ok? ==> (r.value.1.None? <==>
              e.captureErrors == [] && !LeavesChildren(Interruption(ticks).Some?, e) && Interruption(ticks).None?)
  {
    var outcome, error := Watch(ticks);
    if outcome == Running {
      if e.poll.Raises? {
        return Err(e.poll.message);
      }
    } else if e.terminate.Raises? {
      return Err(e.terminate.message);
    }
    if e.job && outcome == Running {
      if e.count.Raises? {
        return Err(e.count.message);
      }
      outcome, error := JudgeChildren(e);
    }
    if e.release.Raises? {
      return Err(e.release.message);
    }
    r := FinishOutput(outcome, error, e);
  }

  /** What the children left behind make of a shell that exited by itself */
  method JudgeChildren(e: Ending) returns (outcome: Status, error: Option<string>)
    ensures outcome == if e.children > 0 && e.childrenForbidden then Error else Running
    ensures error.None? <==> outcome == Running
  {
    outcome, error := Running, None;
    if e.children > 0 && e.childrenForbidden {
      outcome, error := Error, Some("Shell exited while child processes were still running");
    }
  }

  /** The end of the `try` block, from the wait for the output threads on */
  method FinishOutput(soFar: Status, message: Option<string>, e: Ending) returns (r: Result<(Status, Option<string>)>)
    ensures r.Err? <==> e.lingering && (e.terminateAgain.Raises? || e.stillOpen)
    ensures r.Ok? ==> r.value.0 == (if e.captureErrors != [] then Error
                                    else if soFar != Running then soFar
                                    else if e.returncode == Some(0) then Success else Error)
    ensures r.Ok? ==> (r.value.1.None? <==> e.captureErrors == [] && message.None?)
  {
    if e.lingering {
      if e.terminateAgain.Raises? {
        return Err(e.terminateAgain.message);
      }
      if e.stillOpen {
        return Err("Process exited but output pipes remain open");
      }
    }
    var outcome, error := soFar, message;
    if e.captureErrors != [] {
      outcome, error := Error, Some("Console output capture failed.");
    }
    if outcome == Running {
      outcome := if e.returncode == Some(0) then Success else Error;
    }
    r := Ok((outcome, error));
  }

  /** The loop of `_monitor` */
  method Watch(ticks: seq<Tick>) returns (outcome: Status, error: Option<string>)
    ensures outcome == match Interruption(ticks) case None => Running case Some(t) => if t.stop then Stopped else Error
    ensures error.None? <==> outcome == Running
  {
    outcome, error := Running, None;
    var i := 0;
    while i < |ticks|
      invariant 0 <= i <= |ticks|
      invariant outcome == Running && error == None
      invariant Interruption(ticks) == Interruption(ticks[i..])
    {
      if ticks[i].stop {
        return Stopped, Some("Command cancelled; its process tree was terminated.");
      } else if ticks[i].captureFailed {
        return Error, Some("Console output capture failed.");
      }
      i := i + 1;
    }
  }

  // ---------- Runs of a registry ----------

  /** A session in a run, with the ticks its monitor has seen and how it ended. */
  datatype Process = Process(status: Status, done: bool, stopRequested: bool, ticks: seq<Tick>, ending: Option<Ending>)

  datatype System = System(sessions: map<string, Process>, closed: bool)

  datatype Action =
    | Start(id: string, launch: Call)
    | RequestStop(id: string)
    | Turn(id: string, cancelled: bool, captureFailed: bool)
    | End(id: string, e: Ending)
    | Close

  const LAUNCHED := Process(Running, false, false, [], None)
  const EMPTY := System(map[], false)

  function RunningIds(s: System): set<string> { set id | id in s.sessions && !s.sessions[id].done }

  /** Whether `start` accepts another session */
  predicate MayStart(s: System) {
    !s.closed && |s.sessions| < MAX_RETAINED && |RunningIds(s)| < MAX_RUNNING
  }

  function Asked(s: System): System {
    System(map id | id in s.sessions :: s.sessions[id].(stopRequested := true), true)
  }

  /** The monitor can look again: it has neither ended nor left its loop. */
  predicate Looks(p: Process) { !p.done && Interruption(p.ticks).None? }

  function Step(s: System, a: Action): System {
    match a
    case Start(id, launch) =>
      if MayStart(s) && launch.Returns? && id !in s.sessions then s.(sessions := s.sessions[id := LAUNCHED]) else s
    case RequestStop(id) =>
      if id in s.sessions then s.(sessions := s.sessions[id := s.sessions[id].(stopRequested := true)]) else s
    case Turn(id, cancelled, captureFailed) =>
      if id in s.sessions && Looks(s.sessions[id]) then
        s.(sessions := s.sessions[id := Seen(s.sessions[id], cancelled, captureFailed)])
      else s
    case End(id, e) =>
      if id in s.sessions && !s.sessions[id].done then s.(sessions := s.sessions[id := Ended(s.sessions[id], e)]) else s
    case Close => Asked(s)
  }

  function Seen(p: Process, cancelled: bool, captureFailed: bool): Process {
    p.(ticks := p.ticks + [Tick(p.stopRequested || cancelled, captureFailed)])
  }

  function Ended(p: Process, e: Ending): Process {
    p.(status := Outcome(p.ticks, e), done := true, ending := Some(e))
  }

  function Run(s: System, actions: seq<Action>): System
    decreases |actions|
  {
    if actions == [] then s else Run(Step(s, actions[0]), actions[1..])
  }

  /** A session that is not done is running; one that is done has the outcome its history decides. */
  predicate Proper(p: Process) {
    if p.done then p.ending.Some? && p.status == Outcome(p.ticks, p.ending.value)
    else p.status == Running && p.ending.None?
  }

  ghost predicate Inv(s: System) {
    && |s.sessions| <= MAX_RETAINED
    && |RunningIds(s)| <= MAX_RUNNING
    && (forall id <- s.sessions :: Proper(s.sessions[id]))
    && (s.closed ==> forall id <- s.sessions :: s.sessions[id].stopRequested)
  }

  lemma SubsetIsSmaller<T>(a: set<T>, b: set<T>)
    requires a <= b
    ensures |a| <= |b|
  {
    assert b == a + (b - a);
  }

  /** A session changes, keeps its stop request and does not start to run again. */
  lemma ChangeKeeps(s: System, id: string, p: Process)
    requires Inv(s) && id in s.sessions && Proper(p)
    requires s.sessions[id].done ==> p.done
    requires s.sessions[id].stopRequested ==> p.stopRequested
    ensures Inv(s.(sessions := s.sessions[id := p]))
  {
    var t := s.(sessions := s.sessions[id := p]);
    assert t.sessions.Keys == s.sessions.Keys;
    SubsetIsSmaller(RunningIds(t), RunningIds(s));
  }

  lemma StartKeeps(s: System, id: string)
    requires Inv(s) && MayStart(s) && id !in s.sessions
    ensures Inv(s.(sessions := s.sessions[id := LAUNCHED]))
  {
    RunningAfterStart(s, id);
    assert s.sessions[id := LAUNCHED].Keys == s.sessions.Keys + {id};
  }

  lemma RunningAfterStart(s: System, id: string)
    requires id !in s.sessions
    ensures RunningIds(s.(sessions := s.sessions[id := LAUNCHED])) == RunningIds(s) + {id}
  {
  }

  lemma CloseKeeps(s: System)
    requires Inv(s)
    ensures Inv(Asked(s))
  {
    assert Asked(s).sessions.Keys == s.sessions.Keys;
    assert RunningIds(Asked(s)) == RunningIds(s);
  }

  lemma StepKeeps(s: System, a: Action)
    requires Inv(s)
    ensures Inv(Step(s, a))
  {
    match a
    case Start(id, launch) =>
      if MayStart(s) && launch.Returns? && id !in s.sessions { StartKeeps(s, id); }
    case RequestStop(id) =>
      if id in s.sessions { ChangeKeeps(s, id, s.sessions[id].(stopRequested := true)); }
    case Turn(id, cancelled, captureFailed) =>
      if id in s.sessions && Looks(s.sessions[id]) {
        ChangeKeeps(s, id, Seen(s.sessions[id], cancelled, captureFailed));
      }
    case End(id, e) =>
      if id in s.sessions && !s.sessions[id].done { ChangeKeeps(s, id, Ended(s.sessions[id], e)); }
    case Close => CloseKeeps(s);
  }

  lemma {:induction false} RunKeeps(s: System, actions: seq<Action>)
    requires Inv(s)
    ensures Inv(Run(s, actions))
    decreases |actions|
  {
    if actions != [] {
      StepKeeps(s, actions[0]);
      RunKeeps(Step(s, actions[0]), actions[1..]);
    }
  }

  predicate SameEnd(p: Process, q: Process) {
    p.status == q.status && p.done == q.done && p.ticks == q.ticks && p.ending == q.ending
  }

  /** The ticks after these are all stops. */
  predicate OnlyStops(before: seq<Tick>, after: seq<Tick>) {
    before <= after && forall k :: |before| <= k < |after| ==> after[k].stop
  }

  /** What the future keeps: sessions stay, one that is done stays as it ended, one that was asked to stop sees
      no other tick but a stop, and after the close none is added. */
  ghost predicate Keeps(s: System, t: System) {
    && s.sessions.Keys <= t.sessions.Keys
    && (forall id <- s.sessions | s.sessions[id].done :: SameEnd(s.sessions[id], t.sessions[id]))
    && (forall id <- s.sessions :: s.sessions[id].ticks <= t.sessions[id].ticks)
    && (s.closed ==> t.closed && t.sessions.Keys == s.sessions.Keys)
    && (forall id <- s.sessions | s.sessions[id].stopRequested ::
          t.sessions[id].stopRequested && OnlyStops(s.sessions[id].ticks, t.sessions[id].ticks))
  }

  lemma ChangeMoves(s: System, id: string, p: Process)
    requires id in s.sessions && s.sessions[id].ticks <= p.ticks
    requires s.sessions[id].done ==> SameEnd(s.sessions[id], p)
    requires s.sessions[id].stopRequested ==> p.stopRequested && OnlyStops(s.sessions[id].ticks, p.ticks)
    ensures Keeps(s, s.(sessions := s.sessions[id := p]))
  {
  }

  lemma StartMoves(s: System, id: string)
    requires !s.closed && id !in s.sessions
    ensures Keeps(s, s.(sessions := s.sessions[id := LAUNCHED]))
  {
  }

  lemma CloseMoves(s: System)
    ensures Keeps(s, Asked(s))
  {
  }

  lemma StepMoves(s: System, a: Action)
    requires Inv(s)
    ensures Keeps(s, Step(s, a))
  {
    match a
    case Start(id, launch) =>
      if MayStart(s) && launch.Returns? && id !in s.sessions { StartMoves(s, id); }
    case RequestStop(id) =>
      if id in s.sessions { ChangeMoves(s, id, s.sessions[id].(stopRequested := true)); }
    case Turn(id, cancelled, captureFailed) =>
      if id in s.sessions && Looks(s.sessions[id]) {
        ChangeMoves(s, id, Seen(s.sessions[id], cancelled, captureFailed));
      }
    case End(id, e) =>
      if id in s.sessions && !s.sessions[id].done { ChangeMoves(s, id, Ended(s.sessions[id], e)); }
    case Close => CloseMoves(s);
  }

  lemma KeepsTransitive(s: System, t: System, u: System)
    requires Keeps(s, t) && Keeps(t, u)
    ensures Keeps(s, u)
  {
    forall id | id in s.sessions
      ensures s.sessions[id].ticks <= u.sessions[id].ticks
      ensures s.sessions[id].stopRequested ==> OnlyStops(s.sessions[id].ticks, u.sessions[id].ticks)
    {
      TicksGrow(s.sessions[id].ticks, t.sessions[id].ticks, u.sessions[id].ticks);
    }
  }

  lemma TicksGrow(a: seq<Tick>, b: seq<Tick>, c: seq<Tick>)
    requires a <= b <= c
    ensures a <= c
    ensures OnlyStops(a, b) && OnlyStops(b, c) ==> OnlyStops(a, c)
  {
    assert forall k | 0 <= k < |b| :: b[k] == c[k];
  }

  /** Nothing is started after the close, and what is done never changes, whatever comes after. */
  lemma {:induction false} RunMoves(s: System, actions: seq<Action>)
    requires Inv(s)
    ensures Keeps(s, Run(s, actions))
    decreases |actions|
  {
    if actions != [] {
      var t := Step(s, actions[0]);
      StepKeeps(s, actions[0]);
      StepMoves(s, actions[0]);
      RunMoves(t, actions[1..]);
      KeepsTransitive(s, t, Run(t, actions[1..]));
    }
  }

  /** Over every run of starts, stops, monitors and a close, and from every point of it on: never more
      than 128 sessions retained or 8 running; every session that is done has ended in success, error or
      stopped, as its own history decides, and stays so; nothing is started once the registry is closed. */
  lemma RunSafe(past: seq<Action>, future: seq<Action>)
    ensures var s := Run(EMPTY, past);
            var t := Run(s, future);
            && |t.sessions| <= MAX_RETAINED && |RunningIds(t)| <= MAX_RUNNING
            && (forall id <- s.sessions :: id in t.sessions)
            && (s.closed ==> t.closed && t.sessions.Keys == s.sessions.Keys)
            && (forall id <- s.sessions | s.sessions[id].done ::
                  && s.sessions[id].ending.Some?
                  && t.sessions[id].status == s.sessions[id].status ==
                    Outcome(s.sessions[id].ticks, s.sessions[id].ending.value)
                  && t.sessions[id].done)
            && (forall id <- s.sessions | !s.sessions[id].done :: s.sessions[id].status == Running)
  {
    RunKeeps(EMPTY, past);
    RunKeeps(Run(EMPTY, past), future);
    RunMoves(Run(EMPTY, past), future);
  }

  /** A session that was still being watched when the registry closed, and is seen again, does not
      succeed: its monitor stops it. */
  lemma WatchedAtCloseIsStopped(s: System, actions: seq<Action>, id: string)
    requires Inv(s) && s.closed && id in s.sessions
    requires var t := Run(s, actions);
             id in t.sessions && t.sessions[id].done && |s.sessions[id].ticks| < |t.sessions[id].ticks|
    ensures Run(s, actions).sessions[id].status in {Error, Stopped}
  {
    RunKeeps(s, actions);
    RunMoves(s, actions);
    var before, after := s.sessions[id], Run(s, actions).sessions[id];
    var tick := after.ticks[|before.ticks|];
    assert tick.stop && tick in after.ticks;
    OutcomeExact(after.ticks, after.ending.value);
  }

  // ---------- What starts, and who is stopped ----------

  /** A start adds its session exactly if the registry is open, fewer than 128 sessions are kept and fewer than
      8 of them run, and the launch succeeds; the session then runs, and no other session is touched. */
  lemma StartExact(s: System, id: string, launch: Call)
    requires id !in s.sessions
    ensures var t := Step(s, Start(id, launch));
            && (id in t.sessions <==> !s.closed && |s.sessions| < 128 && |RunningIds(s)| < 8 && launch.Returns?)
            && (id in t.sessions ==> t.sessions == s.sessions[id := LAUNCHED])
            && (id !in t.sessions ==> t == s) && t.closed == s.closed
  {
  }

  /** The first so many of these */
  function Foremost(n: nat, ids: seq<string>): seq<string> { if |ids| <= n then ids else ids[..n] }

  lemma ForemostNext(n: nat, ids: seq<string>)
    requires AllDifferent(ids) && ids != []
    ensures var kept, id := Foremost(n, ids[..|ids| - 1]), ids[|ids| - 1];
            && AllDifferent(kept) && id !in kept
            && Foremost(n, ids) == if |kept| < n then kept + [id] else kept
  {
  }

  /** All these sessions start. */
  function Starts(ids: seq<string>): seq<Action> {
    if ids == [] then [] else Starts(ids[..|ids| - 1]) + [Start(ids[|ids| - 1], Returns)]
  }

  function Names(ids: seq<string>): set<string> { set id | id in ids }

  lemma {:induction false} NamesCount(ids: seq<string>)
    requires AllDifferent(ids)
    ensures |Names(ids)| == |ids|
  {
    if ids != [] {
      var before, id := ids[..|ids| - 1], ids[|ids| - 1];
      NamesCount(before);
      assert ids == before + [id];
      assert Names(ids) == Names(before) + {id} && id !in before;
    }
  }

  /** The registry after sessions that have just been started */
  function Fresh(ids: seq<string>): System { System(map id | id in ids :: LAUNCHED, false) }

  lemma FreshSizes(ids: seq<string>)
    requires AllDifferent(ids)
    ensures |Fresh(ids).sessions| == |ids| == |RunningIds(Fresh(ids))|
  {
    NamesCount(ids);
    assert Fresh(ids).sessions.Keys == Names(ids) == RunningIds(Fresh(ids));
  }

  lemma FreshNext(ids: seq<string>, id: string)
    requires AllDifferent(ids) && id !in ids
    ensures Step(Fresh(ids), Start(id, Returns)) == Fresh(if |ids| < 8 then ids + [id] else ids)
  {
    FreshSizes(ids);
    StartExact(Fresh(ids), id, Returns);
    assert Fresh(ids).sessions[id := LAUNCHED] == Fresh(ids + [id]).sessions;
  }

  /** Of sessions that are started one after the other, none of which ends, the first eight run, and no more. */
  lemma {:induction false} EightRun(ids: seq<string>)
    requires AllDifferent(ids)
    ensures Run(EMPTY, Starts(ids)) == Fresh(Foremost(8, ids))
  {
    if ids == [] {
      assert Fresh([]) == EMPTY;
    } else {
      var before, id := ids[..|ids| - 1], ids[|ids| - 1];
      EightRun(before);
      ForemostNext(8, ids);
      FreshNext(Foremost(8, before), id);
      RunSnoc(EMPTY, Starts(before), Start(id, Returns));
    }
  }

  /** A session that is started and ends at once */
  function Brief(id: string, e: Ending): seq<Action> { [Start(id, Returns), End(id, e)] }

  function Briefly(ids: seq<string>, e: Ending): seq<Action> {
    if ids == [] then [] else Briefly(ids[..|ids| - 1], e) + Brief(ids[|ids| - 1], e)
  }

  /** The registry after sessions that have ended at once */
  function Over(ids: seq<string>, e: Ending): System { System(map id | id in ids :: Ended(LAUNCHED, e), false) }

  /** Of sessions that end at once the first 128 are kept, and no more are started. */
  lemma {:induction false} ManyKept(ids: seq<string>, e: Ending)
    requires AllDifferent(ids)
    ensures Run(EMPTY, Briefly(ids, e)) == Over(Foremost(128, ids), e)
  {
    if ids == [] {
      assert Over([], e) == EMPTY;
    } else {
      var before, id := ids[..|ids| - 1], ids[|ids| - 1];
      ManyKept(before, e);
      ForemostNext(128, ids);
      BriefExact(Foremost(128, before), id, e);
      RunTwo(EMPTY, Briefly(before, e), Start(id, Returns), End(id, e));
    }
  }

  lemma OverSizes(ids: seq<string>, e: Ending)
    requires AllDifferent(ids)
    ensures |Over(ids, e).sessions| == |ids| && RunningIds(Over(ids, e)) == {}
  {
    NamesCount(ids);
    assert Over(ids, e).sessions.Keys == Names(ids);
  }

  lemma BriefExact(ids: seq<string>, id: string, e: Ending)
    requires AllDifferent(ids) && id !in ids
    ensures Step(Step(Over(ids, e), Start(id, Returns)), End(id, e)) ==
            Over(if |ids| < 128 then ids + [id] else ids, e)
  {
    OverSizes(ids, e);
    StartExact(Over(ids, e), id, Returns);
    assert Over(ids, e).sessions[id := LAUNCHED][id := Ended(LAUNCHED, e)] == Over(ids + [id], e).sessions;
  }

  lemma RunTwo(s: System, actions: seq<Action>, a: Action, b: Action)
    ensures Run(s, actions + [a, b]) == Step(Step(Run(s, actions), a), b)
  {
    RunSnoc(s, actions, a);
    RunSnoc(s, actions + [a], b);
    assert actions + [a, b] == (actions + [a]) + [b];
  }

  /** A stop that is asked for, of one session or by the close of the registry, reaches its session, whatever
      happens before it looks again: it sees nothing but the stop, leaves its loop and does not succeed. */
  lemma RequestReaches(s: System, a: Action, actions: seq<Action>, id: string)
    requires Inv(s) && id in s.sessions && Looks(s.sessions[id])
    requires a == RequestStop(id) || a == Close
    ensures var p := Run(Step(s, a), actions).sessions;
            && id in p && p[id].stopRequested && OnlyStops(s.sessions[id].ticks, p[id].ticks)
            && (p[id].done && s.sessions[id].ticks != p[id].ticks ==> p[id].status in {Error, Stopped})
  {
    StepKeeps(s, a);
    RunKeeps(Step(s, a), actions);
    RunMoves(Step(s, a), actions);
    var before, after := s.sessions[id], Run(Step(s, a), actions).sessions[id];
    if after.done && before.ticks != after.ticks {
      assert after.ticks[|before.ticks|].stop && after.ticks[|before.ticks|] in after.ticks;
      OutcomeExact(after.ticks, after.ending.value);
    }
  }

  lemma NextTick(ticks: seq<Tick>, t: Tick)
    requires Undisturbed(ticks)
    ensures Undisturbed(ticks + [t]) <==> !Interrupts(t)
    ensures StopCameFirst(ticks + [t]) <==> t.stop
  {
    var all := ticks + [t];
    assert all[|ticks|] == t && all[..|ticks|] == ticks;
    assert forall k :: 0 <= k < |ticks| ==> all[k] == ticks[k] && ticks[k] in ticks;
    if t.stop {
      assert all[|ticks|].stop && Undisturbed(all[..|ticks|]);
    }
  }

  lemma EndAfter(ticks: seq<Tick>, t: Tick, e: Ending)
    requires Interruption(ticks).None?
    ensures Outcome(ticks + [t], e) ==
            if t.stop then (if e.terminate.Returns? && Tidy(e) then Stopped else Error)
            else if !t.captureFailed && Exited(e) && Tidy(e) && e.returncode == Some(0) then Success else Error
  {
    StopFirst(ticks);
    NextTick(ticks, t);
    OutcomeExact(ticks + [t], e);
  }

  /** A turn of the loop, and the end that follows: a session that was asked to stop or sees that the run is
      cancelled is stopped, if ending it goes well; failed capturing is an error; and when nothing is amiss it
      ends as the process did. */
  lemma HowItEnds(s: System, id: string, cancelled: bool, captureFailed: bool, e: Ending)
    requires id in s.sessions && Looks(s.sessions[id])
    ensures var after := Step(Step(s, Turn(id, cancelled, captureFailed)), End(id, e)).sessions;
            && id in after && after[id].done && after[id].ending == Some(e)
            && after[id].status ==
               if s.sessions[id].stopRequested || cancelled
               then (if e.terminate.Returns? && Tidy(e) then Stopped else Error)
               else if !captureFailed && Exited(e) && Tidy(e) && e.returncode == Some(0) then Success else Error
  {
    EndAfter(s.sessions[id].ticks, Tick(s.sessions[id].stopRequested || cancelled, captureFailed), e);
  }

  /** The action stops this session, or lets it see that the run is cancelled. */
  predicate Stops(a: Action, id: string) {
    a == Close || a == RequestStop(id) || (a.Turn? && a.id == id && a.cancelled)
  }

  predicate NeverStopped(p: Process) { !p.stopRequested && forall t <- p.ticks :: !t.stop }

  lemma StepUnasked(s: System, a: Action, id: string)
    requires !Stops(a, id) && (id in s.sessions ==> NeverStopped(s.sessions[id]))
    ensures id in Step(s, a).sessions ==> NeverStopped(Step(s, a).sessions[id])
  {
  }

  /** And no session is stopped for another: if it was never asked and the run never cancelled, no stop is seen,
      and it does not end as stopped. */
  lemma {:induction false} NobodyElseStops(s: System, actions: seq<Action>, id: string)
    requires Inv(s) && (id in s.sessions ==> NeverStopped(s.sessions[id]))
    requires forall a <- actions :: !Stops(a, id)
    ensures var p := Run(s, actions).sessions;
            id in p ==> NeverStopped(p[id]) && p[id].status != Stopped
    decreases |actions|
  {
    if actions == [] {
      if id in s.sessions && s.sessions[id].done { OutcomeExact(s.sessions[id].ticks, s.sessions[id].ending.value); }
    } else {
      assert !Stops(actions[0], id);
      StepUnasked(s, actions[0], id);
      StepKeeps(s, actions[0]);
      assert forall a <- actions[1..] :: a in actions;
      NobodyElseStops(Step(s, actions[0]), actions[1..], id);
    }
  }

  // ---------- Reachable states ----------

  /** A run from the empty registry leads there. */
  ghost predicate Reachable(s: System) { exists actions :: s == Run(EMPTY, actions) }

  lemma {:induction false} RunSnoc(s: System, actions: seq<Action>, a: Action)
    ensures Run(s, actions + [a]) == Step(Run(s, actions), a)
    decreases |actions|
  {
    if actions == [] {
      assert ([] + [a])[0] == a && ([] + [a])[1..] == [];
    } else {
      RunSnoc(Step(s, actions[0]), actions[1..], a);
      assert (actions + [a])[1..] == actions[1..] + [a];
    }
  }

  lemma StartReachable()
    ensures Reachable(EMPTY)
  {
    assert Run(EMPTY, []) == EMPTY;
  }

  lemma StepReachable(s: System, a: Action)
    requires Reachable(s)
    ensures Reachable(Step(s, a))
  {
    var actions :| s == Run(EMPTY, actions);
    RunSnoc(EMPTY, actions, a);
  }

  /** What holds wherever a run leads */
  lemma ReachableSafe(s: System)
    requires Reachable(s)
    ensures Inv(s)
  {
    var actions :| s == Run(EMPTY, actions);
    RunKeeps(EMPTY, actions);
  }
}
