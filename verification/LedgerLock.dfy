/** Several processes appending to one ledger (src/agent_step_ledger.py, `append`; src/file_transaction.py,
    `run_with_interprocess_lock`). An append takes the file lock, counts the records, writes one with the
    next number and releases the lock; other processes may run between any two of these steps, and a
    process may fail or die at any of them. The operating system releases the lock of a dead process. */
module LedgerLock {
  import opened Results
  import opened StepLedger

  type Process = nat

  datatype Phase = Idle | Locked | Counted(records: nat) | Written

  datatype World = World(log: Log, owner: Option<Process>, phase: map<Process, Phase>)

  datatype Move =
    | Lock(p: Process)
    | Count(p: Process)
    | Write(p: Process, record: Event)     // the number of the record is not the caller's to choose
    | Unlock(p: Process)                   // at the end, or because something raised
    | Die(p: Process)

  function PhaseOf(w: World, p: Process): Phase { if p in w.phase then w.phase[p] else Idle }

  /** A move, or the same world when the process cannot make it now. */
  function Next(w: World, m: Move): World {
    match m
    case Lock(p) =>
      if w.owner.None? && PhaseOf(w, p).Idle? then w.(owner := Some(p), phase := w.phase[p := Locked]) else w
    case Count(p) =>
      if PhaseOf(w, p).Locked? then w.(phase := w.phase[p := Counted(|w.log|)]) else w
    case Write(p, record) =>
      if PhaseOf(w, p).Counted?
      then w.(log := w.log + [record.(seqNo := w.phase[p].records + 1)], phase := w.phase[p := Written]) else w
    case Unlock(p) =>
      if w.owner == Some(p) then w.(owner := None, phase := w.phase[p := Idle]) else w
    case Die(p) =>
      World(w.log, if w.owner == Some(p) then None else w.owner, w.phase[p := Idle])
  }

  function Play(w: World, moves: seq<Move>): World
    decreases |moves|
  {
    if moves == [] then w else Play(Next(w, moves[0]), moves[1..])
  }

  /** Only the owner of the lock is inside an append, and what it counted is still the count. */
  ghost predicate Inv(w: World) {
    && Numbered(w.log)
    && (forall p :: p in w.phase && !w.phase[p].Idle? ==> w.owner == Some(p))
    && (forall p :: p in w.phase && w.phase[p].Counted? ==> w.phase[p].records == |w.log|)
  }

  lemma NextKeeps(w: World, m: Move)
    requires Inv(w)
    ensures Inv(Next(w, m))
  {
  }

  lemma {:induction false} PlayKeeps(w: World, moves: seq<Move>)
    requires Inv(w)
    ensures Inv(Play(w, moves))
    decreases |moves|
  {
    if moves != [] {
      NextKeeps(w, moves[0]);
      PlayKeeps(Next(w, moves[0]), moves[1..]);
    }
  }

  /** Under every interleaving of appenders, the n-th record of the log has number n. */
  lemma NumbersArePositions(moves: seq<Move>)
    ensures Numbered(Play(World([], None, map[]), moves).log)
  {
    PlayKeeps(World([], None, map[]), moves);
  }
}
