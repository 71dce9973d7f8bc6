/** Simulating a patch over an overlay and committing the overlay (functions/apply_patch_tool.py).

    The reference is `PatchDirect.Direct`: the operations performed on the disk one after the other. The
    code never does that; it performs them on an in-memory overlay and then writes the overlay out. */
module PatchOverlay {
  import opened HunkPlacement
  import opened PatchDirect
  import opened PatchFormat
  import opened PatchReading
  import opened Results
  import opened Sequences
  import opened Text

  /** The `state` dictionary: a text to write, or `None` for a file to remove. */
  type Overlay = map<Path, Option<string>>

  datatype Kind = AddedFile | DeletedFile | UpdatedFile
  datatype Summary = Summary(kind: Kind, path: Path, moveTo: Option<Path>)
  datatype Simulation = Simulation(state: Overlay, changed: set<Path>, summaries: seq<Summary>)

  // ---------- The code: one operation at a time, on the overlay ----------

  /** `_file_exists_in_state` */
  predicate ExistsIn(disk: Disk, state: Overlay, path: Path) {
    if path in state then state[path].Some? else path in disk
  }

  /** `_load_text_from_state` */
  function LoadText(disk: Disk, state: Overlay, path: Path): Option<string> {
    if path in state then state[path]
    else if path in disk && disk[path].File? then Some(disk[path].text)
    else None
  }

  /** One turn of the loop of `_simulate_operations` */
  function SimulateStep(disk: Disk, sim: Simulation, op: Operation, resolver: Resolver): (r: Result<Simulation>)
    ensures r.Ok? ==> |r.value.summaries| == |sim.summaries| + 1
  {
    var source :- Resolve(op.path, resolver);
    match op
    case AddFile(_, lines) =>
      if ExistsIn(disk, sim.state, source) then Err("Add File target already exists")
      else Ok(Simulation(sim.state[source := Some(LinesToText(lines, true))], sim.changed + {source},
                         sim.summaries + [Summary(AddedFile, source, None)]))
    case DeleteFile(_) =>
      if LoadText(disk, sim.state, source).None? then Err("Delete File target does not exist")
      else Ok(Simulation(sim.state[source := None], sim.changed + {source},
                         sim.summaries + [Summary(DeletedFile, source, None)]))
    case UpdateFile(_, moveTo, hunks) =>
      var loaded := LoadText(disk, sim.state, source);
      if loaded.None? then Err("Update File target does not exist")
      else
        var text :- NewText(op, loaded.value);
        if Moves(op) then
          var target :- Resolve(moveTo.value, resolver);
          if target != source && ExistsIn(disk, sim.state, target) then Err("Move target already exists")
          else Ok(Simulation(sim.state[source := None][target := Some(text)], sim.changed + {source, target},
                             sim.summaries + [Summary(UpdatedFile, source, Some(target))]))
        else Ok(Simulation(sim.state[source := Some(text)], sim.changed + {source},
                           sim.summaries + [Summary(UpdatedFile, source, None)]))
  }

  const NOTHING := Simulation(map[], {}, [])

  function Simulate(disk: Disk, sim: Simulation, ops: seq<Operation>, resolver: Resolver): Result<Simulation>
    decreases |ops|
  {
    if ops == [] then Ok(sim) else
      var next :- SimulateStep(disk, sim, ops[0], resolver);
      Simulate(disk, next, ops[1..], resolver)
  }

  // ---------- The overlay stands for a disk ----------

  /** The disk as seen through the overlay. */
  function View(disk: Disk, state: Overlay): Disk {
    map path | path in disk.Keys + state.Keys && ExistsIn(disk, state, path) ::
      if path in state then File(state[path].value) else disk[path]
  }

  /** The overlay never stands over a directory, and lists what it changed. */
  ghost predicate Sound(disk: Disk, sim: Simulation) {
    && (forall path :: path in sim.state && path in disk ==> disk[path].File?)
    && sim.changed == sim.state.Keys
  }

  lemma ViewReads(disk: Disk, state: Overlay, path: Path)
    ensures path in View(disk, state) <==> ExistsIn(disk, state, path)
    ensures LoadText(disk, state, path).Some? <==> path in View(disk, state) && View(disk, state)[path].File?
    ensures LoadText(disk, state, path).Some? ==> View(disk, state)[path] == File(LoadText(disk, state, path).value)
  {
  }

  lemma ViewWrites(disk: Disk, state: Overlay, path: Path, text: string)
    ensures View(disk, state[path := Some(text)]) == View(disk, state)[path := File(text)]
  {
  }

  lemma ViewRemoves(disk: Disk, state: Overlay, path: Path)
    ensures View(disk, state[path := None]) == View(disk, state) - {path}
  {
  }

  /** The overlay may change a path it could read as a file or found free. */
  lemma StaysSound(disk: Disk, sim: Simulation, path: Path, content: Option<string>, summaries: seq<Summary>)
    requires Sound(disk, sim) && (LoadText(disk, sim.state, path).Some? || !ExistsIn(disk, sim.state, path))
    ensures Sound(disk, Simulation(sim.state[path := content], sim.changed + {path}, summaries))
  {
  }

  ghost predicate Refines(disk: Disk, simulated: Result<Simulation>, direct: Result<Disk>) {
    && (simulated.Ok? <==> direct.Ok?)
    && (simulated.Err? ==> simulated.error == direct.error)
    && (simulated.Ok? ==> Sound(disk, simulated.value) && View(disk, simulated.value.state) == direct.value)
  }

  lemma UpdateRefines(disk: Disk, sim: Simulation, op: Operation, resolver: Resolver)
    requires Sound(disk, sim) && op.UpdateFile?
    ensures Refines(disk, SimulateStep(disk, sim, op, resolver), DirectStep(View(disk, sim.state), op, resolver))
  {
    var source := Resolve(op.path, resolver);
    if source.Ok? {
      ViewReads(disk, sim.state, source.value);
      var loaded := LoadText(disk, sim.state, source.value);
      if loaded.Some? && NewText(op, loaded.value).Ok? {
        var text := NewText(op, loaded.value).value;
        if Moves(op) {
          MoveRefines(disk, sim, op, source.value, text, resolver);
        } else {
          RewriteRefines(disk, sim, op, source.value, text, resolver);
        }
      } else {
        RefusedAlike(disk, sim, op, source.value, resolver);
      }
    }
  }

  lemma RefusedAlike(disk: Disk, sim: Simulation, op: Operation, source: Path, resolver: Resolver)
    requires op.UpdateFile? && Resolve(op.path, resolver) == Ok(source)
    requires var loaded := LoadText(disk, sim.state, source); loaded.None? || NewText(op, loaded.value).Err?
    ensures Refines(disk, SimulateStep(disk, sim, op, resolver), DirectStep(View(disk, sim.state), op, resolver))
  {
    ViewReads(disk, sim.state, source);
  }

  lemma RewriteRefines(disk: Disk, sim: Simulation, op: Operation, source: Path, text: string, resolver: Resolver)
    requires Sound(disk, sim) && op.UpdateFile? && !Moves(op) && Resolve(op.path, resolver) == Ok(source)
    requires LoadText(disk, sim.state, source).Some? && NewText(op, LoadText(disk, sim.state, source).value) == Ok(text)
    ensures Refines(disk, SimulateStep(disk, sim, op, resolver), DirectStep(View(disk, sim.state), op, resolver))
  {
    ViewReads(disk, sim.state, source);
    ViewWrites(disk, sim.state, source, text);
    StaysSound(disk, sim, source, Some(text), sim.summaries + [Summary(UpdatedFile, source, None)]);
  }

  lemma SimulatedMove(disk: Disk, sim: Simulation, op: Operation, source: Path, text: string, resolver: Resolver)
    requires Moves(op) && Resolve(op.path, resolver) == Ok(source) && LoadText(disk, sim.state, source).Some?
    requires NewText(op, LoadText(disk, sim.state, source).value) == Ok(text)
    ensures var target := Resolve(op.moveTo.value, resolver);
            SimulateStep(disk, sim, op, resolver) ==
            if target.Err? then Err(target.error)
            else if target.value != source && ExistsIn(disk, sim.state, target.value) then
              Err("Move target already exists")
            else Ok(Simulation(sim.state[source := None][target.value := Some(text)],
                               sim.changed + {source, target.value},
                               sim.summaries + [Summary(UpdatedFile, source, Some(target.value))]))
  {
  }

  lemma MoveRefines(disk: Disk, sim: Simulation, op: Operation, source: Path, text: string, resolver: Resolver)
    requires Sound(disk, sim) && Moves(op)
    requires Resolve(op.path, resolver) == Ok(source)
    requires LoadText(disk, sim.state, source).Some? && NewText(op, LoadText(disk, sim.state, source).value) == Ok(text)
    ensures Refines(disk, SimulateStep(disk, sim, op, resolver), DirectStep(View(disk, sim.state), op, resolver))
  {
    ViewReads(disk, sim.state, source);
    SimulatedMove(disk, sim, op, source, text, resolver);
    MoveStep(View(disk, sim.state), op, resolver, source, text);
    var target := Resolve(op.moveTo.value, resolver);
    if target.Ok? {
      ViewReads(disk, sim.state, target.value);
      ViewMoves(disk, sim.state, source, target.value, text);
      if target.value == source || !ExistsIn(disk, sim.state, target.value) {
        MoveSound(disk, sim, source, target.value, text,
                  sim.summaries + [Summary(UpdatedFile, source, Some(target.value))]);
      }
    }
  }

  lemma ViewMoves(disk: Disk, state: Overlay, source: Path, target: Path, text: string)
    ensures View(disk, state[source := None][target := Some(text)]) ==
            (View(disk, state) - {source})[target := File(text)]
  {
    ViewRemoves(disk, state, source);
    ViewWrites(disk, state[source := None], target, text);
  }

  lemma MoveSound(disk: Disk, sim: Simulation, source: Path, target: Path, text: string, summaries: seq<Summary>)
    requires Sound(disk, sim) && LoadText(disk, sim.state, source).Some?
    requires target == source || !ExistsIn(disk, sim.state, target)
    ensures Sound(disk, Simulation(sim.state[source := None][target := Some(text)],
                                   sim.changed + {source, target}, summaries))
  {
    assert sim.state[source := None][target := Some(text)].Keys == sim.state.Keys + {source, target};
  }

  lemma AddRefines(disk: Disk, sim: Simulation, op: Operation, resolver: Resolver)
    requires Sound(disk, sim) && op.AddFile?
    ensures Refines(disk, SimulateStep(disk, sim, op, resolver), DirectStep(View(disk, sim.state), op, resolver))
  {
    var source := Resolve(op.path, resolver);
    if source.Ok? {
      ViewReads(disk, sim.state, source.value);
      if !ExistsIn(disk, sim.state, source.value) {
        ViewWrites(disk, sim.state, source.value, LinesToText(op.lines, true));
        StaysSound(disk, sim, source.value, Some(LinesToText(op.lines, true)),
                   sim.summaries + [Summary(AddedFile, source.value, None)]);
      }
    }
  }

  lemma SimulatedDelete(disk: Disk, sim: Simulation, op: Operation, source: Path, resolver: Resolver)
    requires op.DeleteFile? && Resolve(op.path, resolver) == Ok(source)
    ensures SimulateStep(disk, sim, op, resolver) ==
            if LoadText(disk, sim.state, source).None? then Err("Delete File target does not exist")
            else Ok(Simulation(sim.state[source := None], sim.changed + {source},
                               sim.summaries + [Summary(DeletedFile, source, None)]))
  {
  }

  lemma DeleteRefines(disk: Disk, sim: Simulation, op: Operation, resolver: Resolver)
    requires Sound(disk, sim) && op.DeleteFile?
    ensures Refines(disk, SimulateStep(disk, sim, op, resolver), DirectStep(View(disk, sim.state), op, resolver))
  {
    var source := Resolve(op.path, resolver);
    if source.Ok? {
      ViewReads(disk, sim.state, source.value);
      SimulatedDelete(disk, sim, op, source.value, resolver);
      if LoadText(disk, sim.state, source.value).Some? {
        ViewRemoves(disk, sim.state, source.value);
        StaysSound(disk, sim, source.value, None, sim.summaries + [Summary(DeletedFile, source.value, None)]);
      }
    }
  }

  /** One simulated operation refines the same operation on the disk the overlay stands for. */
  lemma StepRefines(disk: Disk, sim: Simulation, op: Operation, resolver: Resolver)
    requires Sound(disk, sim)
    ensures Refines(disk, SimulateStep(disk, sim, op, resolver), DirectStep(View(disk, sim.state), op, resolver))
  {
    match op
    case AddFile(_, _) => AddRefines(disk, sim, op, resolver);
    case DeleteFile(_) => DeleteRefines(disk, sim, op, resolver);
    case UpdateFile(_, _, _) => UpdateRefines(disk, sim, op, resolver);
  }

  /** So does a whole simulation: it fails where the direct run fails, with the same error, and when it
      succeeds the overlay stands for the disk the direct run leaves. */
  lemma {:induction false} SimulateRefines(disk: Disk, sim: Simulation, ops: seq<Operation>, resolver: Resolver)
    requires Sound(disk, sim)
    ensures Refines(disk, Simulate(disk, sim, ops, resolver), Direct(View(disk, sim.state), ops, resolver))
    decreases |ops|
  {
    if ops != [] {
      StepRefines(disk, sim, ops[0], resolver);
      var next := SimulateStep(disk, sim, ops[0], resolver);
      if next.Ok? {
        SimulateRefines(disk, next.value, ops[1..], resolver);
      }
    }
  }

  /** What is reported of an operation: what it did, and the paths it did it to. */
  predicate Reports(summary: Summary, op: Operation, resolver: Resolver) {
    && summary.kind == KindOf(op)
    && Ok(summary.path) == Resolve(op.path, resolver)
    && (summary.moveTo.Some? <==> Moves(op))
    && (Moves(op) ==> Ok(summary.moveTo.value) == Resolve(op.moveTo.value, resolver))
  }

  function KindOf(op: Operation): Kind {
    match op case AddFile(_, _) => AddedFile case DeleteFile(_) => DeletedFile case UpdateFile(_, _, _) => UpdatedFile
  }

  /** One report an operation, in the same order. */
  predicate ReportAll(summaries: seq<Summary>, ops: seq<Operation>, resolver: Resolver) {
    |summaries| == |ops| &&
    (ops == [] || (Reports(summaries[0], ops[0], resolver) && ReportAll(summaries[1..], ops[1..], resolver)))
  }

  function Paths(summary: Summary): set<Path> {
    {summary.path} + if summary.moveTo.Some? then {summary.moveTo.value} else {}
  }

  function AllPaths(summaries: seq<Summary>): set<Path> {
    if summaries == [] then {} else Paths(summaries[0]) + AllPaths(summaries[1..])
  }

  lemma StepReports(disk: Disk, sim: Simulation, op: Operation, resolver: Resolver) returns (last: Summary)
    requires SimulateStep(disk, sim, op, resolver).Ok?
    ensures Reports(last, op, resolver)
    ensures var next := SimulateStep(disk, sim, op, resolver).value;
            next.summaries == sim.summaries + [last] && next.changed == sim.changed + Paths(last)
  {
    var source := Resolve(op.path, resolver).value;
    if Moves(op) {
      last := MoveReports(disk, sim, op, source, resolver);
    } else {
      StayReports(disk, sim, op, source, resolver);
      last := Summary(KindOf(op), source, None);
    }
  }

  lemma StayReports(disk: Disk, sim: Simulation, op: Operation, source: Path, resolver: Resolver)
    requires !Moves(op) && Resolve(op.path, resolver) == Ok(source) && SimulateStep(disk, sim, op, resolver).Ok?
    ensures var next := SimulateStep(disk, sim, op, resolver).value;
            && next.summaries == sim.summaries + [Summary(KindOf(op), source, None)]
            && next.changed == sim.changed + {source}
  {
    match op
    case AddFile(_, _) =>
    case DeleteFile(_) =>
    case UpdateFile(_, _, _) =>
  }

  lemma MoveReports(disk: Disk, sim: Simulation, op: Operation, source: Path, resolver: Resolver)
    returns (last: Summary)
    requires Moves(op) && Resolve(op.path, resolver) == Ok(source) && SimulateStep(disk, sim, op, resolver).Ok?
    ensures Reports(last, op, resolver)
    ensures var next := SimulateStep(disk, sim, op, resolver).value;
            next.summaries == sim.summaries + [last] && next.changed == sim.changed + Paths(last)
  {
    SimulatedMove(disk, sim, op, source, NewText(op, LoadText(disk, sim.state, source).value).value, resolver);
    last := Summary(UpdatedFile, source, Some(Resolve(op.moveTo.value, resolver).value));
  }

  lemma ReportAllCons(last: Summary, news: seq<Summary>, ops: seq<Operation>, resolver: Resolver)
    requires ops != [] && Reports(last, ops[0], resolver) && ReportAll(news, ops[1..], resolver)
    ensures ReportAll([last] + news, ops, resolver) && AllPaths([last] + news) == Paths(last) + AllPaths(news)
  {
    ConsTail(last, news);
  }

  /** Each operation is reported once, in order, and what is reported changed are the paths of the reports. */
  lemma {:induction false} OneSummaryEach(disk: Disk, sim: Simulation, ops: seq<Operation>, resolver: Resolver)
    returns (news: seq<Summary>)
    requires Simulate(disk, sim, ops, resolver).Ok?
    ensures ReportAll(news, ops, resolver)
    ensures var done := Simulate(disk, sim, ops, resolver).value;
            done.summaries == sim.summaries + news && done.changed == sim.changed + AllPaths(news)
    decreases |ops|
  {
    if ops == [] {
      Alone(sim.summaries);
      return [];
    }
    var next := SimulateStep(disk, sim, ops[0], resolver).value;
    var last := StepReports(disk, sim, ops[0], resolver);
    var more := OneSummaryEach(disk, next, ops[1..], resolver);
    ReportAllCons(last, more, ops, resolver);
    Assoc(sim.summaries, [last], more);
    news := [last] + more;
  }

  lemma ViewThroughNothing(disk: Disk)
    ensures Sound(disk, NOTHING) && View(disk, NOTHING.state) == disk
  {
  }

  // ---------- The code ----------

  /** The files a patch works on. Reading and writing single files is atomic here. */
  class Workspace {
    var disk: Disk
    const resolver: Resolver

    constructor (disk: Disk, resolver: Resolver)
      ensures this.disk == disk && this.resolver == resolver
    {
      this.disk, this.resolver := disk, resolver;
    }

    /** The update branch of `_simulate_operations`, once the source text is loaded. */
    method SimulateUpdate(sim: Simulation, op: Operation, source: Path, text: string) returns (r: Result<Simulation>)
      requires op.UpdateFile? && Resolve(op.path, resolver) == Ok(source)
              && LoadText(disk, sim.state, source) == Some(text)
      ensures r == SimulateStep(disk, sim, op, resolver)
    {
      if op.hunks == [] && op.moveTo.None? {
        return Err("Update File must contain at least one hunk or Move to directive.");
      }
      var newText := text;
      if op.hunks != [] {
        var applied := ApplyHunks(text, op.hunks);
        if applied.Err? {
          return Err("Could not locate update hunk");
        }
        newText := applied.value;
      }
      if Moves(op) {
        var target := Resolve(op.moveTo.value, resolver);
        if target.Err? {
          return Err(target.error);
        }
        if target.value != source && ExistsIn(disk, sim.state, target.value) {
          return Err("Move target already exists");
        }
        return Ok(Simulation(sim.state[source := None][target.value := Some(newText)],
                             sim.changed + {source, target.value},
                             sim.summaries + [Summary(UpdatedFile, source, Some(target.value))]));
      }
      return Ok(Simulation(sim.state[source := Some(newText)], sim.changed + {source},
                           sim.summaries + [Summary(UpdatedFile, source, None)]));
    }

    method SimulateAdd(sim: Simulation, op: Operation, source: Path) returns (r: Result<Simulation>)
      requires op.AddFile? && Resolve(op.path, resolver) == Ok(source)
      ensures r == SimulateStep(disk, sim, op, resolver)
    {
      if ExistsIn(disk, sim.state, source) {
        return Err("Add File target already exists");
      }
      var text := LinesToText(op.lines, true);
      return Ok(Simulation(sim.state[source := Some(text)], sim.changed + {source},
                           sim.summaries + [Summary(AddedFile, source, None)]));
    }

    method SimulateDelete(sim: Simulation, op: Operation, source: Path) returns (r: Result<Simulation>)
      requires op.DeleteFile? && Resolve(op.path, resolver) == Ok(source)
      ensures r == SimulateStep(disk, sim, op, resolver)
    {
      if LoadText(disk, sim.state, source).None? {
        return Err("Delete File target does not exist");
      }
      return Ok(Simulation(sim.state[source := None], sim.changed + {source},
                           sim.summaries + [Summary(DeletedFile, source, None)]));
    }

    /** `_simulate_operations` */
    method SimulateOperations(ops: seq<Operation>) returns (r: Result<Simulation>)
      ensures r == Simulate(disk, NOTHING, ops, resolver)
    {
      var sim := NOTHING;
      ghost var left := ops;
      for n := 0 to |ops|
        invariant left == ops[n..]
        invariant Simulate(disk, NOTHING, ops, resolver) == Simulate(disk, sim, left, resolver)
      {
        var op := ops[n];
        assert left[0] == op;
        var source := Resolve(op.path, resolver);
        if source.Err? {
          return Err(source.error);
        }
        var next;
        if op.UpdateFile? && LoadText(disk, sim.state, source.value).Some? {
          next := SimulateUpdate(sim, op, source.value, LoadText(disk, sim.state, source.value).value);
        } else if op.UpdateFile? {
          next := Err("Update File target does not exist");
        } else if op.AddFile? {
          next := SimulateAdd(sim, op, source.value);
        } else {
          next := SimulateDelete(sim, op, source.value);
        }
        if next.Err? {
          return Err(next.error);
        }
        sim, left := next.value, left[1..];
      }
      r := Ok(sim);
    }

    /** The first pass of `_commit_state`: remove, in any order, what is to be removed and exists. */
    method RemoveFiles(state: Overlay)
      requires forall path :: path in state && path in disk ==> disk[path].File?
      modifies this`disk
      ensures disk == map path | path in old(disk) && !(path in state && state[path].None?) :: old(disk)[path]
    {
      var pending := state.Keys;
      while pending != {}
        invariant pending <= state.Keys
        invariant forall path :: path in disk <==>
          path in old(disk) && !(path in state && path !in pending && state[path].None?)
        invariant forall path :: path in disk ==> disk[path] == old(disk)[path]
      {
        var path :| path in pending;
        if state[path].None? && path in disk {
          disk := disk - {path};
        }
        pending := pending - {path};
      }
    }

    /** The second pass: write, in any order, what is to be written. */
    method WriteFiles(state: Overlay)
      modifies this`disk
      ensures forall path :: path in disk <==> path in old(disk) || (path in state && state[path].Some?)
      ensures forall path :: path in disk ==>
        disk[path] == if path in state && state[path].Some? then File(state[path].value) else old(disk)[path]
    {
      var pending := state.Keys;
      while pending != {}
        invariant pending <= state.Keys
        invariant forall path :: path in disk <==>
          path in old(disk) || (path in state && path !in pending && state[path].Some?)
        invariant forall path :: path in disk ==>
          disk[path] == if path in state && path !in pending && state[path].Some? then File(state[path].value)
                        else old(disk)[path]
      {
        var path :| path in pending;
        if state[path].Some? {
          disk := disk[path := File(state[path].value)];
        }
        pending := pending - {path};
      }
    }

    /** `_commit_state`: afterwards the disk is what the overlay stood for. */
    method CommitState(state: Overlay)
      requires forall path :: path in state && path in disk ==> disk[path].File?
      modifies this`disk
      ensures disk == View(old(disk), state)
    {
      RemoveFiles(state);
      WriteFiles(state);
    }

    /** `apply_patch`. The patch is read, simulated, its difference recorded, and only then committed.
        An accepted patch does what performing its operations one by one would do and touches no
        path it does not report; in every other case the disk is as it was. */
    method ApplyPatch(patch: string, diffRecorded: bool) returns (r: Result<Simulation>)
      modifies this`disk
      ensures r.Err? ==> disk == old(disk)
      ensures r.Ok? <==>
        diffRecorded && ParsePatch(patch).Ok? && Direct(old(disk), ParsePatch(patch).value, resolver).Ok?
      ensures r.Ok? ==> Ok(disk) == Direct(old(disk), ParsePatch(patch).value, resolver)
      ensures r.Ok? ==> |r.value.summaries| == |ParsePatch(patch).value|
      ensures r.Ok? ==> ReportAll(r.value.summaries, ParsePatch(patch).value, resolver)
      ensures r.Ok? ==> r.value.changed == AllPaths(r.value.summaries)
      ensures r.Ok? ==> forall path :: path !in r.value.changed ==>
        (path in disk <==> path in old(disk)) && (path in disk ==> disk[path] == old(disk)[path])
    {
      var operations := ReadPatch(patch);
      if operations.Err? {
        return Err(operations.error);
      }
      ViewThroughNothing(disk);
      SimulateRefines(disk, NOTHING, operations.value, resolver);
      r := SimulateOperations(operations.value);
      if r.Err? {
        return;
      }
      ghost var news := OneSummaryEach(disk, NOTHING, operations.value, resolver);
      Alone(news);
      if !diffRecorded {
        return Err("The difference could not be recorded");
      }
      CommitState(r.value.state);
    }
  }
}
