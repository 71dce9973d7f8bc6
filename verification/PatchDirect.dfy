/** The operations of a patch (functions/apply_patch_tool.py) performed on the disk, one after the other.

    The code never does that: it simulates them over an overlay. What it leaves is what they leave. */
module PatchDirect {
  import opened HunkLines
  import opened HunkPlacement
  import opened PatchFormat
  import opened Results
  import opened Text

  /** A resolved path; two spellings in a patch may resolve to one. */
  datatype Path = Path(name: string)
  datatype Entry = File(text: string) | Directory
  type Disk = map<Path, Entry>

  /** How a path of the patch, stripped, becomes a path on disk; resolving may fail. */
  type Resolver = string -> Result<Path>

  /** `_resolve_path` */
  function Resolve(path: string, resolver: Resolver): Result<Path> {
    if Strip(path) == [] then Err("Patch file path must be a non-empty string.") else resolver(Strip(path))
  }

  predicate Moves(op: Operation) { op.UpdateFile? && op.moveTo.Some? && op.moveTo.value != [] }

  /** The text of an updated file. */
  function NewText(op: Operation, text: string): Result<string>
    requires op.UpdateFile?
  {
    if op.hunks == [] && op.moveTo.None? then Err("Update File must contain at least one hunk or Move to directive.")
    else if op.hunks == [] then Ok(text)
    else match Updated(text, op.hunks)
      case None => Err("Could not locate update hunk")
      case Some(updated) => Ok(updated)
  }

  // ---------- One operation at a time ----------

  function DirectStep(disk: Disk, op: Operation, resolver: Resolver): Result<Disk> {
    var source :- Resolve(op.path, resolver);
    match op
    case AddFile(_, lines) =>
      if source in disk then Err("Add File target already exists")
      else Ok(disk[source := File(LinesToText(lines, true))])
    case DeleteFile(_) =>
      if source !in disk || disk[source].Directory? then Err("Delete File target does not exist")
      else Ok(disk - {source})
    case UpdateFile(_, moveTo, hunks) =>
      if source !in disk || disk[source].Directory? then Err("Update File target does not exist")
      else
        var text :- NewText(op, disk[source].text);
        if Moves(op) then
          var target :- Resolve(moveTo.value, resolver);
          if target != source && target in disk then Err("Move target already exists")
          else Ok((disk - {source})[target := File(text)])
        else Ok(disk[source := File(text)])
  }

  function Direct(disk: Disk, ops: seq<Operation>, resolver: Resolver): Result<Disk>
    decreases |ops|
  {
    if ops == [] then Ok(disk) else
      var next :- DirectStep(disk, ops[0], resolver);
      Direct(next, ops[1..], resolver)
  }

  // ---------- What an operation does ----------

  /** What an update makes of a text: the text it was if there are no hunks, and else what the hunks say. */
  ghost predicate Revised(text: string, hunks: seq<Hunk>, text': string) {
    if hunks == [] then text' == text else
      exists lines :: Patches(SplitLines(text), hunks, lines) && text' == LinesToText(lines, EndsWithNewline(text))
  }

  /** A pure move keeps the text, an update with neither a hunk nor a move is refused, and any other succeeds
      exactly if its hunks fit. */
  lemma NewTextExact(op: Operation, text: string)
    requires op.UpdateFile?
    ensures NewText(op, text).Ok? <==>
            if op.hunks == [] then op.moveTo.Some? else CanFit(SplitLines(text), op.hunks)
    ensures NewText(op, text).Ok? ==> Revised(text, op.hunks, NewText(op, text).value)
  {
    PlaceHunks(SplitLines(text), op.hunks);
  }

  predicate IsFile(disk: Disk, path: Path) { path in disk && disk[path].File? }

  ghost predicate SameBut(disk: Disk, disk': Disk, paths: set<Path>) {
    forall path :: path !in paths ==> (path in disk <==> path in disk') && (path in disk ==> disk[path] == disk'[path])
  }

  /** When an operation can be performed: files are added where nothing is, deleted and updated where a file is,
      moved to where nothing is, and hunks have to fit. */
  ghost predicate Possible(disk: Disk, op: Operation, resolver: Resolver) {
    var source := Resolve(op.path, resolver);
    source.Ok? &&
    match op
    case AddFile(_, _) => source.value !in disk
    case DeleteFile(_) => IsFile(disk, source.value)
    case UpdateFile(_, moveTo, hunks) =>
      && IsFile(disk, source.value)
      && (hunks == [] ==> moveTo.Some?)
      && (hunks != [] ==> CanFit(SplitLines(disk[source.value].text), hunks))
      && (Moves(op) ==>
          var target := Resolve(moveTo.value, resolver);
          target.Ok? && (target.value == source.value || target.value !in disk))
  }

  /** What it leaves at every path. */
  ghost predicate Performed(disk: Disk, op: Operation, resolver: Resolver, disk': Disk) {
    var source := Resolve(op.path, resolver);
    source.Ok? &&
    match op
    case AddFile(_, lines) =>
      && SameBut(disk, disk', {source.value})
      && IsFile(disk', source.value) && disk'[source.value].text == LinesToText(lines, true)
    case DeleteFile(_) => SameBut(disk, disk', {source.value}) && source.value !in disk'
    case UpdateFile(_, moveTo, hunks) =>
      var target := if Moves(op) then Resolve(moveTo.value, resolver) else source;
      && target.Ok? && IsFile(disk, source.value) && SameBut(disk, disk', {source.value, target.value})
      && IsFile(disk', target.value) && (target.value != source.value ==> source.value !in disk')
      && Revised(disk[source.value].text, hunks, disk'[target.value].text)
  }

  lemma AddExact(disk: Disk, op: Operation, resolver: Resolver)
    requires op.AddFile?
    ensures DirectStep(disk, op, resolver).Ok? <==> Possible(disk, op, resolver)
    ensures DirectStep(disk, op, resolver).Ok? ==> Performed(disk, op, resolver, DirectStep(disk, op, resolver).value)
  {
  }

  lemma DeleteExact(disk: Disk, op: Operation, resolver: Resolver)
    requires op.DeleteFile?
    ensures DirectStep(disk, op, resolver).Ok? <==> Possible(disk, op, resolver)
    ensures DirectStep(disk, op, resolver).Ok? ==> Performed(disk, op, resolver, DirectStep(disk, op, resolver).value)
  {
  }

  lemma UpdateExact(disk: Disk, op: Operation, resolver: Resolver)
    requires op.UpdateFile?
    ensures DirectStep(disk, op, resolver).Ok? <==> Possible(disk, op, resolver)
    ensures DirectStep(disk, op, resolver).Ok? ==> Performed(disk, op, resolver, DirectStep(disk, op, resolver).value)
  {
    var source := Resolve(op.path, resolver);
    if source.Ok? && IsFile(disk, source.value) {
      var text := disk[source.value].text;
      NewTextExact(op, text);
      if NewText(op, text).Ok? {
        if Moves(op) {
          MovedExact(disk, op, resolver, source.value, NewText(op, text).value);
        } else {
          RewrittenExact(disk, op, resolver, source.value, NewText(op, text).value);
        }
      }
    }
  }

  lemma RewrittenExact(disk: Disk, op: Operation, resolver: Resolver, source: Path, text: string)
    requires op.UpdateFile? && !Moves(op) && Resolve(op.path, resolver) == Ok(source) && IsFile(disk, source)
    requires NewText(op, disk[source].text) == Ok(text) && Revised(disk[source].text, op.hunks, text)
    ensures DirectStep(disk, op, resolver) == Ok(disk[source := File(text)])
    ensures Performed(disk, op, resolver, disk[source := File(text)])
  {
    WrittenSame(disk, source, text);
  }

  lemma WrittenSame(disk: Disk, source: Path, text: string)
    ensures var disk' := disk[source := File(text)];
            SameBut(disk, disk', {source, source}) && IsFile(disk', source) && disk'[source].text == text
  {
  }

  lemma MovedSame(disk: Disk, source: Path, target: Path, text: string)
    ensures var disk' := (disk - {source})[target := File(text)];
            && SameBut(disk, disk', {source, target}) && IsFile(disk', target) && disk'[target].text == text
            && (target != source ==> source !in disk')
  {
  }

  /** A move, once the text is made: it fails if the target cannot be resolved or is another path in use. */
  lemma MoveStep(disk: Disk, op: Operation, resolver: Resolver, source: Path, text: string)
    requires Moves(op) && Resolve(op.path, resolver) == Ok(source) && IsFile(disk, source)
    requires NewText(op, disk[source].text) == Ok(text)
    ensures var target := Resolve(op.moveTo.value, resolver);
            DirectStep(disk, op, resolver) ==
            if target.Err? then Err(target.error)
            else if target.value != source && target.value in disk then Err("Move target already exists")
            else Ok((disk - {source})[target.value := File(text)])
  {
  }

  lemma MovedExact(disk: Disk, op: Operation, resolver: Resolver, source: Path, text: string)
    requires Moves(op) && Resolve(op.path, resolver) == Ok(source) && IsFile(disk, source)
    requires NewText(op, disk[source].text) == Ok(text) && Revised(disk[source].text, op.hunks, text)
    ensures var target := Resolve(op.moveTo.value, resolver);
            if target.Ok? && (target.value == source || target.value !in disk) then
              var disk' := (disk - {source})[target.value := File(text)];
              DirectStep(disk, op, resolver) == Ok(disk') && Performed(disk, op, resolver, disk')
            else DirectStep(disk, op, resolver).Err?
  {
    MoveStep(disk, op, resolver, source, text);
    var target := Resolve(op.moveTo.value, resolver);
    if target.Ok? {
      MovedSame(disk, source, target.value, text);
    }
  }

  lemma DirectStepExact(disk: Disk, op: Operation, resolver: Resolver)
    ensures DirectStep(disk, op, resolver).Ok? <==> Possible(disk, op, resolver)
    ensures DirectStep(disk, op, resolver).Ok? ==> Performed(disk, op, resolver, DirectStep(disk, op, resolver).value)
  {
    match op
    case AddFile(_, _) => AddExact(disk, op, resolver);
    case DeleteFile(_) => DeleteExact(disk, op, resolver);
    case UpdateFile(_, _, _) => UpdateExact(disk, op, resolver);
  }
}
