/** Which patches the parser of functions/apply_patch_tool.py accepts, and as what: a patch is a begin
    marker, sections with blank lines where they are allowed, and an end marker, and nothing else. */
module PatchGrammar {
  import opened HunkLines
  import opened PatchFormat
  import opened PatchReading
  import opened Results
  import opened Sequences
  import opened Text

  // ---------- What a patch is made of ----------

  /** The parts of an update stand in any order. */
  datatype Part = MovePart(target: string) | HunkPart(hunk: Hunk)

  datatype Piece =
    | Gap
    | AddPiece(path: string, lines: seq<string>)
    | DeletePiece(path: string)
    | UpdatePiece(path: string, parts: seq<Part>)

  function LinesOfPart(part: Part): seq<Line> {
    match part
    case MovePart(target) => [Directive(Move, target)]
    case HunkPart(hunk) => [HunkStart(hunk.header)] + HunkBody(hunk.lines)
  }

  function LinesOfParts(parts: seq<Part>): seq<Line> {
    if parts == [] then [] else LinesOfPart(parts[0]) + LinesOfParts(parts[1..])
  }

  function LinesOf(piece: Piece): seq<Line> {
    match piece
    case Gap => [Blank]
    case AddPiece(path, lines) => [Directive(Add, path)] + AddedBody(lines)
    case DeletePiece(path) => [Directive(Delete, path)]
    case UpdatePiece(path, parts) => [Directive(Update, path)] + LinesOfParts(parts)
  }

  function LinesOfAll(pieces: seq<Piece>): seq<Line> {
    if pieces == [] then [] else LinesOf(pieces[0]) + LinesOfAll(pieces[1..])
  }

  /** The hunks among the parts, in order, and the targets. */
  function HunksOf(parts: seq<Part>): seq<Hunk> {
    if parts == [] then [] else (if parts[0].HunkPart? then [parts[0].hunk] else []) + HunksOf(parts[1..])
  }

  function TargetsOf(parts: seq<Part>): seq<string> {
    if parts == [] then [] else (if parts[0].MovePart? then [parts[0].target] else []) + TargetsOf(parts[1..])
  }

  function TargetOf(parts: seq<Part>): Option<string> {
    if TargetsOf(parts) == [] then None else Some(TargetsOf(parts)[0])
  }

  /** The operation that a piece is, if it is one. */
  function OpOf(piece: Piece): seq<Operation> {
    match piece
    case Gap => []
    case AddPiece(path, lines) => [AddFile(path, lines)]
    case DeletePiece(path) => [DeleteFile(path)]
    case UpdatePiece(path, parts) => [UpdateFile(path, TargetOf(parts), HunksOf(parts))]
  }

  function OpsOf(pieces: seq<Piece>): seq<Operation> {
    if pieces == [] then [] else OpOf(pieces[0]) + OpsOf(pieces[1..])
  }

  /** No hunk is empty, no target is, and there is one target at most. */
  predicate GoodParts(parts: seq<Part>) {
    && (forall i :: 0 <= i < |parts| ==>
        (parts[i].HunkPart? ==> parts[i].hunk.lines != []) && (parts[i].MovePart? ==> parts[i].target != []))
    && |TargetsOf(parts)| <= 1
  }

  predicate Closed(piece: Piece) { piece.Gap? || piece.DeletePiece? }

  predicate GoodPiece(piece: Piece) { piece.UpdatePiece? ==> GoodParts(piece.parts) }

  /** After an added or an updated file comes the next section at once. */
  predicate Follow(piece: Piece, more: seq<Piece>, rest: seq<Line>) {
    Closed(piece) || if more == [] then rest == [] || Bounds(rest[0]) else !more[0].Gap?
  }

  predicate GoodPieces(pieces: seq<Piece>, rest: seq<Line>) {
    pieces == [] ||
      (GoodPiece(pieces[0]) && Follow(pieces[0], pieces[1..], rest) && GoodPieces(pieces[1..], rest))
  }

  // ---------- What is accepted is made of such pieces ----------

  lemma {:induction false} AddReads(s: seq<Line>, content: seq<string>) returns (lines: seq<string>)
    requires ParseAdd(s, content).Ok?
    ensures ParseAdd(s, content).value.value == content + lines
    ensures s == AddedBody(lines) + ParseAdd(s, content).value.rest
  {
    if s == [] || IsSection(s[0]) {
      lines := [];
      Alone(content);
      Alone(s);
    } else {
      var more := AddReads(s[1..], content + [s[0].text]);
      lines := [s[0].text] + more;
      ConsTail(s[0].text, more);
      Assoc(content, [s[0].text], more);
      HeadAndTail(s);
      Assoc([s[0]], AddedBody(more), ParseAdd(s, content).value.rest);
    }
  }

  lemma {:induction false} HunkReads(s: seq<Line>, acc: seq<HunkLine>) returns (lines: seq<HunkLine>)
    requires ParseHunkLines(s, acc).Ok?
    ensures ParseHunkLines(s, acc).value.value == acc + lines
    ensures s == HunkBody(lines) + ParseHunkLines(s, acc).value.rest
  {
    if s == [] || IsSection(s[0]) || s[0].HunkStart? {
      lines := [];
      Alone(acc);
      Alone(s);
    } else {
      var line := HunkLine(s[0].tag, s[0].text);
      var more := HunkReads(s[1..], acc + [line]);
      lines := [line] + more;
      ConsTail(line, more);
      Assoc(acc, [line], more);
      HeadAndTail(s);
      Assoc([s[0]], HunkBody(more), ParseHunkLines(s, acc).value.rest);
    }
  }

  /** A hunk is its header line and its lines, of which there is one at least. */
  lemma HunkIsRead(s: seq<Line>)
    requires s != [] && s[0].HunkStart? && ParseHunk(s).Ok?
    ensures var hunk := ParseHunk(s).value;
            hunk.value.lines != [] && s == LinesOfPart(HunkPart(hunk.value)) + hunk.rest
  {
    var lines := HunkReads(s[1..], []);
    Alone(lines);
    HeadAndTail(s);
    Assoc([s[0]], HunkBody(lines), ParseHunk(s).value.rest);
  }

  /** What the parts read so far and those that follow make together. */
  ghost predicate Joined(parsed: Parsed<Operation>, s: seq<Line>, path: string, moveTo: Option<string>,
                         hunks: seq<Hunk>, parts: seq<Part>) {
    && GoodParts(parts) && s == LinesOfParts(parts) + parsed.rest
    && (moveTo.Some? ==> TargetsOf(parts) == [])
    && parsed.value ==
       UpdateFile(path, if TargetOf(parts).Some? then TargetOf(parts) else moveTo, hunks + HunksOf(parts))
  }

  lemma JoinedNothing(s: seq<Line>, path: string, moveTo: Option<string>, hunks: seq<Hunk>)
    ensures Joined(Parsed(UpdateFile(path, moveTo, hunks), s), s, path, moveTo, hunks, [])
  {
    Alone(s);
    Alone(hunks);
  }

  lemma JoinedMove(parsed: Parsed<Operation>, s: seq<Line>, path: string, target: string, hunks: seq<Hunk>,
                   parts: seq<Part>)
    requires s != [] && s[0] == Directive(Move, target) && target != []
    requires Joined(parsed, s[1..], path, Some(target), hunks, parts)
    ensures Joined(parsed, s, path, None, hunks, [MovePart(target)] + parts)
  {
    ConsTail(MovePart(target), parts);
    HeadAndTail(s);
    Assoc([s[0]], LinesOfParts(parts), parsed.rest);
    Alone(HunksOf(parts));
    Alone([target]);
  }

  lemma JoinedHunk(parsed: Parsed<Operation>, s: seq<Line>, rest: seq<Line>, path: string, moveTo: Option<string>,
                   hunks: seq<Hunk>, hunk: Hunk, parts: seq<Part>)
    requires hunk.lines != [] && s == LinesOfPart(HunkPart(hunk)) + rest
    requires Joined(parsed, rest, path, moveTo, hunks + [hunk], parts)
    ensures Joined(parsed, s, path, moveTo, hunks, [HunkPart(hunk)] + parts)
  {
    ConsTail(HunkPart(hunk), parts);
    Assoc(LinesOfPart(HunkPart(hunk)), LinesOfParts(parts), parsed.rest);
    Alone(TargetsOf(parts));
    Assoc(hunks, [hunk], HunksOf(parts));
  }

  lemma {:induction false} UpdateReads(s: seq<Line>, path: string, moveTo: Option<string>, hunks: seq<Hunk>)
    returns (parts: seq<Part>)
    requires ParseUpdate(s, path, moveTo, hunks).Ok?
    ensures Joined(ParseUpdate(s, path, moveTo, hunks).value, s, path, moveTo, hunks, parts)
    ensures var rest := ParseUpdate(s, path, moveTo, hunks).value.rest; rest == [] || Bounds(rest[0])
    decreases |s|
  {
    var parsed := ParseUpdate(s, path, moveTo, hunks).value;
    if s != [] && s[0].Directive? && s[0].keyword.Move? {
      var more := UpdateReads(s[1..], path, Some(s[0].argument), hunks);
      JoinedMove(parsed, s, path, s[0].argument, hunks, more);
      parts := [MovePart(s[0].argument)] + more;
    } else if s != [] && s[0].HunkStart? {
      HunkIsRead(s);
      var hunk := ParseHunk(s).value;
      var more := UpdateReads(hunk.rest, path, moveTo, hunks + [hunk.value]);
      JoinedHunk(parsed, s, hunk.rest, path, moveTo, hunks, hunk.value, more);
      parts := [HunkPart(hunk.value)] + more;
    } else {
      parts := [];
      JoinedNothing(s, path, moveTo, hunks);
    }
  }

  lemma AddSectionReads(s: seq<Line>) returns (lines: seq<string>)
    requires s != [] && s[0].Directive? && s[0].keyword == Add && ParseSection(s).Ok?
    ensures ParseSection(s).value.value == AddFile(s[0].argument, lines)
    ensures s == LinesOf(AddPiece(s[0].argument, lines)) + ParseSection(s).value.rest
  {
    lines := AddReads(s[1..], []);
    Alone(lines);
    HeadAndTail(s);
    Assoc([s[0]], AddedBody(lines), ParseSection(s).value.rest);
  }

  lemma UpdateSectionReads(s: seq<Line>) returns (parts: seq<Part>)
    requires s != [] && s[0].Directive? && s[0].keyword == Update && ParseSection(s).Ok?
    ensures GoodParts(parts)
            && ParseSection(s).value.value == UpdateFile(s[0].argument, TargetOf(parts), HunksOf(parts))
    ensures s == LinesOf(UpdatePiece(s[0].argument, parts)) + ParseSection(s).value.rest
    ensures var rest := ParseSection(s).value.rest; rest == [] || Bounds(rest[0])
  {
    var path, rest := s[0].argument, ParseSection(s).value.rest;
    parts := UpdateReads(s[1..], path, None, []);
    Alone(HunksOf(parts));
    HeadAndTail(s);
    Assoc([s[0]], LinesOfParts(parts), rest);
  }

  /** A section is read as the piece it is. */
  lemma SectionReads(s: seq<Line>) returns (piece: Piece)
    requires s != [] && ParseSection(s).Ok?
    ensures !piece.Gap? && GoodPiece(piece) && OpOf(piece) == [ParseSection(s).value.value]
    ensures s == LinesOf(piece) + ParseSection(s).value.rest
    ensures var rest := ParseSection(s).value.rest;
            Closed(piece) || rest == [] || (if piece.UpdatePiece? then Bounds(rest[0]) else IsSection(rest[0]))
  {
    match s[0].keyword
    case Add =>
      var lines := AddSectionReads(s);
      ParseAddTail(s[1..], []);
      piece := AddPiece(s[0].argument, lines);
    case Update =>
      var parts := UpdateSectionReads(s);
      piece := UpdatePiece(s[0].argument, parts);
    case Delete =>
      piece := DeletePiece(s[0].argument);
      HeadAndTail(s);
    case Move =>
  }

  lemma PiecesCons(piece: Piece, more: seq<Piece>, tail: seq<Line>, rest: seq<Line>)
    requires tail == LinesOfAll(more) + rest && GoodPieces(more, rest) && GoodPiece(piece)
    requires !Closed(piece) ==> tail == [] || IsSection(tail[0])
    requires !Closed(piece) && more == [] ==> rest == [] || Bounds(rest[0])
    ensures GoodPieces([piece] + more, rest)
    ensures LinesOf(piece) + tail == LinesOfAll([piece] + more) + rest
    ensures OpsOf([piece] + more) == OpOf(piece) + OpsOf(more)
  {
    ConsTail(piece, more);
    Assoc(LinesOf(piece), LinesOfAll(more), rest);
    if more != [] {
      assert tail[0] == LinesOf(more[0])[0];
    }
  }

  /** The lines are the pieces and what is left, and the operations are those there were and those of the pieces. */
  ghost predicate Reads(s: seq<Line>, ops: seq<Operation>, parsed: Parsed<seq<Operation>>, pieces: seq<Piece>) {
    && GoodPieces(pieces, parsed.rest)
    && s == LinesOfAll(pieces) + parsed.rest && parsed.value == ops + OpsOf(pieces)
  }

  lemma ReadsNothing(s: seq<Line>, ops: seq<Operation>)
    ensures Reads(s, ops, Parsed(ops, s), [])
  {
    Alone(s);
    Alone(ops);
  }

  lemma ReadsBlank(s: seq<Line>, ops: seq<Operation>, parsed: Parsed<seq<Operation>>, more: seq<Piece>)
    requires s != [] && s[0].Blank? && Reads(s[1..], ops, parsed, more)
    ensures Reads(s, ops, parsed, [Gap] + more)
  {
    PiecesCons(Gap, more, s[1..], parsed.rest);
    HeadAndTail(s);
    Alone(OpsOf(more));
  }

  lemma ReadsPiece(piece: Piece, tail: seq<Line>, ops: seq<Operation>, op: Operation,
                   parsed: Parsed<seq<Operation>>, more: seq<Piece>)
    requires OpOf(piece) == [op] && GoodPiece(piece) && Reads(tail, ops + [op], parsed, more)
    requires !Closed(piece) ==> tail == [] || IsSection(tail[0])
    requires !Closed(piece) && more == [] ==> tail == [] || Bounds(tail[0])
    ensures Reads(LinesOf(piece) + tail, ops, parsed, [piece] + more)
  {
    Alone(parsed.rest);
    PiecesCons(piece, more, tail, parsed.rest);
    Assoc(ops, [op], OpsOf(more));
  }

  lemma {:induction false} SectionsRead(s: seq<Line>, ops: seq<Operation>) returns (pieces: seq<Piece>)
    requires ParseSections(s, ops).Ok? && (s == [] || EndLine(s[|s| - 1]))
    ensures Reads(s, ops, ParseSections(s, ops).value, pieces)
    decreases |s|
  {
    if |s| <= 1 {
      ReadsNothing(s, ops);
      return [];
    }
    var parsed, rest, ops' := NextSection(s, ops);
    var more := SectionsRead(rest, ops');
    if s[0].Blank? {
      ReadsBlank(s, ops, parsed, more);
      return [Gap] + more;
    }
    var piece := SectionReads(s);
    LastIsNoMove(rest, more, parsed.rest);
    ReadsPiece(piece, rest, ops, ParseSection(s).value.value, parsed, more);
    return [piece] + more;
  }

  /** One turn of the loop of the parser. */
  lemma NextSection(s: seq<Line>, ops: seq<Operation>)
    returns (parsed: Parsed<seq<Operation>>, rest: seq<Line>, ops': seq<Operation>)
    requires |s| > 1 && ParseSections(s, ops).Ok? && EndLine(s[|s| - 1])
    ensures parsed == ParseSections(s, ops).value && Ok(parsed) == ParseSections(rest, ops') && |parsed.rest| <= 1
    ensures |rest| < |s| && (rest == [] || EndLine(rest[|rest| - 1]))
    ensures s[0].Blank? ==> rest == s[1..] && ops' == ops
    ensures !s[0].Blank? ==>
      && ParseSection(s).Ok?
      && rest == ParseSection(s).value.rest && ops' == ops + [ParseSection(s).value.value]
  {
    parsed := ParseSections(s, ops).value;
    if s[0].Blank? {
      rest, ops' := s[1..], ops;
    } else {
      ParseSectionTail(s);
      rest, ops' := ParseSection(s).value.rest, ops + [ParseSection(s).value.value];
    }
  }

  lemma LastIsNoMove(s: seq<Line>, pieces: seq<Piece>, rest: seq<Line>)
    requires s == LinesOfAll(pieces) + rest && |rest| <= 1 && (s == [] || EndLine(s[|s| - 1]))
    ensures pieces == [] && s != [] && IsSection(s[0]) ==> Bounds(s[0])
  {
    assert pieces == [] ==> s == [] + rest == rest;
  }

  // ---------- What is made of such pieces is accepted ----------

  /** What reading the parts makes of what was read before them. */
  function Made(path: string, moveTo: Option<string>, hunks: seq<Hunk>, parts: seq<Part>,
                rest: seq<Line>): Result<Parsed<Operation>> {
    Ok(Parsed(UpdateFile(path, if TargetOf(parts).Some? then TargetOf(parts) else moveTo, hunks + HunksOf(parts)),
              rest))
  }

  lemma MoveParses(target: string, tail: seq<Line>, path: string, hunks: seq<Hunk>)
    requires target != []
    ensures ParseUpdate(LinesOfPart(MovePart(target)) + tail, path, None, hunks) ==
            ParseUpdate(tail, path, Some(target), hunks)
  {
    assert (LinesOfPart(MovePart(target)) + tail)[1..] == tail;
  }

  lemma HunkParses(hunk: Hunk, tail: seq<Line>, path: string, moveTo: Option<string>, hunks: seq<Hunk>)
    requires hunk.lines != [] && (tail == [] || IsSection(tail[0]) || tail[0].HunkStart?)
    ensures ParseUpdate(LinesOfPart(HunkPart(hunk)) + tail, path, moveTo, hunks) ==
            ParseUpdate(tail, path, moveTo, hunks + [hunk])
  {
    ParseHunkStep(hunk, tail, path, moveTo, hunks);
    Assoc([HunkStart(hunk.header)], HunkBody(hunk.lines), tail);
  }

  lemma NothingParses(rest: seq<Line>, path: string, moveTo: Option<string>, hunks: seq<Hunk>)
    requires rest == [] || Bounds(rest[0])
    ensures ParseUpdate(LinesOfParts([]) + rest, path, moveTo, hunks) == Made(path, moveTo, hunks, [], rest)
  {
    Alone(rest);
    Alone(hunks);
  }

  lemma MadeOfMore(path: string, moveTo: Option<string>, hunks: seq<Hunk>, parts: seq<Part>, rest: seq<Line>)
    requires parts != [] && GoodParts(parts) && (moveTo.Some? ==> TargetsOf(parts) == [])
    ensures parts[0].MovePart? ==>
      && moveTo.None?
      && Made(path, moveTo, hunks, parts, rest) == Made(path, Some(parts[0].target), hunks, parts[1..], rest)
    ensures parts[0].HunkPart? ==>
      Made(path, moveTo, hunks, parts, rest) == Made(path, moveTo, hunks + [parts[0].hunk], parts[1..], rest)
  {
    RestOfParts(parts);
    if parts[0].HunkPart? {
      Assoc(hunks, [parts[0].hunk], HunksOf(parts[1..]));
    }
  }

  lemma {:induction false} PartsParse(parts: seq<Part>, rest: seq<Line>, path: string, moveTo: Option<string>,
                                      hunks: seq<Hunk>)
    requires GoodParts(parts) && (moveTo.Some? ==> TargetsOf(parts) == []) && (rest == [] || Bounds(rest[0]))
    ensures ParseUpdate(LinesOfParts(parts) + rest, path, moveTo, hunks) == Made(path, moveTo, hunks, parts, rest)
    decreases parts
  {
    if parts == [] {
      NothingParses(rest, path, moveTo, hunks);
    } else {
      var tail := LinesOfParts(parts[1..]) + rest;
      PartsSplit(parts, rest);
      RestOfParts(parts);
      MadeOfMore(path, moveTo, hunks, parts, rest);
      match parts[0]
      case MovePart(target) =>
        MoveParses(target, tail, path, hunks);
        PartsParse(parts[1..], rest, path, Some(target), hunks);
      case HunkPart(hunk) =>
        PartsStart(parts[1..], rest);
        HunkParses(hunk, tail, path, moveTo, hunks);
        PartsParse(parts[1..], rest, path, moveTo, hunks + [hunk]);
    }
  }

  lemma PartsSplit(parts: seq<Part>, rest: seq<Line>)
    requires parts != []
    ensures LinesOfParts(parts) + rest == LinesOfPart(parts[0]) + (LinesOfParts(parts[1..]) + rest)
  {
  }

  lemma RestOfParts(parts: seq<Part>)
    requires parts != [] && GoodParts(parts)
    ensures GoodParts(parts[1..])
    ensures parts[0].MovePart? ==> TargetsOf(parts) == [parts[0].target] && TargetsOf(parts[1..]) == []
    ensures parts[0].MovePart? ==> parts[0].target != [] && HunksOf(parts) == HunksOf(parts[1..])
    ensures parts[0].HunkPart? ==> parts[0].hunk.lines != [] && TargetsOf(parts) == TargetsOf(parts[1..])
  {
  }

  lemma PartsStart(parts: seq<Part>, rest: seq<Line>)
    requires rest == [] || Bounds(rest[0])
    ensures var s := LinesOfParts(parts) + rest; s == [] || IsSection(s[0]) || s[0].HunkStart?
  {
    if parts != [] {
      assert (LinesOfParts(parts) + rest)[0] == LinesOfPart(parts[0])[0];
    }
  }

  lemma UpdateParses(path: string, parts: seq<Part>, tail: seq<Line>)
    requires GoodParts(parts) && (tail == [] || Bounds(tail[0]))
    ensures ParseSection(LinesOf(UpdatePiece(path, parts)) + tail) == Made(path, None, [], parts, tail)
  {
    Assoc([Directive(Update, path)], LinesOfParts(parts), tail);
    ConsTail(Directive(Update, path), LinesOfParts(parts) + tail);
    PartsParse(parts, tail, path, None, []);
  }

  lemma SectionParses(piece: Piece, tail: seq<Line>)
    requires !piece.Gap? && GoodPiece(piece)
    requires !Closed(piece) ==> tail == [] || Bounds(tail[0])
    ensures OpOf(piece) != [] && ParseSection(LinesOf(piece) + tail) == Ok(Parsed(OpOf(piece)[0], tail))
  {
    match piece
    case AddPiece(path, lines) => ParsePrintedAddSection(path, lines, tail);
    case DeletePiece(path) => assert (LinesOf(piece) + tail)[1..] == tail;
    case UpdatePiece(path, parts) =>
      UpdateParses(path, parts, tail);
      Alone(HunksOf(parts));
  }

  /** What is left after a piece: nothing, or lines that start the way the piece allows. */
  lemma AfterPiece(pieces: seq<Piece>, rest: seq<Line>)
    requires pieces != [] && GoodPieces(pieces, rest)
    ensures var tail := LinesOfAll(pieces[1..]) + rest;
            && LinesOfAll(pieces) + rest == LinesOf(pieces[0]) + tail
            && (!Closed(pieces[0]) ==> tail == [] || Bounds(tail[0]))
  {
    var tail := LinesOfAll(pieces[1..]) + rest;
    assert LinesOfAll(pieces) + rest == LinesOf(pieces[0]) + tail;
    if pieces[1..] != [] {
      assert tail[0] == LinesOf(pieces[1])[0];
    } else {
      assert tail == rest;
    }
  }

  lemma GapParses(s: seq<Line>, ops: seq<Operation>)
    requires |s| > 1 && s[0].Blank?
    ensures ParseSections(s, ops) == ParseSections(s[1..], ops)
  {
  }

  lemma PieceParses(piece: Piece, tail: seq<Line>, ops: seq<Operation>)
    requires !piece.Gap? && GoodPiece(piece)
    requires !Closed(piece) ==> tail == [] || Bounds(tail[0])
    requires |LinesOf(piece) + tail| > 1
    ensures ParseSections(LinesOf(piece) + tail, ops) == ParseSections(tail, ops + OpOf(piece))
  {
    SectionParses(piece, tail);
  }

  ghost predicate EndsFine(s: seq<Line>) { s == [] || EndLine(s[|s| - 1]) }

  lemma FirstPieceParses(pieces: seq<Piece>, rest: seq<Line>, ops: seq<Operation>)
    requires pieces != [] && GoodPieces(pieces, rest) && EndsFine(LinesOfAll(pieces) + rest)
    ensures GoodPieces(pieces[1..], rest) && EndsFine(LinesOfAll(pieces[1..]) + rest)
    ensures ParseSections(LinesOfAll(pieces) + rest, ops) ==
            ParseSections(LinesOfAll(pieces[1..]) + rest, ops + OpOf(pieces[0]))
  {
    var piece, tail := pieces[0], LinesOfAll(pieces[1..]) + rest;
    AfterPiece(pieces, rest);
    EndIsLater(piece, tail);
    if piece.Gap? {
      GapParses(LinesOf(piece) + tail, ops);
      ConsTail(Blank, tail);
      Alone(ops);
    } else {
      PieceParses(piece, tail, ops);
    }
  }

  lemma {:induction false} SectionsParse(pieces: seq<Piece>, rest: seq<Line>, ops: seq<Operation>)
    requires GoodPieces(pieces, rest) && |rest| <= 1 && EndsFine(LinesOfAll(pieces) + rest)
    ensures ParseSections(LinesOfAll(pieces) + rest, ops) == Ok(Parsed(ops + OpsOf(pieces), rest))
    decreases pieces
  {
    if pieces == [] {
      Alone(rest);
      Alone(ops);
    } else {
      var ops' := ops + OpOf(pieces[0]);
      FirstPieceParses(pieces, rest, ops);
      SectionsParse(pieces[1..], rest, ops');
      Assoc(ops, OpOf(pieces[0]), OpsOf(pieces[1..]));
    }
  }

  /** The first line of a piece is not the end marker. */
  lemma EndIsLater(piece: Piece, tail: seq<Line>)
    requires EndsFine(LinesOf(piece) + tail)
    ensures |LinesOf(piece) + tail| > 1 && EndsFine(tail)
  {
    var s := LinesOf(piece) + tail;
    assert s[0] == LinesOf(piece)[0] && !EndLine(s[0]);
    assert tail != [] ==> tail[|tail| - 1] == s[|s| - 1];
  }

  // ---------- Exactly those ----------

  /** The lines after the begin marker are pieces, and then the end marker; or the pieces run up to the end. */
  ghost predicate Spells(lines: seq<Line>, ops: seq<Operation>) {
    exists pieces, rest ::
      |rest| <= 1 && GoodPieces(pieces, rest) && lines == LinesOfAll(pieces) + rest && ops == OpsOf(pieces)
  }

  lemma SpelledIff(s: seq<Line>, ops: seq<Operation>)
    requires s != [] && EndsFine(s)
    ensures (ParseSections(s, []).Ok? && ParseSections(s, []).value.value == ops) <==> Spells(s, ops)
  {
    if ParseSections(s, []).Ok? {
      var pieces := SectionsRead(s, []);
      assert [] + OpsOf(pieces) == OpsOf(pieces);
    }
    forall pieces, rest | |rest| <= 1 && GoodPieces(pieces, rest) && s == LinesOfAll(pieces) + rest
      ensures ParseSections(s, []) == Ok(Parsed(OpsOf(pieces), rest))
    {
      SectionsParse(pieces, rest, []);
      assert [] + OpsOf(pieces) == OpsOf(pieces);
    }
  }

  /** A patch is accepted as a list of operations exactly if it starts and ends with the markers and its
      lines between them are those of the operations, with blank lines before and after sections except
      after an added or an updated file. */
  lemma AcceptedIff(lines: seq<string>, ops: seq<Operation>)
    ensures (ParseLines(lines).Ok? && ParseLines(lines).value.value == ops) <==>
            lines != [] && IsBegin(lines[0]) && IsEnd(lines[|lines| - 1]) && ops != []
            && Spells(LexAll(lines[1..]), ops)
  {
    if lines != [] && IsBegin(lines[0]) && IsEnd(lines[|lines| - 1]) {
      LastLexed(lines);
      EndMarkerLine(lines[|lines| - 1]);
      SpelledIff(LexAll(lines[1..]), ops);
    }
  }
}
