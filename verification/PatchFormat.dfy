/** The patch format (functions/apply_patch_tool.py): what its lines mean, its parser, as functions
    on the lines that are left to read, its printer, and the proofs that each undoes the other. */
module PatchFormat {
  import opened HunkLines
  import opened HunkPlacement
  import opened Results
  import opened Sequences
  import opened Text

  datatype Operation =
    | AddFile(path: string, lines: seq<string>)
    | DeleteFile(path: string)
    | UpdateFile(path: string, moveTo: Option<string>, hunks: seq<Hunk>)

  // ---------- Lines ----------

  const ADD_BODY_ERROR := "Add File body must contain only '+' lines."
  const BEGIN := "*** Begin Patch"
  const END := "*** End Patch"

  predicate IsBegin(line: string) { Strip(line) == BEGIN }
  predicate IsEnd(line: string) { Strip(line) == END }

  datatype Keyword = Add | Update | Delete | Move

  function Prefix(k: Keyword): string {
    match k
    case Add => "*** Add File: "
    case Update => "*** Update File: "
    case Delete => "*** Delete File: "
    case Move => "*** Move to: "
  }

  /** What the tests of the parser can tell about a line. A directive or a hunk header carries the
      stripped text after its prefix. */
  datatype Line =
    | Directive(keyword: Keyword, argument: string)
    | OtherSection(line: string)         // any other line that starts with "*** "
    | HunkStart(header: string)
    | Body(tag: Tag, text: string)
    | Blank
    | Junk

  predicate IsSection(line: Line) { line.Directive? || line.OtherSection? }

  function KeywordOf(line: string): (r: Option<Keyword>)
    ensures r.Some? ==> Prefix(r.value) <= line
  {
    if Prefix(Add) <= line then Some(Add)
    else if Prefix(Update) <= line then Some(Update)
    else if Prefix(Delete) <= line then Some(Delete)
    else if Prefix(Move) <= line then Some(Move)
    else None
  }

  function LexSection(line: string): Line {
    match KeywordOf(line)
    case None => OtherSection(line)
    case Some(k) => Directive(k, Strip(line[|Prefix(k)|..]))
  }

  function Lex(line: string): Line {
    if line == [] then Blank
    else if "*** " <= line then LexSection(line)
    else if "@@" <= line then HunkStart(Strip(line[2..]))
    else if line[0] == ' ' then Body(Context, line[1..])
    else if line[0] == '-' then Body(Removed, line[1..])
    else if line[0] == '+' then Body(Added, line[1..])
    else Junk
  }

  function LexAll(lines: seq<string>): (r: seq<Line>)
    ensures |r| == |lines|
  {
    if lines == [] then [] else [Lex(lines[0])] + LexAll(lines[1..])
  }

  // ---------- Parsing ----------

  /** What a parser read, and the lines it left. */
  datatype Parsed<+T> = Parsed(value: T, rest: seq<Line>)

  /** `_parse_add_file` */
  function ParseAdd(s: seq<Line>, content: seq<string>): (r: Result<Parsed<seq<string>>>)
    ensures r.Ok? ==> |r.value.rest| <= |s|
  {
    if s == [] || IsSection(s[0]) then Ok(Parsed(content, s))
    else if s[0].Body? && s[0].tag.Added? then ParseAdd(s[1..], content + [s[0].text])
    else Err(ADD_BODY_ERROR)
  }

  /** The loop of `_parse_hunk` */
  function ParseHunkLines(s: seq<Line>, lines: seq<HunkLine>): (r: Result<Parsed<seq<HunkLine>>>)
    ensures r.Ok? ==> |r.value.rest| <= |s|
  {
    if s == [] || IsSection(s[0]) || s[0].HunkStart? then Ok(Parsed(lines, s))
    else if s[0].Body? then ParseHunkLines(s[1..], lines + [HunkLine(s[0].tag, s[0].text)])
    else Err("Update hunk must contain only context, '-' or '+' lines.")
  }

  /** `_parse_hunk`, from the hunk's header line on */
  function ParseHunk(s: seq<Line>): (r: Result<Parsed<Hunk>>)
    requires s != [] && s[0].HunkStart?
    ensures r.Ok? ==> |r.value.rest| < |s|
  {
    var body :- ParseHunkLines(s[1..], []);
    if body.value == [] then Err("Update hunk is empty.") else Ok(Parsed(Hunk(s[0].header, body.value), body.rest))
  }

  /** `_parse_update_file` */
  function ParseUpdate(s: seq<Line>, path: string, moveTo: Option<string>,
                       hunks: seq<Hunk>): (r: Result<Parsed<Operation>>)
    ensures r.Ok? ==> |r.value.rest| <= |s|
    decreases |s|
  {
    if s == [] then Ok(Parsed(UpdateFile(path, moveTo, hunks), s))
    else if s[0].Directive? && s[0].keyword.Move? then
      if moveTo.Some? then Err("Update File contains multiple Move to directives.")
      else if s[0].argument == [] then Err("Move to directive is empty.")
      else ParseUpdate(s[1..], path, Some(s[0].argument), hunks)
    else if s[0].HunkStart? then
      var hunk :- ParseHunk(s);
      ParseUpdate(hunk.rest, path, moveTo, hunks + [hunk.value])
    else if IsSection(s[0]) then Ok(Parsed(UpdateFile(path, moveTo, hunks), s))
    else Err("Unexpected line in Update File")
  }

  /** One section: its header line and its body. */
  function ParseSection(s: seq<Line>): (r: Result<Parsed<Operation>>)
    requires s != []
    ensures r.Ok? ==> |r.value.rest| < |s|
  {
    if !s[0].Directive? then Err("Unknown patch section") else
      match s[0].keyword
      case Add => (
        var body :- ParseAdd(s[1..], []);
        Ok(Parsed(AddFile(s[0].argument, body.value), body.rest)))
      case Update => ParseUpdate(s[1..], s[0].argument, None, [])
      case Delete => Ok(Parsed(DeleteFile(s[0].argument), s[1..]))
      case Move => Err("Unknown patch section")
  }

  /** The loop of `_parse_patch`. It stops when at most the end marker is left. */
  function ParseSections(s: seq<Line>, ops: seq<Operation>): (r: Result<Parsed<seq<Operation>>>)
    ensures r.Ok? ==> |r.value.rest| <= 1
    decreases |s|
  {
    if |s| <= 1 then Ok(Parsed(ops, s))
    else if s[0].Blank? then ParseSections(s[1..], ops)
    else
      var op :- ParseSection(s);
      ParseSections(op.rest, ops + [op.value])
  }

  /** What `_parse_patch` reads, together with what it leaves unread: the end marker, or nothing. */
  function ParseLines(lines: seq<string>): Result<Parsed<seq<Operation>>> {
    if lines == [] || !IsBegin(lines[0]) then Err("Patch must start with '*** Begin Patch'.")
    else if !IsEnd(lines[|lines| - 1]) then Err("Patch must end with '*** End Patch'.")
    else
      var all :- ParseSections(LexAll(lines[1..]), []);
      if all.value == [] then Err("Patch does not contain any file operations.") else Ok(all)
  }

  /** `_parse_patch` */
  function ParsePatch(patch: string): Result<seq<Operation>> {
    if Strip(patch) == [] then Err("patch must be a non-empty string.")
    else
      var all :- ParseLines(SplitLines(patch));
      Ok(all.value)
  }

  // ---------- Printing ----------

  function AddedBody(lines: seq<string>): seq<Line> {
    if lines == [] then [] else [Body(Added, lines[0])] + AddedBody(lines[1..])
  }

  function HunkBody(lines: seq<HunkLine>): seq<Line> {
    if lines == [] then [] else [Body(lines[0].tag, lines[0].text)] + HunkBody(lines[1..])
  }

  function Hunks(hunks: seq<Hunk>): seq<Line> {
    if hunks == [] then [] else [HunkStart(hunks[0].header)] + HunkBody(hunks[0].lines) + Hunks(hunks[1..])
  }

  function MoveLine(moveTo: Option<string>): seq<Line> {
    match moveTo case None => [] case Some(target) => [Directive(Move, target)]
  }

  function Section(op: Operation): seq<Line> {
    match op
    case AddFile(path, lines) => [Directive(Add, path)] + AddedBody(lines)
    case DeleteFile(path) => [Directive(Delete, path)]
    case UpdateFile(path, moveTo, hunks) => [Directive(Update, path)] + MoveLine(moveTo) + Hunks(hunks)
  }

  function Sections(ops: seq<Operation>): seq<Line> {
    if ops == [] then [] else Section(ops[0]) + Sections(ops[1..])
  }

  function Render(line: Line): string {
    match line
    case Directive(keyword, argument) => Prefix(keyword) + argument
    case OtherSection(other) => other
    case HunkStart(header) => "@@ " + header
    case Body(tag, text) => (match tag case Context => " " case Removed => "-" case Added => "+") + text
    case Blank => ""
    case Junk => "?"
  }

  function RenderAll(lines: seq<Line>): (r: seq<string>)
    ensures |r| == |lines|
  {
    if lines == [] then [] else [Render(lines[0])] + RenderAll(lines[1..])
  }

  function PrintLines(begin: string, end: string, ops: seq<Operation>): seq<string> {
    [begin] + RenderAll(Sections(ops) + [OtherSection(end)])
  }

  // ---------- The operations a patch can express ----------

  predicate Name(s: string) { Stripped(s) && OneLine(s) }

  predicate GoodHunk(h: Hunk) {
    Name(h.header) && h.lines != [] && forall i :: 0 <= i < |h.lines| ==> OneLine(h.lines[i].text)
  }

  predicate Good(op: Operation) {
    && Name(op.path)
    && (op.AddFile? ==> forall i :: 0 <= i < |op.lines| ==> OneLine(op.lines[i]))
    && (op.UpdateFile? ==>
          && (op.moveTo.Some? ==> Name(op.moveTo.value) && op.moveTo.value != [])
          && (forall i :: 0 <= i < |op.hunks| ==> GoodHunk(op.hunks[i])))
  }

  predicate AllOps(ops: seq<Operation>) { forall i :: 0 <= i < |ops| ==> Good(ops[i]) }

  // ---------- Lexing undoes rendering ----------

  predicate GoodLine(line: Line) {
    match line
    case Directive(_, argument) => Name(argument)
    case HunkStart(header) => Name(header)
    case Body(_, text) => OneLine(text)
    case OtherSection(other) => Lex(other) == line && OneLine(other)
    case _ => true
  }

  lemma PrefixesDiffer(k: Keyword)
    ensures |Prefix(k)| > 4 && Prefix(k)[..4] == "*** " && OneLine(Prefix(k))
    ensures Prefix(k)[4] == match k { case Add => 'A' case Update => 'U' case Delete => 'D' case Move => 'M' }
  {
  }

  lemma KeywordOfPrefixed(k: Keyword, argument: string)
    ensures KeywordOf(Prefix(k) + argument) == Some(k)
  {
    var line := Prefix(k) + argument;
    PrefixesDiffer(k);
    assert line[4] == Prefix(k)[4];
    forall other | Prefix(other) <= line ensures other == k {
      PrefixesDiffer(other);
    }
  }

  lemma LexDirective(k: Keyword, argument: string)
    requires Name(argument)
    ensures Lex(Prefix(k) + argument) == Directive(k, argument)
    ensures OneLine(Prefix(k) + argument)
  {
    SectionPrefixed(k, argument);
    KeywordOfPrefixed(k, argument);
    assert (Prefix(k) + argument)[|Prefix(k)|..] == argument;
  }

  lemma SectionPrefixed(k: Keyword, argument: string)
    ensures "*** " <= Prefix(k) + argument && Prefix(k) + argument != []
    ensures OneLine(argument) ==> OneLine(Prefix(k) + argument)
  {
    PrefixesDiffer(k);
    assert (Prefix(k) + argument)[..4] == Prefix(k)[..4];
  }

  lemma LexEnd()
    ensures Lex(END) == OtherSection(END) && OneLine(END)
  {
    assert END[..4] == "*** " && END[4] == 'E';
    forall k ensures !(Prefix(k) <= END) {
      PrefixesDiffer(k);
    }
  }

  lemma NotPrefixed(line: string)
    requires line != []
    ensures line[0] != '*' ==> !("*** " <= line)
    ensures line[0] != '@' ==> !("@@" <= line)
  {
    assert "*** "[0] == '*' && "@@"[0] == '@';
  }

  lemma HunkPrefix(header: string)
    ensures var line := "@@ " + header; "@@" <= line && line[0] == '@' && line[2..] == " " + header
    ensures OneLine(header) ==> OneLine("@@ " + header)
  {
    assert "@@ "[0] == '@';
  }

  lemma LexHunkStart(header: string)
    requires Name(header)
    ensures Lex("@@ " + header) == HunkStart(header) && OneLine("@@ " + header)
  {
    var line := "@@ " + header;
    NotPrefixed(line);
    HunkPrefix(header);
    StripSpaced(header);
  }

  lemma LexBody(tag: Tag, text: string)
    requires OneLine(text)
    ensures Lex(Render(Body(tag, text))) == Body(tag, text) && OneLine(Render(Body(tag, text)))
  {
    var line := Render(Body(tag, text));
    NotPrefixed(line);
    assert line[1..] == text;
  }

  /** Lexing undoes rendering. */
  lemma LexRender(line: Line)
    requires GoodLine(line)
    ensures Lex(Render(line)) == line && OneLine(Render(line))
  {
    match line
    case Directive(k, argument) => LexDirective(k, argument);
    case OtherSection(other) =>
    case HunkStart(header) => LexHunkStart(header);
    case Body(tag, text) => LexBody(tag, text);
    case Blank =>
    case Junk =>
  }

  predicate AllGood(lines: seq<Line>) { forall i :: 0 <= i < |lines| ==> GoodLine(lines[i]) }

  predicate AllLines(lines: seq<string>) { forall i :: 0 <= i < |lines| ==> OneLine(lines[i]) }

  lemma {:induction false} LexRenderAll(lines: seq<Line>)
    requires AllGood(lines)
    ensures LexAll(RenderAll(lines)) == lines
    ensures AllLines(RenderAll(lines))
    ensures lines != [] ==> RenderAll(lines)[|lines| - 1] == Render(lines[|lines| - 1])
  {
    if lines != [] {
      LexRender(lines[0]);
      LexRenderAll(lines[1..]);
      LexCons(Render(lines[0]), RenderAll(lines[1..]));
      assert lines == [lines[0]] + lines[1..];
    }
  }

  lemma LexCons(line: string, lines: seq<string>)
    ensures LexAll([line] + lines) == [Lex(line)] + LexAll(lines)
  {
    assert ([line] + lines)[1..] == lines;
  }

  // ---------- Parsing undoes printing ----------

  lemma Regroup<T>(acc: seq<T>, items: seq<T>)
    ensures items != [] ==> acc + [items[0]] + items[1..] == acc + items
    ensures items == [] ==> acc + items == acc
    ensures [] + items == items
  {
  }

  /** A line that ends the section before it. */
  predicate Stops(line: Line) { line.OtherSection? || (line.Directive? && !line.keyword.Move?) }

  lemma {:induction false} ParsePrintedAdd(lines: seq<string>, rest: seq<Line>, content: seq<string>)
    requires rest == [] || IsSection(rest[0])
    ensures ParseAdd(AddedBody(lines) + rest, content) == Ok(Parsed(content + lines, rest))
  {
    if lines == [] {
      Alone(rest);
      Alone(content);
    } else {
      var first := Body(Added, lines[0]);
      Assoc([first], AddedBody(lines[1..]), rest);
      ConsTail(first, AddedBody(lines[1..]) + rest);
      ParsePrintedAdd(lines[1..], rest, content + [lines[0]]);
      HeadAndTail(lines);
      Assoc(content, [lines[0]], lines[1..]);
    }
  }

  lemma {:induction false} ParsePrintedHunkLines(lines: seq<HunkLine>, rest: seq<Line>, acc: seq<HunkLine>)
    requires rest == [] || IsSection(rest[0]) || rest[0].HunkStart?
    ensures ParseHunkLines(HunkBody(lines) + rest, acc) == Ok(Parsed(acc + lines, rest))
  {
    if lines == [] {
      Alone(rest);
      Alone(acc);
    } else {
      var first := Body(lines[0].tag, lines[0].text);
      Assoc([first], HunkBody(lines[1..]), rest);
      ConsTail(first, HunkBody(lines[1..]) + rest);
      ParsePrintedHunkLines(lines[1..], rest, acc + [lines[0]]);
      HeadAndTail(lines);
      Assoc(acc, [lines[0]], lines[1..]);
    }
  }

  lemma ParseHunkStep(h: Hunk, rest: seq<Line>, path: string, moveTo: Option<string>, acc: seq<Hunk>)
    requires h.lines != [] && (rest == [] || IsSection(rest[0]) || rest[0].HunkStart?)
    ensures ParseUpdate([HunkStart(h.header)] + (HunkBody(h.lines) + rest), path, moveTo, acc) ==
            ParseUpdate(rest, path, moveTo, acc + [h])
  {
    var s := [HunkStart(h.header)] + (HunkBody(h.lines) + rest);
    assert s[1..] == HunkBody(h.lines) + rest;
    ParsePrintedHunkLines(h.lines, rest, []);
    Regroup([], h.lines);
    assert ParseHunk(s) == Ok(Parsed(h, rest));
  }

  lemma HunksStart(hunks: seq<Hunk>, rest: seq<Line>)
    requires rest != [] && Stops(rest[0])
    ensures var s := Hunks(hunks) + rest; s != [] && (IsSection(s[0]) || s[0].HunkStart?)
  {
    if hunks == [] {
      assert Hunks(hunks) + rest == rest;
    }
  }

  lemma {:induction false} ParsePrintedHunks(hunks: seq<Hunk>, rest: seq<Line>, path: string, moveTo: Option<string>,
                                             acc: seq<Hunk>)
    requires forall i :: 0 <= i < |hunks| ==> hunks[i].lines != []
    requires rest != [] && Stops(rest[0])
    ensures ParseUpdate(Hunks(hunks) + rest, path, moveTo, acc) ==
            Ok(Parsed(UpdateFile(path, moveTo, acc + hunks), rest))
  {
    Regroup(acc, hunks);
    if hunks == [] {
      assert Hunks(hunks) + rest == rest;
    } else {
      var tail := Hunks(hunks[1..]) + rest;
      HunksStart(hunks[1..], rest);
      assert Hunks(hunks) + rest == [HunkStart(hunks[0].header)] + (HunkBody(hunks[0].lines) + tail);
      ParseHunkStep(hunks[0], tail, path, moveTo, acc);
      ParsePrintedHunks(hunks[1..], rest, path, moveTo, acc + [hunks[0]]);
    }
  }

  lemma ParsePrintedUpdate(path: string, moveTo: Option<string>, hunks: seq<Hunk>, rest: seq<Line>)
    requires Good(UpdateFile(path, moveTo, hunks)) && rest != [] && Stops(rest[0])
    ensures ParseUpdate(MoveLine(moveTo) + (Hunks(hunks) + rest), path, None, []) ==
            Ok(Parsed(UpdateFile(path, moveTo, hunks), rest))
  {
    var tail := Hunks(hunks) + rest;
    assert [] + hunks == hunks;
    ParsePrintedHunks(hunks, rest, path, moveTo, []);
    if moveTo.Some? {
      assert (MoveLine(moveTo) + tail)[1..] == tail;
    } else {
      assert MoveLine(moveTo) + tail == tail;
    }
  }

  lemma ParsePrintedAddSection(path: string, lines: seq<string>, rest: seq<Line>)
    requires rest == [] || IsSection(rest[0])
    ensures ParseSection(Section(AddFile(path, lines)) + rest) == Ok(Parsed(AddFile(path, lines), rest))
  {
    assert (Section(AddFile(path, lines)) + rest)[1..] == AddedBody(lines) + rest;
    ParsePrintedAdd(lines, rest, []);
    assert [] + lines == lines;
  }

  lemma ParsePrintedUpdateSection(path: string, moveTo: Option<string>, hunks: seq<Hunk>, rest: seq<Line>)
    requires Good(UpdateFile(path, moveTo, hunks)) && rest != [] && Stops(rest[0])
    ensures ParseSection(Section(UpdateFile(path, moveTo, hunks)) + rest) ==
            Ok(Parsed(UpdateFile(path, moveTo, hunks), rest))
  {
    assert (Section(UpdateFile(path, moveTo, hunks)) + rest)[1..] == MoveLine(moveTo) + (Hunks(hunks) + rest);
    ParsePrintedUpdate(path, moveTo, hunks, rest);
  }

  /** Every section is read back as the operation it was printed from, whatever section follows. */
  lemma ParsePrintedSection(op: Operation, rest: seq<Line>)
    requires Good(op) && rest != [] && Stops(rest[0])
    ensures ParseSection(Section(op) + rest) == Ok(Parsed(op, rest))
  {
    match op
    case AddFile(path, lines) => ParsePrintedAddSection(path, lines, rest);
    case DeleteFile(path) => assert (Section(op) + rest)[1..] == rest;
    case UpdateFile(path, moveTo, hunks) => ParsePrintedUpdateSection(path, moveTo, hunks, rest);
  }

  lemma ParseSectionsStep(op: Operation, rest: seq<Line>, acc: seq<Operation>)
    requires Good(op) && rest != [] && Stops(rest[0])
    ensures ParseSections(Section(op) + rest, acc) == ParseSections(rest, acc + [op])
  {
    ParsePrintedSection(op, rest);
    var s := Section(op) + rest;
    assert s[0].Directive?;
  }

  lemma SectionsStart(ops: seq<Operation>, last: Line)
    requires Stops(last)
    ensures Stops((Sections(ops) + [last])[0])
  {
    if ops == [] {
      assert Sections(ops) + [last] == [last];
    } else {
      assert (Sections(ops) + [last])[0] == Section(ops[0])[0];
    }
  }

  lemma {:induction false} ParsePrintedSections(ops: seq<Operation>, last: Line, acc: seq<Operation>)
    requires AllOps(ops) && Stops(last)
    ensures ParseSections(Sections(ops) + [last], acc) == Ok(Parsed(acc + ops, [last]))
  {
    Regroup(acc, ops);
    if ops == [] {
      assert Sections(ops) + [last] == [last];
    } else {
      var tail := Sections(ops[1..]) + [last];
      SectionsStart(ops[1..], last);
      ParseSectionsStep(ops[0], tail, acc);
      assert Sections(ops) + [last] == Section(ops[0]) + tail;
      ParsePrintedSections(ops[1..], last, acc + [ops[0]]);
    }
  }

  lemma {:induction false} AddedGood(lines: seq<string>)
    requires forall i :: 0 <= i < |lines| ==> OneLine(lines[i])
    ensures forall i :: 0 <= i < |AddedBody(lines)| ==> GoodLine(AddedBody(lines)[i])
  {
    if lines != [] { AddedGood(lines[1..]); }
  }

  lemma {:induction false} HunkBodyGood(lines: seq<HunkLine>)
    requires forall i :: 0 <= i < |lines| ==> OneLine(lines[i].text)
    ensures forall i :: 0 <= i < |HunkBody(lines)| ==> GoodLine(HunkBody(lines)[i])
  {
    if lines != [] { HunkBodyGood(lines[1..]); }
  }

  lemma {:induction false} HunksGood(hunks: seq<Hunk>)
    requires forall i :: 0 <= i < |hunks| ==> GoodHunk(hunks[i])
    ensures forall i :: 0 <= i < |Hunks(hunks)| ==> GoodLine(Hunks(hunks)[i])
  {
    if hunks != [] {
      HunkBodyGood(hunks[0].lines);
      HunksGood(hunks[1..]);
    }
  }

  lemma SectionGood(op: Operation)
    requires Good(op)
    ensures AllGood(Section(op))
  {
    match op
    case AddFile(path, lines) => AddedGood(lines);
    case DeleteFile(path) =>
    case UpdateFile(path, moveTo, hunks) => HunksGood(hunks);
  }

  lemma {:induction false} SectionsGood(ops: seq<Operation>)
    requires AllOps(ops)
    ensures AllGood(Sections(ops))
  {
    if ops != [] {
      SectionGood(ops[0]);
      SectionsGood(ops[1..]);
    }
  }

  lemma Markers()
    ensures IsBegin(BEGIN) && OneLine(BEGIN) && IsEnd(END) && GoodLine(OtherSection(END))
  {
    LexEnd();
    assert BEGIN[0] == '*' && END[0] == '*' && BEGIN[|BEGIN| - 1] == 'h' && END[|END| - 1] == 'h';
    assert Stripped(BEGIN) && Stripped(END);
  }

  lemma Prepended(line: string, body: seq<string>)
    requires body != []
    ensures var lines := [line] + body;
            && lines[0] == line && lines[1..] == body && lines[|lines| - 1] == body[|body| - 1]
            && (OneLine(line) && AllLines(body) ==> AllLines(lines))
  {
  }

  lemma PrintedLines(begin: string, end: string, ops: seq<Operation>)
    requires AllOps(ops) && OneLine(begin) && GoodLine(OtherSection(end))
    ensures var lines := PrintLines(begin, end, ops);
            && |lines| > 1 && lines[0] == begin && lines[|lines| - 1] == end && AllLines(lines)
            && LexAll(lines[1..]) == Sections(ops) + [OtherSection(end)]
  {
    var toks := Sections(ops) + [OtherSection(end)];
    SectionsGood(ops);
    LexRenderAll(toks);
    Prepended(begin, RenderAll(toks));
  }

  lemma ParseDelimited(lines: seq<string>, all: Parsed<seq<Operation>>)
    requires lines != [] && IsBegin(lines[0]) && IsEnd(lines[|lines| - 1])
    requires ParseSections(LexAll(lines[1..]), []) == Ok(all) && all.value != []
    ensures ParseLines(lines) == Ok(all)
    ensures Strip(lines[0]) != []
  {
  }

  /** Parsing undoes printing: for every non-empty list of operations the format can express, and
      every begin line and every end line at column 0 that the parser takes for its markers. */
  lemma ParsePrint(begin: string, end: string, ops: seq<Operation>)
    requires ops != [] && AllOps(ops)
    requires IsBegin(begin) && OneLine(begin) && IsEnd(end) && GoodLine(OtherSection(end))
    ensures ParsePatch(Join(PrintLines(begin, end, ops))) == Ok(ops)
  {
    var lines := PrintLines(begin, end, ops);
    PrintedLines(begin, end, ops);
    ParsePrintedSections(ops, OtherSection(end), []);
    assert [] + ops == ops;
    ParseDelimited(lines, Parsed(ops, [OtherSection(end)]));
    SplitJoin(lines);
    JoinStarts(lines);
    StripKeeps(lines[0], Join(lines));
  }

  /** With the markers themselves, every non-empty list of operations that can be expressed has a print that
      is read back. */
  lemma ParsePrintMarked(ops: seq<Operation>)
    requires ops != [] && AllOps(ops)
    ensures ParsePatch(Join(PrintLines(BEGIN, END, ops))) == Ok(ops)
  {
    Markers();
    ParsePrint(BEGIN, END, ops);
  }

  lemma JoinStarts(lines: seq<string>)
    requires lines != []
    ensures lines[0] <= Join(lines)
  {
  }
}
