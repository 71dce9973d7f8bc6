/** What the patch parser (functions/apply_patch_tool.py) accepts and what it leaves unread, and the
    parser itself as the loops of the code. */
module PatchReading {
  import opened HunkLines
  import opened HunkPlacement
  import opened PatchFormat
  import opened Results
  import opened Text

  // ---------- Everything the parser returns can be printed ----------

  lemma OneLineTail(line: string, k: nat)
    requires OneLine(line) && k <= |line|
    ensures OneLine(line[k..])
  {
  }

  lemma LexGood(line: string)
    requires OneLine(line)
    ensures GoodLine(Lex(line))
  {
    if line != [] {
      OneLineTail(line, 1);
      if KeywordOf(line).Some? {
        OneLineTail(line, |Prefix(KeywordOf(line).value)|);
      }
      if "@@" <= line {
        OneLineTail(line, 2);
      }
    }
  }

  lemma {:induction false} LexAllGood(lines: seq<string>)
    requires AllLines(lines)
    ensures AllGood(LexAll(lines))
  {
    if lines != [] {
      LexGood(lines[0]);
      LexAllGood(lines[1..]);
    }
  }

  lemma {:induction false} ParseAddGood(s: seq<Line>, content: seq<string>)
    requires AllGood(s) && AllLines(content) && ParseAdd(s, content).Ok?
    ensures AllLines(ParseAdd(s, content).value.value) && AllGood(ParseAdd(s, content).value.rest)
  {
    if s != [] && !IsSection(s[0]) {
      ParseAddGood(s[1..], content + [s[0].text]);
    }
  }

  predicate HunkTexts(lines: seq<HunkLine>) { forall i :: 0 <= i < |lines| ==> OneLine(lines[i].text) }

  lemma {:induction false} ParseHunkLinesGood(s: seq<Line>, acc: seq<HunkLine>)
    requires AllGood(s) && HunkTexts(acc) && ParseHunkLines(s, acc).Ok?
    ensures HunkTexts(ParseHunkLines(s, acc).value.value) && AllGood(ParseHunkLines(s, acc).value.rest)
  {
    if s != [] && s[0].Body? {
      ParseHunkLinesGood(s[1..], acc + [HunkLine(s[0].tag, s[0].text)]);
    }
  }

  lemma ParseHunkGood(s: seq<Line>)
    requires s != [] && s[0].HunkStart? && AllGood(s) && ParseHunk(s).Ok?
    ensures GoodHunk(ParseHunk(s).value.value) && AllGood(ParseHunk(s).value.rest)
  {
    ParseHunkLinesGood(s[1..], []);
  }

  predicate AllHunks(hunks: seq<Hunk>) { forall i :: 0 <= i < |hunks| ==> GoodHunk(hunks[i]) }

  lemma {:induction false} ParseUpdateGood(s: seq<Line>, path: string, moveTo: Option<string>, hunks: seq<Hunk>)
    requires AllGood(s) && Name(path) && AllHunks(hunks) && (moveTo.Some? ==> Name(moveTo.value) && moveTo.value != [])
    requires ParseUpdate(s, path, moveTo, hunks).Ok?
    ensures Good(ParseUpdate(s, path, moveTo, hunks).value.value)
            && AllGood(ParseUpdate(s, path, moveTo, hunks).value.rest)
    decreases |s|
  {
    if s == [] {
    } else if s[0].Directive? && s[0].keyword.Move? {
      ParseUpdateGood(s[1..], path, Some(s[0].argument), hunks);
    } else if s[0].HunkStart? {
      ParseHunkGood(s);
      var hunk := ParseHunk(s).value;
      ParseUpdateGood(hunk.rest, path, moveTo, hunks + [hunk.value]);
    }
  }

  lemma ParseSectionGood(s: seq<Line>)
    requires s != [] && AllGood(s) && ParseSection(s).Ok?
    ensures Good(ParseSection(s).value.value) && AllGood(ParseSection(s).value.rest)
  {
    match s[0].keyword
    case Add => ParseAddGood(s[1..], []);
    case Update => ParseUpdateGood(s[1..], s[0].argument, None, []);
    case Delete =>
    case Move =>
  }

  lemma {:induction false} ParseSectionsGood(s: seq<Line>, ops: seq<Operation>)
    requires AllGood(s) && AllOps(ops) && ParseSections(s, ops).Ok?
    ensures AllOps(ParseSections(s, ops).value.value)
    decreases |s|
  {
    if |s| > 1 {
      if s[0].Blank? {
        ParseSectionsGood(s[1..], ops);
      } else {
        ParseSectionGood(s);
        var op := ParseSection(s).value;
        ParseSectionsGood(op.rest, ops + [op.value]);
      }
    }
  }

  /** The operations of every patch the parser accepts, whatever its layout, can be printed; read
      back, the printed patch gives the same operations. */
  lemma ParsedCanBePrinted(patch: string, begin: string, end: string)
    requires ParsePatch(patch).Ok?
    requires IsBegin(begin) && OneLine(begin) && IsEnd(end) && GoodLine(OtherSection(end))
    ensures ParsePatch(patch).value != [] && AllOps(ParsePatch(patch).value)
    ensures ParsePatch(Join(PrintLines(begin, end, ParsePatch(patch).value))) == ParsePatch(patch)
  {
    ParsedIsGood(patch);
    ParsePrint(begin, end, ParsePatch(patch).value);
  }

  lemma ParsedIsGood(patch: string)
    requires ParsePatch(patch).Ok?
    ensures ParsePatch(patch).value != [] && AllOps(ParsePatch(patch).value)
  {
    LinesGood(SplitLines(patch));
  }

  lemma LinesGood(lines: seq<string>)
    requires ParseLines(lines).Ok? && forall i :: 0 <= i < |lines| ==> OneLine(lines[i])
    ensures ParseLines(lines).value.value != [] && AllOps(ParseLines(lines).value.value)
  {
    AcceptedLines(lines);
    LexAllGood(lines[1..]);
    ParseSectionsGood(LexAll(lines[1..]), []);
  }

  // ---------- What is left unread ----------

  /** What is left are the last of the lines. */
  predicate IsTail(rest: seq<Line>, s: seq<Line>) { |rest| <= |s| && rest == s[|s| - |rest|..] }

  /** What the end marker can look like to the parser: never a directive, a removed or an added line. */
  predicate EndLine(line: Line) { line.OtherSection? || line.Junk? || (line.Body? && line.tag.Context?) }

  /** A line at column 0 that strips to the end marker is a section line without a directive. */
  lemma EndMarkerLine(line: string)
    requires IsEnd(line)
    ensures line != [] && EndLine(Lex(line))
    ensures IsSection(Lex(line)) <==> !IsSpace(line[0])
  {
    assert END[0] == '*';
    if IsSpace(line[0]) {
      NotPrefixed(line);
    } else {
      var body := TrimRight(line);
      assert TrimLeft(line) == line && body == END && END <= line;
      EndIsNoDirective(line);
    }
  }

  lemma EndIsNoDirective(line: string)
    requires END <= line
    ensures Lex(line).OtherSection?
  {
    assert line[4] == END[4] == 'E' && line[..4] == END[..4];
    assert END[..4] == "*** ";
    forall k ensures !(Prefix(k) <= line) {
      PrefixesDiffer(k);
    }
  }

  lemma {:induction false} ParseAddTail(s: seq<Line>, content: seq<string>)
    requires ParseAdd(s, content).Ok?
    ensures var rest := ParseAdd(s, content).value.rest; IsTail(rest, s) && (rest == [] || IsSection(rest[0]))
    ensures s != [] && !(s[|s| - 1].Body? && s[|s| - 1].tag.Added?) ==> ParseAdd(s, content).value.rest != []
  {
    if s != [] && !IsSection(s[0]) {
      ParseAddTail(s[1..], content + [s[0].text]);
    }
  }

  lemma {:induction false} ParseHunkLinesTail(s: seq<Line>, acc: seq<HunkLine>)
    requires ParseHunkLines(s, acc).Ok?
    ensures var rest := ParseHunkLines(s, acc).value.rest;
            IsTail(rest, s) && (rest == [] || IsSection(rest[0]) || rest[0].HunkStart?)
  {
    if s != [] && s[0].Body? {
      ParseHunkLinesTail(s[1..], acc + [HunkLine(s[0].tag, s[0].text)]);
    }
  }

  lemma ParseHunkTail(s: seq<Line>)
    requires s != [] && s[0].HunkStart? && ParseHunk(s).Ok?
    ensures IsTail(ParseHunk(s).value.rest, s)
  {
    ParseHunkLinesTail(s[1..], []);
  }

  lemma {:induction false} ParseUpdateTail(s: seq<Line>, path: string, moveTo: Option<string>, hunks: seq<Hunk>)
    requires ParseUpdate(s, path, moveTo, hunks).Ok?
    ensures var parsed := ParseUpdate(s, path, moveTo, hunks).value;
            IsTail(parsed.rest, s) && (parsed.rest == [] || IsSection(parsed.rest[0])) && parsed.value.UpdateFile?
    decreases |s|
  {
    var rest := ParseUpdate(s, path, moveTo, hunks).value.rest;
    if s == [] {
    } else if s[0].Directive? && s[0].keyword.Move? {
      ParseUpdateTail(s[1..], path, Some(s[0].argument), hunks);
      TailOfTail(rest, s[1..], s);
    } else if s[0].HunkStart? {
      var hunk := ParseHunk(s).value;
      ParseHunkTail(s);
      ParseUpdateTail(hunk.rest, path, moveTo, hunks + [hunk.value]);
      TailOfTail(rest, hunk.rest, s);
    }
  }

  lemma TailOfTail(a: seq<Line>, b: seq<Line>, c: seq<Line>)
    requires IsTail(a, b) && IsTail(b, c)
    ensures IsTail(a, c)
  {
  }

  /** A section's parser leaves fewer lines, the last of those it got. The body of an Add File or Update
      File section stops at a section line or at the end; only an update can run past a line that ends the
      patch. */
  lemma ParseSectionTail(s: seq<Line>)
    requires s != [] && ParseSection(s).Ok?
    ensures var parsed := ParseSection(s).value;
            && IsTail(parsed.rest, s) && |parsed.rest| < |s|
            && (!parsed.value.DeleteFile? ==> parsed.rest == [] || IsSection(parsed.rest[0]))
            && (|s| > 1 && EndLine(s[|s| - 1]) && parsed.rest == [] ==> parsed.value.UpdateFile?)
  {
    match s[0].keyword
    case Add =>
      ParseAddTail(s[1..], []);
      TailOfTail(ParseSection(s).value.rest, s[1..], s);
    case Update =>
      ParseUpdateTail(s[1..], s[0].argument, None, []);
      TailOfTail(ParseSection(s).value.rest, s[1..], s);
    case Delete =>
    case Move =>
  }

  predicate LastIsUpdate(ops: seq<Operation>) { ops != [] && ops[|ops| - 1].UpdateFile? }

  /** How the operations read so far and the lines left bound each other. */
  predicate Aligned(s: seq<Line>, ops: seq<Operation>) {
    && (s == [] ==> LastIsUpdate(ops))
    && (LastIsUpdate(ops) ==> s == [] || IsSection(s[0]))
  }

  lemma {:induction false} ParseSectionsRest(s: seq<Line>, ops: seq<Operation>, last: Line)
    requires ParseSections(s, ops).Ok? && EndLine(last) && (s == [] || s[|s| - 1] == last)
    requires Aligned(s, ops) && (IsSection(last) ==> s != [])
    ensures var parsed := ParseSections(s, ops).value;
            && (parsed.rest == [] || parsed.rest == [last])
            && (parsed.rest == [] <==> !IsSection(last) && LastIsUpdate(parsed.value))
    decreases |s|
  {
    if |s| > 1 {
      if s[0].Blank? {
        ParseSectionsRest(s[1..], ops, last);
      } else {
        ParseSectionTail(s);
        var op := ParseSection(s).value;
        if IsSection(last) { UpdateKeepsMarker(s); }
        ParseSectionsRest(op.rest, ops + [op.value], last);
      }
    }
  }

  /** A section line is never run past. */
  lemma UpdateKeepsMarker(s: seq<Line>)
    requires |s| > 1 && EndLine(s[|s| - 1]) && ParseSection(s).Ok? && IsSection(s[|s| - 1])
    ensures ParseSection(s).value.rest != []
  {
    match s[0].keyword
    case Add => ParseSectionTail(s);
    case Update => UpdateStopsAtSection(s[1..], s[0].argument, None, []);
    case Delete =>
    case Move =>
  }

  /** A line that starts a section or ends the patch */
  predicate Bounds(line: Line) { IsSection(line) && !(line.Directive? && line.keyword.Move?) }

  /** An update never consumes a line that bounds a section. */
  lemma {:induction false} UpdateStopsAtSection(s: seq<Line>, path: string, moveTo: Option<string>, hunks: seq<Hunk>)
    requires s != [] && Bounds(s[|s| - 1]) && ParseUpdate(s, path, moveTo, hunks).Ok?
    ensures ParseUpdate(s, path, moveTo, hunks).value.rest != []
    decreases |s|
  {
    if s[0].Directive? && s[0].keyword.Move? {
      UpdateStopsAtSection(s[1..], path, Some(s[0].argument), hunks);
    } else if s[0].HunkStart? {
      var hunk := ParseHunk(s).value;
      HunkStopsAtSection(s[1..], []);
      ParseHunkLinesTail(s[1..], []);
      UpdateStopsAtSection(hunk.rest, path, moveTo, hunks + [hunk.value]);
    }
  }

  lemma {:induction false} HunkStopsAtSection(s: seq<Line>, acc: seq<HunkLine>)
    requires s != [] && IsSection(s[|s| - 1]) && ParseHunkLines(s, acc).Ok?
    ensures ParseHunkLines(s, acc).value.rest != []
  {
    if s[0].Body? {
      HunkStopsAtSection(s[1..], acc + [HunkLine(s[0].tag, s[0].text)]);
    }
  }

  // ---------- Which section is the last ----------

  predicate IsHeader(line: Line) { line.Directive? && !line.keyword.Move? }

  /** The keyword of the last line that starts a section */
  function LastHeader(s: seq<Line>): Option<Keyword> {
    if s == [] then None
    else if LastHeader(s[1..]).Some? then LastHeader(s[1..])
    else if IsHeader(s[0]) then Some(s[0].keyword) else None
  }

  lemma {:induction false} AddHasNoHeader(s: seq<Line>, content: seq<string>)
    requires ParseAdd(s, content).Ok?
    ensures LastHeader(ParseAdd(s, content).value.rest) == LastHeader(s)
  {
    if s != [] && !IsSection(s[0]) { AddHasNoHeader(s[1..], content + [s[0].text]); }
  }

  lemma {:induction false} HunkHasNoHeader(s: seq<Line>, acc: seq<HunkLine>)
    requires ParseHunkLines(s, acc).Ok?
    ensures LastHeader(ParseHunkLines(s, acc).value.rest) == LastHeader(s)
  {
    if s != [] && s[0].Body? { HunkHasNoHeader(s[1..], acc + [HunkLine(s[0].tag, s[0].text)]); }
  }

  lemma {:induction false} UpdateHasNoHeader(s: seq<Line>, path: string, moveTo: Option<string>, hunks: seq<Hunk>)
    requires ParseUpdate(s, path, moveTo, hunks).Ok?
    ensures LastHeader(ParseUpdate(s, path, moveTo, hunks).value.rest) == LastHeader(s)
    decreases |s|
  {
    if s == [] {
    } else if s[0].Directive? && s[0].keyword.Move? {
      UpdateHasNoHeader(s[1..], path, Some(s[0].argument), hunks);
    } else if s[0].HunkStart? {
      HunkHasNoHeader(s[1..], []);
      UpdateHasNoHeader(ParseHunk(s).value.rest, path, moveTo, hunks + [ParseHunk(s).value.value]);
    }
  }

  /** A section has one header, its first line, which says what operation it is. */
  lemma SectionHasOneHeader(s: seq<Line>)
    requires s != [] && ParseSection(s).Ok?
    ensures var parsed := ParseSection(s).value;
            && LastHeader(s) == (if LastHeader(parsed.rest).Some? then LastHeader(parsed.rest) else Some(s[0].keyword))
            && (parsed.value.UpdateFile? <==> s[0].keyword == Update)
  {
    match s[0].keyword
    case Add => AddHasNoHeader(s[1..], []);
    case Update =>
      UpdateHasNoHeader(s[1..], s[0].argument, None, []);
      ParseUpdateTail(s[1..], s[0].argument, None, []);
    case Delete =>
    case Move =>
  }

  /** The last operation is an update exactly if the last header is that of one. */
  lemma {:induction false} LastIsUpdateIff(s: seq<Line>, ops: seq<Operation>)
    requires ParseSections(s, ops).Ok? && (s == [] || EndLine(s[|s| - 1]))
    ensures LastIsUpdate(ParseSections(s, ops).value.value) <==>
            if LastHeader(s).Some? then LastHeader(s) == Some(Update) else LastIsUpdate(ops)
    decreases |s|
  {
    if |s| > 1 {
      if s[0].Blank? {
        LastIsUpdateIff(s[1..], ops);
      } else {
        var op := ParseSection(s).value;
        ParseSectionTail(s);
        SectionHasOneHeader(s);
        LastIsUpdateIff(op.rest, ops + [op.value]);
      }
    }
  }

  // ---------- The end marker ----------

  /** When a patch is accepted, its end marker is left unread unless it is indented and the last line that
      starts a section starts an update, whose last hunk then takes the marker for a context line. */
  lemma EndMarkerConsumedIff(lines: seq<string>)
    requires ParseLines(lines).Ok?
    ensures var parsed := ParseLines(lines).value; var last := lines[|lines| - 1];
            && last != []
            && (parsed.rest == [] <==> IsSpace(last[0]) && LastHeader(LexAll(lines[1..])) == Some(Update))
            && (parsed.rest != [] ==> parsed.rest == [Lex(last)])
  {
    AcceptedLines(lines);
    LastLexed(lines);
    MarkerRest(LexAll(lines[1..]), lines[|lines| - 1]);
  }

  lemma AcceptedLines(lines: seq<string>)
    requires ParseLines(lines).Ok?
    ensures lines != [] && IsBegin(lines[0]) && IsEnd(lines[|lines| - 1])
    ensures ParseLines(lines) == ParseSections(LexAll(lines[1..]), [])
  {
  }

  lemma LastLexed(lines: seq<string>)
    requires lines != [] && IsBegin(lines[0]) && IsEnd(lines[|lines| - 1])
    ensures var s := LexAll(lines[1..]); s != [] && s[|s| - 1] == Lex(lines[|lines| - 1])
  {
    BeginIsNotEnd(lines);
    LexLast(lines[1..]);
  }

  lemma MarkerRest(s: seq<Line>, last: string)
    requires s != [] && s[|s| - 1] == Lex(last) && IsEnd(last) && ParseSections(s, []).Ok?
    ensures var parsed := ParseSections(s, []).value;
            && last != []
            && (parsed.rest == [] <==> IsSpace(last[0]) && LastHeader(s) == Some(Update))
            && (parsed.rest != [] ==> parsed.rest == [Lex(last)])
  {
    EndMarkerLine(last);
    ParseSectionsRest(s, [], Lex(last));
    LastIsUpdateIff(s, []);
  }

  /** A patch whose end marker is eaten: an indented one after an update. */
  lemma IndentedEndMarkerIsEaten(lines: seq<string>)
    requires lines == [BEGIN, Prefix(Update) + "a", "@@", "+x", " " + END]
    ensures ParseLines(lines) ==
            Ok(Parsed([UpdateFile("a", None, [Hunk([], [HunkLine(Added, "x"), HunkLine(Context, END)])])], []))
  {
    EatenAfter(lines, "a", "x");
  }

  /** So it is whatever the path is, and the line that is added. */
  lemma EatenAfter(lines: seq<string>, path: string, text: string)
    requires |lines| == 5 && Name(path) && lines[0] == BEGIN && lines[1] == Prefix(Update) + path
    requires lines[2] == "@@" && lines[3] == ['+'] + text && lines[4] == " " + END
    ensures ParseLines(lines) ==
            Ok(Parsed([UpdateFile(path, None, [Hunk([], [HunkLine(Added, text), HunkLine(Context, END)])])], []))
  {
    MarkedLines(lines);
    EatenLexed(lines[1..], path, text);
    var op := EatenParsed(LexAll(lines[1..]), path, text);
    ParseDelimited(lines, Parsed([op], []));
  }

  lemma MarkedLines(lines: seq<string>)
    requires |lines| == 5 && lines[0] == BEGIN && lines[4] == " " + END
    ensures IsBegin(lines[0]) && IsEnd(lines[|lines| - 1])
  {
    Markers();
    StripSpaced(END);
  }

  predicate Eaten(s: seq<Line>, path: string, text: string) {
    && |s| == 4 && s[0] == Directive(Update, path) && s[1] == HunkStart([])
    && s[2] == Body(Added, text) && s[3] == Body(Context, END)
  }

  lemma EatenLexed(lines: seq<string>, path: string, text: string)
    requires |lines| == 4 && Name(path) && lines[0] == Prefix(Update) + path
    requires lines[1] == "@@" && lines[2] == ['+'] + text && lines[3] == " " + END
    ensures Eaten(LexAll(lines), path, text)
  {
    LexDirectiveAt(lines, path);
    LexBareHunkAt(lines);
    LexAddedAt(lines, text);
    LexIndentedEndAt(lines);
  }

  lemma LexDirectiveAt(lines: seq<string>, path: string)
    requires lines != [] && Name(path) && lines[0] == Prefix(Update) + path
    ensures LexAll(lines)[0] == Directive(Update, path)
  {
    LexDirective(Update, path);
  }

  lemma LexBareHunkAt(lines: seq<string>)
    requires |lines| > 1 && "@@" <= lines[1] && |lines[1]| == 2
    ensures LexAll(lines)[1] == HunkStart([])
  {
    LexAt(lines, 1);
    LexTests(lines[1]);
    assert lines[1][2..] == [] && Strip([]) == [];
  }

  lemma LexAddedAt(lines: seq<string>, text: string)
    requires |lines| > 2 && lines[2] == ['+'] + text
    ensures LexAll(lines)[2] == Body(Added, text)
  {
    LexAt(lines, 2);
    NotPrefixed(lines[2]);
    assert lines[2][1..] == text;
  }

  lemma LexIndentedEndAt(lines: seq<string>)
    requires |lines| > 3 && lines[3] == " " + END
    ensures LexAll(lines)[3] == Body(Context, END)
  {
    LexAt(lines, 3);
    NotPrefixed(lines[3]);
    assert lines[3][1..] == END;
  }

  lemma EatenParsed(s: seq<Line>, path: string, text: string) returns (op: Operation)
    requires Eaten(s, path, text)
    ensures op == UpdateFile(path, None, [Hunk([], [HunkLine(Added, text), HunkLine(Context, END)])])
    ensures ParseSections(s, []) == Ok(Parsed([op], []))
  {
    var h := EatenHunk(s[1..], text);
    op := UpdateFile(path, None, [h]);
    assert [] + [h] == [h];
    assert ParseUpdate(s[1..], path, None, []) == ParseUpdate([], path, None, [h]);
    assert ParseSection(s) == Ok(Parsed(op, []));
    assert [] + [op] == [op];
  }

  lemma EatenHunk(s: seq<Line>, text: string) returns (h: Hunk)
    requires |s| == 3 && s[0] == HunkStart([]) && s[1] == Body(Added, text) && s[2] == Body(Context, END)
    ensures h == Hunk([], [HunkLine(Added, text), HunkLine(Context, END)]) && ParseHunk(s) == Ok(Parsed(h, []))
  {
    var added, eaten := HunkLine(Added, text), HunkLine(Context, END);
    var body := s[1..];
    assert [] + [added] == [added] && [added] + [eaten] == [added, eaten] && body[1..][1..] == [];
    assert ParseHunkLines(body[1..], [added]) == ParseHunkLines([], [added, eaten]);
    h := Hunk([], [added, eaten]);
  }

  lemma BeginIsNotEnd(lines: seq<string>)
    requires lines != [] && IsBegin(lines[0]) && IsEnd(lines[|lines| - 1])
    ensures |lines| > 1
  {
    NotBoth(lines[0]);
  }

  lemma NotBoth(line: string)
    requires IsBegin(line)
    ensures !IsEnd(line)
  {
    MarkersDiffer();
  }

  lemma MarkersDiffer()
    ensures BEGIN != END
  {
    assert BEGIN[4] == 'B' && END[4] == 'E';
  }

  lemma {:induction false} LexLast(lines: seq<string>)
    requires lines != []
    ensures LexAll(lines)[|lines| - 1] == Lex(lines[|lines| - 1])
  {
    if |lines| > 1 {
      LexLast(lines[1..]);
    }
  }

  // ---------- The code ----------

  /** What the tests of the code on a line say about it. */
  lemma LexTests(line: string)
    ensures IsSection(Lex(line)) <==> "*** " <= line
    ensures Lex(line).HunkStart? <==> "@@" <= line
    ensures "@@" <= line ==> Lex(line).header == Strip(line[2..])
    ensures "+" <= line <==> Lex(line).Body? && Lex(line).tag.Added?
    ensures Lex(line).Body? <==> line != [] && line[0] in " -+"
    ensures Lex(line).Body? ==> Lex(line).text == line[1..]
    ensures Lex(line).Blank? <==> line == []
  {
    if line != [] {
      NotPrefixed(line);
    }
  }

  lemma {:induction false} LexAt(lines: seq<string>, i: nat)
    requires i < |lines|
    ensures LexAll(lines)[i] == Lex(lines[i])
  {
    if i > 0 {
      LexAt(lines[1..], i - 1);
    }
  }

  /** What the tests of `_parse_add_file` say about the first line left. */
  lemma FacingAddedLine(lines: seq<string>, index: nat)
    requires index < |lines|
    ensures var line, left := lines[index], LexAll(lines)[index..];
            && left[1..] == LexAll(lines)[index + 1..]
            && (IsSection(left[0]) <==> "*** " <= line)
            && ("+" <= line <==> left[0].Body? && left[0].tag.Added?)
            && (left[0].Body? ==> line != [] && left[0].text == line[1..])
  {
    LexAt(lines, index);
    LexTests(lines[index]);
  }

  lemma AddTurn(lines: seq<string>, index: nat, content: seq<string>)
    requires index < |lines|
    ensures var line, left := lines[index], LexAll(lines)[index..];
            if "*** " <= line then ParseAdd(left, content) == Ok(Parsed(content, left))
            else if "+" <= line then
              line != [] && ParseAdd(left, content) == ParseAdd(LexAll(lines)[index + 1..], content + [line[1..]])
            else ParseAdd(left, content) == Err(ADD_BODY_ERROR)
  {
    FacingAddedLine(lines, index);
  }

  /** `_parse_add_file` */
  method ParseAddFile(lines: seq<string>, start: nat, path: string) returns (r: Result<Operation>, index: nat)
    requires start <= |lines|
    ensures start <= index <= |lines|
    ensures var spec := ParseAdd(LexAll(lines)[start..], []);
            && (r.Ok? <==> spec.Ok?)
            && (r.Ok? ==> r.value == AddFile(path, spec.value.value) && LexAll(lines)[index..] == spec.value.rest)
            && (r.Err? ==> r.error == spec.error)
  {
    index := start;
    var content := [];
    ghost var spec := ParseAdd(LexAll(lines)[start..], []);
    while index < |lines|
      invariant start <= index <= |lines|
      invariant spec == ParseAdd(LexAll(lines)[index..], content)
    {
      var line := lines[index];
      AddTurn(lines, index, content);
      if "*** " <= line {
        return Ok(AddFile(path, content)), index;
      }
      if !("+" <= line) {
        return Err(ADD_BODY_ERROR), index;
      }
      content := content + [line[1..]];
      index := index + 1;
    }
    r := Ok(AddFile(path, content));
  }

  function TagOf(mark: char): Tag {
    if mark == ' ' then Context else if mark == '-' then Removed else Added
  }

  lemma LexTag(line: string)
    requires Lex(line).Body?
    ensures line != [] && Lex(line) == Body(TagOf(line[0]), line[1..])
  {
  }

  /** What the tests of `_parse_hunk` say about the first line left. */
  lemma FacingHunkLine(lines: seq<string>, index: nat)
    requires index < |lines|
    ensures var line, left := lines[index], LexAll(lines)[index..];
            && left[0] == Lex(line) && left[1..] == LexAll(lines)[index + 1..]
            && (IsSection(left[0]) || left[0].HunkStart? <==> "*** " <= line || "@@" <= line)
            && (left[0].HunkStart? ==> "@@" <= line && left[0].header == Strip(line[2..]))
            && (left[0].Body? <==> line != [] && line[0] in " -+")
            && (left[0].Body? ==> left[0] == Body(TagOf(line[0]), line[1..]))
  {
    LexAt(lines, index);
    LexTests(lines[index]);
    if Lex(lines[index]).Body? {
      LexTag(lines[index]);
    }
  }

  /** `_parse_hunk` */
  method ReadHunk(lines: seq<string>, start: nat) returns (r: Result<Hunk>, index: nat)
    requires start < |lines| && LexAll(lines)[start].HunkStart?
    ensures start < index <= |lines|
    ensures var spec := ParseHunk(LexAll(lines)[start..]);
            && (r.Ok? <==> spec.Ok?)
            && (r.Ok? ==> r.value == spec.value.value && LexAll(lines)[index..] == spec.value.rest)
            && (r.Err? ==> r.error == spec.error)
  {
    FacingHunkLine(lines, start);
    var header := Strip(lines[start][2..]);
    var hunkLines := [];
    index := start + 1;
    ghost var left := LexAll(lines)[start..][1..];
    ghost var spec := ParseHunkLines(left, []);
    while index < |lines|
      invariant start < index <= |lines| && left == LexAll(lines)[index..]
      invariant spec == ParseHunkLines(left, hunkLines)
    {
      var line := lines[index];
      FacingHunkLine(lines, index);
      if "*** " <= line || "@@" <= line {
        break;
      }
      if line == [] || line[0] !in " -+" {
        return Err("Update hunk must contain only context, '-' or '+' lines."), index;
      }
      hunkLines := hunkLines + [HunkLine(TagOf(line[0]), line[1..])];
      index, left := index + 1, left[1..];
    }
    if hunkLines == [] {
      return Err("Update hunk is empty."), index;
    }
    r := Ok(Hunk(header, hunkLines));
  }

  lemma LexKeyword(line: string)
    ensures Lex(line).Directive? <==> KeywordOf(line).Some?
    ensures KeywordOf(line).Some? ==>
      var k := KeywordOf(line).value; Prefix(k) <= line && Lex(line) == Directive(k, Strip(line[|Prefix(k)|..]))
  {
    if KeywordOf(line).Some? {
      var k := KeywordOf(line).value;
      var argument := line[|Prefix(k)|..];
      assert line == Prefix(k) + argument;
      SectionPrefixed(k, argument);
    }
  }

  /** What the tests of `_parse_update_file` say about the first line left. */
  lemma Facing(lines: seq<string>, index: nat)
    requires index < |lines|
    ensures var line, left := lines[index], LexAll(lines)[index..];
            && left[0] == Lex(line) && left[1..] == LexAll(lines)[index + 1..]
            && (KeywordOf(line) == Some(Move) ==>
                Prefix(Move) <= line && left[0] == Directive(Move, Strip(line[|Prefix(Move)|..])))
            && (left[0].Directive? && left[0].keyword.Move? ==> KeywordOf(line) == Some(Move))
            && (left[0].HunkStart? <==> "@@" <= line)
            && (IsSection(left[0]) <==> "*** " <= line)
  {
    LexAt(lines, index);
    LexTests(lines[index]);
    LexKeyword(lines[index]);
  }

  /** `_parse_update_file` */
  method ParseUpdateFile(lines: seq<string>, start: nat, path: string) returns (r: Result<Operation>, index: nat)
    requires start <= |lines|
    ensures start <= index <= |lines|
    ensures var spec := ParseUpdate(LexAll(lines)[start..], path, None, []);
            && (r.Ok? <==> spec.Ok?)
            && (r.Ok? ==> r.value == spec.value.value && LexAll(lines)[index..] == spec.value.rest)
            && (r.Err? ==> r.error == spec.error)
  {
    ghost var spec := ParseUpdate(LexAll(lines)[start..], path, None, []);
    ghost var left := LexAll(lines)[start..];
    var moveTo, hunks := None, [];
    index := start;
    while index < |lines|
      invariant start <= index <= |lines| && left == LexAll(lines)[index..]
      invariant spec == ParseUpdate(left, path, moveTo, hunks)
    {
      var line := lines[index];
      Facing(lines, index);
      if KeywordOf(line) == Some(Move) {
        if moveTo.Some? {
          return Err("Update File contains multiple Move to directives."), index;
        }
        moveTo := Some(Strip(line[|Prefix(Move)|..]));
        if moveTo.value == [] {
          return Err("Move to directive is empty."), index;
        }
        index, left := index + 1, left[1..];
      } else if "@@" <= line {
        var hunk, next := ReadHunk(lines, index);
        if hunk.Err? {
          return Err(hunk.error), index;
        }
        hunks := hunks + [hunk.value];
        index, left := next, ParseHunk(left).value.rest;
      } else if "*** " <= line {
        break;
      } else {
        return Err("Unexpected line in Update File"), index;
      }
    }
    r := Ok(UpdateFile(path, moveTo, hunks));
  }

  /** The keyword that a section line starts with, and its argument */
  method ReadKeyword(line: string) returns (k: Option<Keyword>, argument: string)
    ensures k.None? <==> !Lex(line).Directive?
    ensures k.Some? ==> Lex(line) == Directive(k.value, argument)
  {
    LexKeyword(line);
    k := KeywordOf(line);
    argument := if k.Some? then Strip(line[|Prefix(k.value)|..]) else [];
  }

  lemma FirstLeft(lines: seq<string>, index: nat)
    requires index < |lines|
    ensures var left := LexAll(lines)[index..];
            left != [] && left[0] == Lex(lines[index]) && left[1..] == LexAll(lines)[index + 1..]
  {
    LexAt(lines, index);
  }

  /** One section in the loop of `_parse_patch`. */
  method ReadSection(lines: seq<string>, start: nat) returns (r: Result<Operation>, index: nat)
    requires start < |lines|
    ensures start <= index <= |lines| && (r.Ok? ==> start < index)
    ensures var spec := ParseSection(LexAll(lines)[start..]);
            && (r.Ok? <==> spec.Ok?)
            && (r.Ok? ==> r.value == spec.value.value && LexAll(lines)[index..] == spec.value.rest)
            && (r.Err? ==> r.error == spec.error)
  {
    FirstLeft(lines, start);
    var k, argument := ReadKeyword(lines[start]);
    index := start;
    match k
    case Some(Add) => r, index := ParseAddFile(lines, start + 1, argument);
    case Some(Update) => r, index := ParseUpdateFile(lines, start + 1, argument);
    case Some(Delete) => r, index := Ok(DeleteFile(argument)), start + 1;
    case _ => r := Err("Unknown patch section");
  }

  lemma BlankLine(lines: seq<string>, index: nat)
    requires index < |lines|
    ensures var left := LexAll(lines)[index..];
            left != [] && (left[0].Blank? <==> lines[index] == []) && left[1..] == LexAll(lines)[index + 1..]
  {
    FirstLeft(lines, index);
    LexTests(lines[index]);
  }

  /** The loop of `_parse_patch`. With the end marker at column 0, or after anything but an update, it
      ends exactly at the end marker; otherwise it has run past it. */
  method ReadSections(lines: seq<string>) returns (r: Result<seq<Operation>>)
    requires |lines| > 1
    ensures var spec := ParseSections(LexAll(lines)[1..], []);
            && (r.Ok? <==> spec.Ok?)
            && (r.Ok? ==> r.value == spec.value.value)
            && (r.Err? ==> r.error == spec.error)
  {
    var operations := [];
    var index, endIndex := 1, |lines| - 1;
    ghost var spec := ParseSections(LexAll(lines)[1..], []);
    while index < endIndex
      invariant 1 <= index <= |lines|
      invariant spec == ParseSections(LexAll(lines)[index..], operations)
      decreases |lines| - index
    {
      BlankLine(lines, index);
      if lines[index] == [] {
        index := index + 1;
        continue;
      }
      var operation;
      operation, index := ReadSection(lines, index);
      if operation.Err? {
        return Err(operation.error);
      }
      operations := operations + [operation.value];
    }
    r := Ok(operations);
  }

  /** `_parse_patch`: it computes `ParsePatch`. */
  method ReadPatch(patch: string) returns (r: Result<seq<Operation>>)
    ensures r == ParsePatch(patch)
  {
    if Strip(patch) == [] {
      return Err("patch must be a non-empty string.");
    }
    var lines := SplitLines(patch);
    if lines == [] || !IsBegin(lines[0]) {
      return Err("Patch must start with '*** Begin Patch'.");
    }
    if !IsEnd(lines[|lines| - 1]) {
      return Err("Patch must end with '*** End Patch'.");
    }
    BeginIsNotEnd(lines);
    assert LexAll(lines)[1..] == LexAll(lines[1..]);
    var operations := ReadSections(lines);
    if operations.Err? {
      return Err(operations.error);
    }
    if operations.value == [] {
      return Err("Patch does not contain any file operations.");
    }
    r := Ok(operations.value);
  }
}
