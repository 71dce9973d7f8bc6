/** Applying the hunks of an Update File section to a text (functions/apply_patch_tool.py). */
module HunkPlacement {
  import opened BlockPlacement
  import opened HunkLines
  import opened Results
  import opened Text

  // ---------- Whole texts ----------

  predicate EndsWithNewline(text: string) {
    text != [] && text[|text| - 1] in "\n\r"
  }

  /** `_lines_to_text` */
  function LinesToText(lines: seq<string>, trailingNewline: bool): string {
    if lines == [] then [] else Join(lines) + (if trailingNewline then "\n" else "")
  }

  /** The new text of an updated file; `None` when some hunk has no place. */
  function Updated(text: string, hunks: seq<Hunk>): Option<string> {
    match Place(SplitLines(text), 0, Edits(hunks))
    case None => None
    case Some(lines) => Some(LinesToText(lines, EndsWithNewline(text)))
  }

  /** `_apply_hunks`: it succeeds exactly when the hunks fit the lines of the text in order and without
      overlap, and then gives the text of what the hunks make of them where they fit earliest. */
  method ApplyHunks(originalText: string, hunks: seq<Hunk>) returns (r: Result<string>)
    ensures r.Ok? <==> CanFit(SplitLines(originalText), hunks)
    ensures r.Ok? ==> exists lines ::
      && Patches(SplitLines(originalText), hunks, lines)
      && |lines| + AllTagged(hunks, Removed) == |SplitLines(originalText)| + AllTagged(hunks, Added)
      && r.value == LinesToText(lines, EndsWithNewline(originalText))
    ensures r.Ok? <==> Placeable(SplitLines(originalText), Edits(hunks))
    ensures r.Ok? ==> exists places ::
      && Leftmost(SplitLines(originalText), 0, Edits(hunks), places)
      && r.value ==
        LinesToText(Rewrite(SplitLines(originalText), 0, Edits(hunks), places), EndsWithNewline(originalText))
    ensures r.Ok? <==> Updated(originalText, hunks).Some?
    ensures r.Ok? ==> r.value == Updated(originalText, hunks).value
  {
    PlaceCorrect(SplitLines(originalText), Edits(hunks));
    PlaceHunks(SplitLines(originalText), hunks);
    var lines := PlaceEdits(SplitLines(originalText), Edits(hunks));
    if lines.None? {
      return Err("Could not locate update hunk");
    }
    r := Ok(LinesToText(lines.value, EndsWithNewline(originalText)));
  }

  /** What an update makes of a text, told by the lines of its hunks. */
  lemma UpdatedExact(text: string, hunks: seq<Hunk>)
    ensures Updated(text, hunks).Some? <==> CanFit(SplitLines(text), hunks)
    ensures forall lines :: Patches(SplitLines(text), hunks, lines) ==>
      Updated(text, hunks) == Some(LinesToText(lines, EndsWithNewline(text)))
  {
    PlaceHunks(SplitLines(text), hunks);
    forall lines | Patches(SplitLines(text), hunks, lines)
      ensures Updated(text, hunks) == Some(LinesToText(lines, EndsWithNewline(text)))
    {
      PatchesFits(SplitLines(text), hunks, lines);
      PatchesOne(SplitLines(text), hunks, lines, Place(SplitLines(text), 0, Edits(hunks)).value);
    }
  }

  /** A hunk that is not the same forwards and backwards: it makes the one line the other, which it does
      not fit. */
  lemma ALineIsReplaced(a: string, b: string, hunks: seq<Hunk>)
    requires OneLine(a) && OneLine(b) && a != b
    requires hunks == [Hunk("", [HunkLine(Removed, a), HunkLine(Added, b)])]
    ensures Updated(a + "\n", hunks) == Some(b + "\n") && Updated(b + "\n", hunks).None?
  {
    LineReplaced(a, b, hunks);
    TextOfLine(a);
    TextOfLine(b);
  }

  lemma TextOfLine(line: string)
    requires OneLine(line)
    ensures SplitLines(line + "\n") == [line] && EndsWithNewline(line + "\n")
    ensures LinesToText([line], true) == line + "\n"
  {
    SplitFirst(line, []);
    assert line + "\n" + [] == line + "\n" && [line] + [] == [line];
  }

  // ---------- Lines as text ----------

  /** Lines written as a text are read as the same lines, unless an empty one at the end has no line feed
      after it; and the text ends a line exactly if it was to and there is one. */
  lemma {:induction false} LinesReadBack(lines: seq<string>, trailingNewline: bool)
    requires forall i :: 0 <= i < |lines| ==> OneLine(lines[i])
    requires trailingNewline || lines == [] || lines[|lines| - 1] != []
    ensures SplitLines(LinesToText(lines, trailingNewline)) == lines
    ensures EndsWithNewline(LinesToText(lines, trailingNewline)) <==> trailingNewline && lines != []
  {
    if |lines| == 1 {
      var line := lines[0];
      assert lines == [line] && Join(lines) == line;
      SplitFirst(line, []);
      assert line + "\n" + [] == line + "\n";
      assert SplitLines([]) == [] && [line] + [] == [line];
      if trailingNewline {
        assert LinesToText(lines, trailingNewline) == line + "\n";
      } else {
        assert line + [] == line;
        SplitJoin(lines);
        assert !IsBreak(line[|line| - 1]);
      }
    } else if |lines| > 1 {
      LinesReadBack(lines[1..], trailingNewline);
      assert lines == [lines[0]] + lines[1..];
      TextOf(lines[0], lines[1..], trailingNewline);
      SplitFirst(lines[0], LinesToText(lines[1..], trailingNewline));
      EndOfBoth(lines[0] + "\n", LinesToText(lines[1..], trailingNewline));
    }
  }

  lemma EndOfBoth(a: string, b: string)
    ensures b != [] ==> EndsWithNewline(a + b) == EndsWithNewline(b)
  {
  }

  // ---------- What reading a text as lines forgets ----------

  predicate OnlyLineFeeds(text: string) {
    forall i :: 0 <= i < |text| ==> IsBreak(text[i]) ==> text[i] == '\n'
  }

  lemma {:induction false} JoinOnlyLineFeeds(lines: seq<string>)
    requires forall i :: 0 <= i < |lines| ==> OneLine(lines[i])
    ensures OnlyLineFeeds(Join(lines))
  {
    if |lines| > 1 {
      JoinOnlyLineFeeds(lines[1..]);
    }
  }

  lemma {:induction false} JoinSplit(text: string)
    requires text != [] && OnlyLineFeeds(text)
    ensures LinesToText(SplitLines(text), EndsWithNewline(text)) == text
    decreases |text|
  {
    var n := LineLength(text);
    if n < |text| {
      var line, rest := text[..n], text[n + 1..];
      assert text == line + "\n" + rest;
      SplitFirst(line, rest);
      if rest != [] {
        JoinSplit(rest);
        assert EndsWithNewline(text) == EndsWithNewline(rest);
        TextOf(line, SplitLines(rest), EndsWithNewline(text));
      }
    }
  }

  lemma JoinCons(line: string, lines: seq<string>)
    requires lines != []
    ensures Join([line] + lines) == line + "\n" + Join(lines)
  {
    assert ([line] + lines)[1..] == lines;
  }

  lemma TextOf(line: string, lines: seq<string>, trailingNewline: bool)
    requires lines != []
    ensures LinesToText([line] + lines, trailingNewline) == line + "\n" + LinesToText(lines, trailingNewline)
  {
    JoinCons(line, lines);
    var end := if trailingNewline then "\n" else "";
    assert (line + "\n" + Join(lines)) + end == line + "\n" + (Join(lines) + end);
  }

  /** A text is given back by splitting and joining if and only if every line break in it is a line feed. */
  lemma TextSurvivesIff(text: string)
    ensures LinesToText(SplitLines(text), EndsWithNewline(text)) == text <==> OnlyLineFeeds(text)
  {
    if text != [] && OnlyLineFeeds(text) {
      JoinSplit(text);
    }
    JoinOnlyLineFeeds(SplitLines(text));
  }

  /** The hunks replace lines by themselves. */
  predicate ChangeNothing(hunks: seq<Hunk>) {
    forall i :: 0 <= i < |hunks| ==> OldBlock(hunks[i].lines) == NewBlock(hunks[i].lines)
  }

  lemma SameLines(text: string, hunks: seq<Hunk>)
    requires ChangeNothing(hunks) && Updated(text, hunks).Some?
    ensures Updated(text, hunks) == Some(LinesToText(SplitLines(text), EndsWithNewline(text)))
  {
    var lines, edits := SplitLines(text), Edits(hunks);
    ChosenPlaced(lines, 0, edits);
    RewriteSame(lines, 0, edits, Chosen(lines, 0, edits));
    assert lines[0..] == lines;
  }

  /** An update whose hunks change no line leaves the file as it was if and only if every line break in it
      is a line feed: other breaks are rewritten. */
  lemma UnchangedIff(text: string, hunks: seq<Hunk>)
    requires ChangeNothing(hunks) && Updated(text, hunks).Some?
    ensures Updated(text, hunks) == Some(text) <==> OnlyLineFeeds(text)
  {
    SameLines(text, hunks);
    TextSurvivesIff(text);
  }

  /** A file that such an update changes: two lines with a form feed between them. */
  lemma AFormFeedIsRewritten(text: string, hunks: seq<Hunk>)
    requires text == "a\U{0C}b" && hunks == [Hunk("", [HunkLine(Context, "a")])]
    ensures ChangeNothing(hunks) && Updated(text, hunks).Some? && Updated(text, hunks) != Some(text)
  {
    TwoLines(text);
    OneContextLine("a");
    var edits := Edits(hunks);
    assert edits == [Edit(["a"], ["a"])];
    PlacedFirst(SplitLines(text), "a", edits);
    assert IsBreak(text[1]) && text[1] != '\n';
    UnchangedIff(text, hunks);
  }

  lemma TwoLines(text: string)
    requires text == "a\U{0C}b"
    ensures SplitLines(text) == ["a", "b"]
  {
    var line, rest := "a", "\U{0C}b";
    assert text == line + rest;
    LineLengthOf(line, rest);
    assert text[..1] == "a" && text[2..] == "b" && BreakLength(text, 1) == 1;
    assert "b" + [] == "b";
    LineLengthOf("b", []);
    assert SplitLines("b") == ["b"];
  }

  lemma OneContextLine(line: string)
    ensures OldBlock([HunkLine(Context, line)]) == [line] == NewBlock([HunkLine(Context, line)])
  {
    var lines := [HunkLine(Context, line)];
    assert lines[..|lines| - 1] == [] && Without([], Added) == [] && Without([], Removed) == [];
  }

  lemma PlacedFirst(lines: seq<string>, line: string, edits: seq<Edit<string>>)
    requires lines != [] && lines[0] == line && edits == [Edit([line], [line])]
    ensures Place(lines, 0, edits).Some?
  {
    assert lines[0..1] == [line] && MatchesAt(lines, [line], 0);
    assert FirstMatch(lines, [line], 0) == Some(0);
    assert edits[1..] == [];
  }
}
