/** What a hunk says, told by its tagged lines alone (functions/apply_patch_tool.py).

    The code makes two blocks out of the lines of a hunk, looks for the one and writes the other. Here
    it is said without them which lines have to stand in the file and which stand in it afterwards. */
module HunkLines {
  import opened BlockPlacement
  import opened Results

  datatype Tag = Context | Removed | Added
  datatype HunkLine = HunkLine(tag: Tag, text: string)
  datatype Hunk = Hunk(header: string, lines: seq<HunkLine>)

  // ---------- The blocks of the code ----------

  /** The texts of the lines that do not have a tag. */
  function Without(lines: seq<HunkLine>, tag: Tag): seq<string> {
    if lines == [] then [] else
      var last := lines[|lines| - 1];
      Without(lines[..|lines| - 1], tag) + if last.tag == tag then [] else [last.text]
  }

  function OldBlock(lines: seq<HunkLine>): seq<string> { Without(lines, Added) }

  function NewBlock(lines: seq<HunkLine>): seq<string> { Without(lines, Removed) }

  function Edits(hunks: seq<Hunk>): seq<Edit<string>> {
    seq(|hunks|, i requires 0 <= i < |hunks| => Edit(OldBlock(hunks[i].lines), NewBlock(hunks[i].lines)))
  }

  // ---------- Specification: the lines themselves ----------

  /** How many of the first n lines do not have the tag. */
  function Rank(lines: seq<HunkLine>, tag: Tag, n: nat): (r: nat)
    requires n <= |lines|
    ensures r <= n
  {
    if n == 0 then 0 else Rank(lines, tag, n - 1) + if lines[n - 1].tag == tag then 0 else 1
  }

  /** How many lines of a file the hunk covers when the lines with the tag are not in it. */
  function Size(lines: seq<HunkLine>, tag: Tag): nat { Rank(lines, tag, |lines|) }

  /** The k-th line of the hunk stands in `file`, after those of the hunk that do before it. */
  ghost predicate StandsLine(lines: seq<HunkLine>, tag: Tag, file: seq<string>, at: nat, k: nat)
    requires k < |lines|
  {
    at + Rank(lines, tag, k) < |file| && file[at + Rank(lines, tag, k)] == lines[k].text
  }

  /** So do all that do not have the tag: they stand one after another from `at` on. */
  ghost predicate Stands(lines: seq<HunkLine>, tag: Tag, file: seq<string>, at: nat) {
    && at + Size(lines, tag) <= |file|
    && forall k {:trigger StandsLine(lines, tag, file, at, k)} ::
         0 <= k < |lines| && lines[k].tag != tag ==> StandsLine(lines, tag, file, at, k)
  }

  /** What has to be in the file: the lines of every hunk but the added ones, hunk after hunk. */
  ghost predicate Fits(file: seq<string>, hunks: seq<Hunk>, places: seq<nat>) {
    && |places| == |hunks|
    && (forall i :: 0 <= i < |hunks| ==> Stands(hunks[i].lines, Added, file, places[i]))
    && (forall i, j :: 0 <= i < j < |hunks| ==> places[i] + Size(hunks[i].lines, Added) <= places[j])
  }

  ghost predicate CanFit(file: seq<string>, hunks: seq<Hunk>) { exists places :: Fits(file, hunks, places) }

  /** From `i` of the old file and `j` of the new one on: the hunks stand in the old file without their
      added lines and in the new file without their removed ones, and between them both are the same. */
  ghost predicate Becomes(file: seq<string>, i: nat, file': seq<string>, j: nat, hunks: seq<Hunk>,
                          places: seq<nat>, places': seq<nat>)
    decreases hunks
  {
    i <= |file| && j <= |file'| && |places| == |hunks| == |places'| &&
    if hunks == [] then file[i..] == file'[j..] else
      var lines := hunks[0].lines;
      && i <= places[0] <= |file| && j <= places'[0] <= |file'| && file[i..places[0]] == file'[j..places'[0]]
      && Stands(lines, Added, file, places[0]) && Stands(lines, Removed, file', places'[0])
      && Becomes(file, places[0] + Size(lines, Added), file', places'[0] + Size(lines, Removed),
                 hunks[1..], places[1..], places'[1..])
  }

  function Tagged(lines: seq<HunkLine>, tag: Tag): nat { |lines| - Size(lines, tag) }

  function AllTagged(hunks: seq<Hunk>, tag: Tag): nat {
    if hunks == [] then 0 else Tagged(hunks[0].lines, tag) + AllTagged(hunks[1..], tag)
  }

  /** The hunks turn one list of lines into another: they fit the first, as early as they can, and
      everything between them is in both. */
  ghost predicate Patches(file: seq<string>, hunks: seq<Hunk>, file': seq<string>) {
    exists places, places' ::
      && Fits(file, hunks, places)
      && (forall others :: Fits(file, hunks, others) ==> NoLater(places, others))
      && Becomes(file, 0, file', 0, hunks, places, places')
  }

  // ---------- The blocks say the same ----------

  lemma {:induction false} BlockOf(lines: seq<HunkLine>, tag: Tag, n: nat)
    requires n <= |lines|
    ensures Rank(lines, tag, n) == |Without(lines[..n], tag)|
    ensures Without(lines[..n], tag) <= Without(lines, tag)
    decreases |lines| - n
  {
    RankOf(lines, tag, n);
    if n < |lines| {
      BlockOf(lines, tag, n + 1);
      assert lines[..n + 1][..n] == lines[..n];
      PrefixOf(Without(lines[..n], tag), Without(lines[..n + 1], tag), Without(lines, tag));
    } else {
      assert lines[..n] == lines;
    }
  }

  lemma {:induction false} RankOf(lines: seq<HunkLine>, tag: Tag, n: nat)
    requires n <= |lines|
    ensures Rank(lines, tag, n) == |Without(lines[..n], tag)|
  {
    if n > 0 {
      RankOf(lines, tag, n - 1);
      assert lines[..n][..n - 1] == lines[..n - 1];
    }
  }

  lemma PrefixOf(a: seq<string>, b: seq<string>, c: seq<string>)
    requires a <= b <= c
    ensures a <= c
  {
  }

  lemma WithoutAt(lines: seq<HunkLine>, tag: Tag, k: nat)
    requires k < |lines| && lines[k].tag != tag
    ensures Rank(lines, tag, k) < |Without(lines, tag)| && Without(lines, tag)[Rank(lines, tag, k)] == lines[k].text
  {
    BlockOf(lines, tag, k);
    BlockOf(lines, tag, k + 1);
    assert lines[..k + 1][..k] == lines[..k];
  }

  lemma StandsInBlock(lines: seq<HunkLine>, tag: Tag, file: seq<string>, at: nat, k: nat)
    requires MatchesAt(file, Without(lines, tag), at) && k < |lines| && lines[k].tag != tag
    ensures StandsLine(lines, tag, file, at, k)
  {
    WithoutAt(lines, tag, k);
    var block := Without(lines, tag);
    assert file[at..at + |block|][Rank(lines, tag, k)] == file[at + Rank(lines, tag, k)];
  }

  lemma SizeOf(lines: seq<HunkLine>, tag: Tag)
    ensures Size(lines, tag) == |Without(lines, tag)|
  {
    RankOf(lines, tag, |lines|);
    assert lines[..|lines|] == lines;
  }

  /** Standing line by line is matching the block. */
  lemma StandsIff(lines: seq<HunkLine>, tag: Tag, file: seq<string>, at: nat)
    ensures Size(lines, tag) == |Without(lines, tag)|
    ensures Stands(lines, tag, file, at) <==> MatchesAt(file, Without(lines, tag), at)
  {
    SizeOf(lines, tag);
    if MatchesAt(file, Without(lines, tag), at) {
      forall k | 0 <= k < |lines| && lines[k].tag != tag ensures StandsLine(lines, tag, file, at, k) {
        StandsInBlock(lines, tag, file, at, k);
      }
    }
    if Stands(lines, tag, file, at) {
      MatchesUpTo(lines, tag, file, at, |lines|);
      assert lines[..|lines|] == lines;
    }
  }

  lemma MatchesMore<T>(file: seq<T>, block: seq<T>, at: nat, line: T)
    requires MatchesAt(file, block, at) && at + |block| < |file| && file[at + |block|] == line
    ensures MatchesAt(file, block + [line], at)
  {
    assert file[at..at + |block| + 1] == file[at..at + |block|] + [line];
  }

  lemma WithoutMore(lines: seq<HunkLine>, tag: Tag, n: nat)
    requires n < |lines|
    ensures Without(lines[..n + 1], tag) ==
            Without(lines[..n], tag) + if lines[n].tag == tag then [] else [lines[n].text]
  {
    assert lines[..n + 1][..n] == lines[..n];
  }

  lemma MatchesNext(lines: seq<HunkLine>, tag: Tag, file: seq<string>, at: nat, n: nat)
    requires n < |lines| && MatchesAt(file, Without(lines[..n], tag), at)
    requires lines[n].tag != tag ==> StandsLine(lines, tag, file, at, n)
    ensures MatchesAt(file, Without(lines[..n + 1], tag), at)
  {
    WithoutMore(lines, tag, n);
    RankOf(lines, tag, n);
    if lines[n].tag != tag {
      MatchesMore(file, Without(lines[..n], tag), at, lines[n].text);
    } else {
      assert Without(lines[..n], tag) + [] == Without(lines[..n], tag);
    }
  }

  lemma {:induction false} MatchesUpTo(lines: seq<HunkLine>, tag: Tag, file: seq<string>, at: nat, n: nat)
    requires Stands(lines, tag, file, at) && n <= |lines|
    ensures MatchesAt(file, Without(lines[..n], tag), at)
  {
    if n == 0 {
      assert file[at..at + 0] == [];
    } else {
      MatchesUpTo(lines, tag, file, at, n - 1);
      MatchesNext(lines, tag, file, at, n - 1);
    }
  }

  /** Placing the old blocks is fitting the hunks. */
  lemma FitsIff(file: seq<string>, hunks: seq<Hunk>, places: seq<nat>)
    ensures Fits(file, hunks, places) <==> InOrderWithoutOverlap(file, 0, Edits(hunks), places)
  {
    var edits := Edits(hunks);
    if |places| == |hunks| {
      forall i | 0 <= i < |hunks|
        ensures Size(hunks[i].lines, Added) == |edits[i].before|
        ensures Stands(hunks[i].lines, Added, file, places[i]) <==> MatchesAt(file, edits[i].before, places[i])
      {
        StandsIff(hunks[i].lines, Added, file, places[i]);
      }
    }
  }

  lemma EditsRest(hunks: seq<Hunk>)
    requires hunks != []
    ensures Edits(hunks) != [] && Edits(hunks)[1..] == Edits(hunks[1..])
    ensures Edits(hunks)[0] == Edit(OldBlock(hunks[0].lines), NewBlock(hunks[0].lines))
  {
  }

  lemma SliceFrom<T>(whole: seq<T>, j: nat, a: seq<T>, b: seq<T>, c: seq<T>)
    requires j <= |whole| && whole[j..] == a + b + c
    ensures j + |a| + |b| <= |whole|
    ensures whole[j..j + |a|] == a && whole[j + |a|..j + |a| + |b|] == b && whole[j + |a| + |b|..] == c
  {
    assert whole[j..j + |a|] == whole[j..][..|a|];
    assert whole[j + |a|..j + |a| + |b|] == whole[j..][|a|..|a| + |b|];
    assert whole[j + |a| + |b|..] == whole[j..][|a| + |b|..];
  }

  lemma BecomesCons(file: seq<string>, i: nat, file': seq<string>, j: nat, hunks: seq<Hunk>, places: seq<nat>,
                    at: nat, rest: seq<nat>)
    requires hunks != [] && |places| == |hunks| && i <= places[0] <= |file| && j <= at <= |file'|
    requires file[i..places[0]] == file'[j..at]
    requires Stands(hunks[0].lines, Added, file, places[0]) && Stands(hunks[0].lines, Removed, file', at)
    requires Becomes(file, places[0] + Size(hunks[0].lines, Added), file', at + Size(hunks[0].lines, Removed),
                     hunks[1..], places[1..], rest)
    ensures Becomes(file, i, file', j, hunks, places, [at] + rest)
  {
    assert ([at] + rest)[1..] == rest;
  }

  lemma {:induction false} RewriteBecomes(file: seq<string>, i: nat, file': seq<string>, j: nat, hunks: seq<Hunk>,
                                          places: seq<nat>)
    returns (places': seq<nat>)
    requires i <= |file| && j <= |file'| && |places| == |hunks|
    requires Placed(file, i, Edits(hunks), places) && file'[j..] == Rewrite(file, i, Edits(hunks), places)
    ensures Becomes(file, i, file', j, hunks, places, places')
    decreases hunks
  {
    if hunks == [] {
      assert Edits(hunks) == [];
      return [];
    }
    var next, j', next' := RewriteHunk(file, i, file', j, hunks, places);
    var rest := RewriteBecomes(file, next, file', next', hunks[1..], places[1..]);
    BecomesCons(file, i, file', j, hunks, places, j', rest);
    places' := [j'] + rest;
  }

  /** The first hunk of them. */
  lemma RewriteHunk(file: seq<string>, i: nat, file': seq<string>, j: nat, hunks: seq<Hunk>, places: seq<nat>)
    returns (next: nat, j': nat, next': nat)
    requires hunks != [] && i <= |file| && j <= |file'| && |places| == |hunks|
    requires Placed(file, i, Edits(hunks), places) && file'[j..] == Rewrite(file, i, Edits(hunks), places)
    ensures i <= places[0] <= |file| && next == places[0] + Size(hunks[0].lines, Added) && next <= |file|
    ensures j' == j + places[0] - i && next' == j' + Size(hunks[0].lines, Removed) && next' <= |file'|
    ensures file[i..places[0]] == file'[j..j']
    ensures Stands(hunks[0].lines, Added, file, places[0]) && Stands(hunks[0].lines, Removed, file', j')
    ensures Placed(file, next, Edits(hunks[1..]), places[1..])
    ensures file'[next'..] == Rewrite(file, next, Edits(hunks[1..]), places[1..])
  {
    var lines, edits := hunks[0].lines, Edits(hunks);
    EditsRest(hunks);
    RewriteCons(file, i, edits, places);
    StandsIff(lines, Added, file, places[0]);
    next, j' := places[0] + Size(lines, Added), j + places[0] - i;
    SliceFrom(file', j, file[i..places[0]], edits[0].after, Rewrite(file, next, edits[1..], places[1..]));
    StandsIff(lines, Removed, file', j');
    next' := j' + Size(lines, Removed);
  }

  /** As many lines are gone as were to be removed, and as many are new as were to be added. */
  lemma {:induction false} BecomesCounts(file: seq<string>, i: nat, file': seq<string>, j: nat, hunks: seq<Hunk>,
                                         places: seq<nat>, places': seq<nat>)
    requires Becomes(file, i, file', j, hunks, places, places')
    ensures |file'| - j + AllTagged(hunks, Removed) == |file| - i + AllTagged(hunks, Added)
    decreases hunks
  {
    if hunks == [] {
      assert |file[i..]| == |file'[j..]|;
    } else {
      var lines := hunks[0].lines;
      assert |file[i..places[0]]| == |file'[j..places'[0]]|;
      BecomesCounts(file, places[0] + Size(lines, Added), file', places'[0] + Size(lines, Removed), hunks[1..],
                    places[1..], places'[1..]);
    }
  }

  /** There is only one list of lines that the hunks turn a list into. */
  lemma {:induction false} BecomesOne(file: seq<string>, i: nat, a: seq<string>, j: nat, b: seq<string>, k: nat,
                                      hunks: seq<Hunk>, places: seq<nat>, inA: seq<nat>, inB: seq<nat>)
    requires Becomes(file, i, a, j, hunks, places, inA) && Becomes(file, i, b, k, hunks, places, inB)
    ensures a[j..] == b[k..]
    decreases hunks
  {
    if hunks != [] {
      var next, next' := inA[0] + Size(hunks[0].lines, Removed), inB[0] + Size(hunks[0].lines, Removed);
      BecomesOne(file, places[0] + Size(hunks[0].lines, Added), a, next, b, next', hunks[1..], places[1..],
                 inA[1..], inB[1..]);
      StandsIff(hunks[0].lines, Removed, a, inA[0]);
      StandsIff(hunks[0].lines, Removed, b, inB[0]);
      SameInThree(a, j, inA[0], next, b, k, inB[0], next');
    }
  }

  lemma SameInThree<T>(a: seq<T>, j: nat, at: nat, next: nat, b: seq<T>, k: nat, at': nat, next': nat)
    requires j <= at <= next <= |a| && k <= at' <= next' <= |b|
    requires a[j..at] == b[k..at'] && a[at..next] == b[at'..next'] && a[next..] == b[next'..]
    ensures a[j..] == b[k..]
  {
    InThree(a, j, at, next);
    InThree(b, k, at', next');
  }

  lemma PatchesFits(file: seq<string>, hunks: seq<Hunk>, file': seq<string>)
    requires Patches(file, hunks, file')
    ensures Place(file, 0, Edits(hunks)).Some?
  {
    var places, places' :| && Fits(file, hunks, places)
                           && (forall others :: Fits(file, hunks, others) ==> NoLater(places, others))
                           && Becomes(file, 0, file', 0, hunks, places, places');
    PlaceHunks(file, hunks);
  }

  lemma PatchesOne(file: seq<string>, hunks: seq<Hunk>, a: seq<string>, b: seq<string>)
    requires Patches(file, hunks, a) && Patches(file, hunks, b)
    ensures a == b
  {
    var inFile, inA :| && Fits(file, hunks, inFile)
                       && (forall others :: Fits(file, hunks, others) ==> NoLater(inFile, others))
                       && Becomes(file, 0, a, 0, hunks, inFile, inA);
    var inFile', inB :| && Fits(file, hunks, inFile')
                        && (forall others :: Fits(file, hunks, others) ==> NoLater(inFile', others))
                        && Becomes(file, 0, b, 0, hunks, inFile', inB);
    assert inFile == inFile';
    BecomesOne(file, 0, a, 0, b, 0, hunks, inFile, inA, inB);
    assert a[0..] == a && b[0..] == b;
  }

  /** Placing the blocks greedily succeeds exactly if the hunks fit, and makes the lines what the hunks say. */
  lemma PlaceHunks(file: seq<string>, hunks: seq<Hunk>)
    ensures Place(file, 0, Edits(hunks)).Some? <==> CanFit(file, hunks)
    ensures Place(file, 0, Edits(hunks)).Some? ==>
      var file' := Place(file, 0, Edits(hunks)).value;
      && Patches(file, hunks, file')
      && |file'| + AllTagged(hunks, Removed) == |file| + AllTagged(hunks, Added)
  {
    var edits := Edits(hunks);
    PlaceCorrect(file, edits);
    forall places | Fits(file, hunks, places) ensures InOrderWithoutOverlap(file, 0, edits, places) {
      FitsIff(file, hunks, places);
    }
    if Place(file, 0, edits).Some? {
      PlacedHunks(file, hunks);
    }
  }

  lemma PlacedHunks(file: seq<string>, hunks: seq<Hunk>)
    requires Place(file, 0, Edits(hunks)).Some?
    ensures var file' := Place(file, 0, Edits(hunks)).value;
      && CanFit(file, hunks)
      && Patches(file, hunks, file')
      && |file'| + AllTagged(hunks, Removed) == |file| + AllTagged(hunks, Added)
  {
    var edits := Edits(hunks);
    var places, file' := Chosen(file, 0, edits), Place(file, 0, edits).value;
    ChosenPlaced(file, 0, edits);
    PlacedMeans(file, 0, edits, places);
    FitsIff(file, hunks, places);
    forall others | Fits(file, hunks, others) ensures NoLater(places, others) {
      FitsIff(file, hunks, others);
      PlacedMeans(file, 0, edits, others);
      ChosenIsLeast(file, 0, edits, others);
    }
    assert file'[0..] == file';
    var places' := RewriteBecomes(file, 0, file', 0, hunks, places);
    BecomesCounts(file, 0, file', 0, hunks, places, places');
  }

  /** A hunk that takes one line and gives another. */
  lemma LineReplaced(a: string, b: string, hunks: seq<Hunk>)
    requires a != b && hunks == [Hunk("", [HunkLine(Removed, a), HunkLine(Added, b)])]
    ensures Place([a], 0, Edits(hunks)) == Some([b]) && Place([b], 0, Edits(hunks)).None?
  {
    TwoTaggedLines(a, b, hunks[0].lines);
    assert Edits(hunks) == [Edit([a], [b])];
    PlaceOne(a, b);
  }

  lemma TwoTaggedLines(a: string, b: string, lines: seq<HunkLine>)
    requires lines == [HunkLine(Removed, a), HunkLine(Added, b)]
    ensures OldBlock(lines) == [a] && NewBlock(lines) == [b]
  {
    var one := lines[..1];
    assert one == [HunkLine(Removed, a)] && one[..0] == [];
    assert Without(one, Added) == [a] && Without(one, Removed) == [];
  }

  lemma PlaceOne<T>(a: T, b: T)
    requires a != b
    ensures Place([a], 0, [Edit([a], [b])]) == Some([b]) && Place([b], 0, [Edit([a], [b])]).None?
  {
    assert [a][0..1] == [a] && [b][0..1] == [b];
    assert MatchesAt([a], [a], 0) && !MatchesAt([b], [a], 0);
    assert [Edit([a], [b])][1..] == [] && [a][1..] == [] && [a][0..0] + [b] + [] == [b];
  }
}
