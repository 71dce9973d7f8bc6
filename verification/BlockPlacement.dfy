/** Replacing blocks of elements in a list, first match first (functions/apply_patch_tool.py).

    The code looks for each old block from a moving cursor and rewrites the list in place. The
    specification is about the original list only: which positions the old blocks may take, and
    what the list becomes once they are replaced. */
module BlockPlacement {
  import opened Results

  datatype Edit<T> = Edit(before: seq<T>, after: seq<T>)

  // ---------- Specification: placements over the original lines ----------

  predicate MatchesAt<T(==)>(lines: seq<T>, block: seq<T>, at: nat) {
    at + |block| <= |lines| && lines[at..at + |block|] == block
  }

  /** The old blocks sit at `places`, in order, without overlap, none before `from`. */
  ghost predicate Placed<T>(orig: seq<T>, from: nat, edits: seq<Edit<T>>, places: seq<nat>)
    decreases edits
  {
    if edits == [] then places == [] else
      && places != [] && from <= places[0]
      && MatchesAt(orig, edits[0].before, places[0])
      && Placed(orig, places[0] + |edits[0].before|, edits[1..], places[1..])
  }

  /** `Placed`, spelled out position by position. */
  ghost predicate InOrderWithoutOverlap<T>(orig: seq<T>, from: nat, edits: seq<Edit<T>>, places: seq<nat>) {
    && |places| == |edits|
    && (forall i :: 0 <= i < |edits| ==> from <= places[i] && MatchesAt(orig, edits[i].before, places[i]))
    && (forall i, j :: 0 <= i < j < |edits| ==> places[i] + |edits[i].before| <= places[j])
  }

  lemma {:induction false} PlacedMeans<T>(orig: seq<T>, from: nat, edits: seq<Edit<T>>, places: seq<nat>)
    ensures Placed(orig, from, edits, places) <==> InOrderWithoutOverlap(orig, from, edits, places)
    decreases edits
  {
    if edits != [] && places != [] {
      var next := places[0] + |edits[0].before|;
      PlacedMeans(orig, next, edits[1..], places[1..]);
      if InOrderWithoutOverlap(orig, from, edits, places) {
        assert InOrderWithoutOverlap(orig, next, edits[1..], places[1..]);
      }
      if Placed(orig, from, edits, places) {
        InOrderCons(orig, from, edits, places);
      }
    }
  }

  lemma InOrderCons<T>(orig: seq<T>, from: nat, edits: seq<Edit<T>>, places: seq<nat>)
    requires edits != [] && places != [] && from <= places[0] && MatchesAt(orig, edits[0].before, places[0])
    requires InOrderWithoutOverlap(orig, places[0] + |edits[0].before|, edits[1..], places[1..])
    ensures InOrderWithoutOverlap(orig, from, edits, places)
  {
    forall i | 1 <= i < |edits|
      ensures MatchesAt(orig, edits[i].before, places[i])
      ensures places[0] + |edits[0].before| <= places[i]
    {
      assert edits[i] == edits[1..][i - 1] && places[i] == places[1..][i - 1];
    }
    forall i, j | 1 <= i < j < |edits| ensures places[i] + |edits[i].before| <= places[j] {
      assert edits[i] == edits[1..][i - 1] && places[i] == places[1..][i - 1] && places[j] == places[1..][j - 1];
    }
  }

  ghost predicate Placeable<T>(orig: seq<T>, edits: seq<Edit<T>>) {
    exists places :: InOrderWithoutOverlap(orig, 0, edits, places)
  }

  /** A placement no hunk of which could sit earlier in any other placement. */
  ghost predicate Leftmost<T>(orig: seq<T>, from: nat, edits: seq<Edit<T>>, places: seq<nat>) {
    Placed(orig, from, edits, places) && forall others :: Placed(orig, from, edits, others) ==> NoLater(places, others)
  }

  ghost predicate NoLater(places: seq<nat>, others: seq<nat>) {
    |places| == |others| && forall i :: 0 <= i < |places| ==> places[i] <= others[i]
  }

  /** The lines from `from` on, with each placed old block replaced and every gap kept. */
  ghost function Rewrite<T>(orig: seq<T>, from: nat, edits: seq<Edit<T>>, places: seq<nat>): seq<T>
    requires from <= |orig| && Placed(orig, from, edits, places)
    decreases edits
  {
    if edits == [] then orig[from..] else
      var next := places[0] + |edits[0].before|;
      orig[from..places[0]] + edits[0].after + Rewrite(orig, next, edits[1..], places[1..])
  }

  /** Starting the search earlier keeps every placement. */
  lemma PlacedEarlier<T>(orig: seq<T>, from: nat, earlier: nat, edits: seq<Edit<T>>, places: seq<nat>)
    requires earlier <= from && Placed(orig, from, edits, places)
    ensures Placed(orig, earlier, edits, places)
  {
  }

  /** Edits that replace blocks by themselves change nothing, wherever they are placed. */
  lemma {:induction false} RewriteSame<T>(orig: seq<T>, from: nat, edits: seq<Edit<T>>, places: seq<nat>)
    requires from <= |orig| && Placed(orig, from, edits, places)
    requires forall i :: 0 <= i < |edits| ==> edits[i].before == edits[i].after
    ensures Rewrite(orig, from, edits, places) == orig[from..]
    decreases edits
  {
    if edits != [] {
      RewriteCons(orig, from, edits, places);
      RewriteSame(orig, places[0] + |edits[0].before|, edits[1..], places[1..]);
      InThree(orig, from, places[0], places[0] + |edits[0].before|);
    }
  }

  lemma RewriteCons<T>(orig: seq<T>, from: nat, edits: seq<Edit<T>>, places: seq<nat>)
    requires from <= |orig| && edits != [] && Placed(orig, from, edits, places)
    ensures places != [] && from <= places[0]
    ensures var next := places[0] + |edits[0].before|;
            && next <= |orig| && orig[places[0]..next] == edits[0].before
            && Placed(orig, next, edits[1..], places[1..])
            && Rewrite(orig, from, edits, places) ==
               orig[from..places[0]] + edits[0].after + Rewrite(orig, next, edits[1..], places[1..])
  {
  }

  lemma InThree<T>(s: seq<T>, a: nat, b: nat, c: nat)
    requires a <= b <= c <= |s|
    ensures s[a..b] + s[b..c] + s[c..] == s[a..]
  {
  }

  // ---------- The greedy placement, as a function ----------

  function FirstMatch<T(==)>(lines: seq<T>, block: seq<T>, from: nat): (r: Option<nat>)
    ensures r.Some? ==> from <= r.value && MatchesAt(lines, block, r.value)
    decreases |lines| - from
  {
    if from + |block| > |lines| then None
    else if MatchesAt(lines, block, from) then Some(from)
    else FirstMatch(lines, block, from + 1)
  }

  lemma {:induction false} FirstMatchLeast<T>(lines: seq<T>, block: seq<T>, from: nat, k: nat)
    requires from <= k && MatchesAt(lines, block, k)
    ensures FirstMatch(lines, block, from).Some? && FirstMatch(lines, block, from).value <= k
    decreases k - from
  {
    if !MatchesAt(lines, block, from) {
      FirstMatchLeast(lines, block, from + 1, k);
    }
  }

  /** What the lines from `from` on become when each hunk takes the first match after the last. */
  function Place<T(==)>(orig: seq<T>, from: nat, edits: seq<Edit<T>>): Option<seq<T>>
    requires from <= |orig|
    decreases edits
  {
    if edits == [] then Some(orig[from..]) else
      var block := edits[0].before;
      match FirstMatch(orig, block, from)
      case None => None
      case Some(at) =>
        match Place(orig, at + |block|, edits[1..])
        case None => None
        case Some(rest) => Some(orig[from..at] + edits[0].after + rest)
  }

  /** The positions greedy chooses. */
  ghost function Chosen<T>(orig: seq<T>, from: nat, edits: seq<Edit<T>>): seq<nat>
    requires from <= |orig| && Place(orig, from, edits).Some?
    decreases edits
  {
    if edits == [] then [] else
      var at := FirstMatch(orig, edits[0].before, from).value;
      [at] + Chosen(orig, at + |edits[0].before|, edits[1..])
  }

  /** They are a placement, and what greedy gives is the rewriting there. */
  lemma {:induction false} ChosenPlaced<T>(orig: seq<T>, from: nat, edits: seq<Edit<T>>)
    requires from <= |orig| && Place(orig, from, edits).Some?
    ensures Placed(orig, from, edits, Chosen(orig, from, edits))
    ensures Place(orig, from, edits).value == Rewrite(orig, from, edits, Chosen(orig, from, edits))
    decreases edits
  {
    if edits != [] {
      var at := FirstMatch(orig, edits[0].before, from).value;
      ChosenPlaced(orig, at + |edits[0].before|, edits[1..]);
      ChosenCons(orig, from, edits);
    }
  }

  lemma ChosenCons<T>(orig: seq<T>, from: nat, edits: seq<Edit<T>>)
    requires from <= |orig| && edits != [] && Place(orig, from, edits).Some?
    ensures var at := FirstMatch(orig, edits[0].before, from).value;
            var places := Chosen(orig, from, edits);
            places[0] == at && places[1..] == Chosen(orig, at + |edits[0].before|, edits[1..])
  {
  }

  /** The first match is no later than any place, and leaves the other places as they are. */
  lemma FirstPlace<T>(orig: seq<T>, from: nat, edits: seq<Edit<T>>, others: seq<nat>) returns (at: nat)
    requires edits != [] && Placed(orig, from, edits, others)
    ensures FirstMatch(orig, edits[0].before, from) == Some(at) && at <= others[0] && at + |edits[0].before| <= |orig|
    ensures Placed(orig, at + |edits[0].before|, edits[1..], others[1..])
  {
    FirstMatchLeast(orig, edits[0].before, from, others[0]);
    at := FirstMatch(orig, edits[0].before, from).value;
    PlacedEarlier(orig, others[0] + |edits[0].before|, at + |edits[0].before|, edits[1..], others[1..]);
  }

  lemma PlaceStep<T>(orig: seq<T>, from: nat, edits: seq<Edit<T>>, at: nat)
    requires from <= |orig| && edits != [] && FirstMatch(orig, edits[0].before, from) == Some(at)
    ensures at + |edits[0].before| <= |orig|
    ensures Place(orig, from, edits).Some? <==> Place(orig, at + |edits[0].before|, edits[1..]).Some?
  {
  }

  /** Greedy is sound: no other placement has any hunk before where greedy puts it. */
  lemma {:induction false} ChosenIsLeast<T>(orig: seq<T>, from: nat, edits: seq<Edit<T>>, others: seq<nat>)
    requires from <= |orig| && Place(orig, from, edits).Some? && Placed(orig, from, edits, others)
    ensures NoLater(Chosen(orig, from, edits), others)
    decreases edits
  {
    if edits != [] {
      var at := FirstPlace(orig, from, edits, others);
      PlaceStep(orig, from, edits, at);
      ChosenIsLeast(orig, at + |edits[0].before|, edits[1..], others[1..]);
      ChosenCons(orig, from, edits);
      NoLaterCons(Chosen(orig, from, edits), others);
    }
  }

  lemma NoLaterCons(places: seq<nat>, others: seq<nat>)
    requires places != [] && others != [] && places[0] <= others[0] && NoLater(places[1..], others[1..])
    ensures NoLater(places, others)
  {
    assert places == [places[0]] + places[1..] && others == [others[0]] + others[1..];
  }

  /** Greedy is complete: if any placement exists, it finds one. */
  lemma {:induction false} PlaceIsComplete<T>(orig: seq<T>, from: nat, edits: seq<Edit<T>>, others: seq<nat>)
    requires from <= |orig| && Placed(orig, from, edits, others)
    ensures Place(orig, from, edits).Some?
    decreases edits
  {
    if edits != [] {
      var at := FirstPlace(orig, from, edits, others);
      PlaceIsComplete(orig, at + |edits[0].before|, edits[1..], others[1..]);
      PlaceStep(orig, from, edits, at);
    }
  }

  /** Greedy placement succeeds exactly when the edits can be placed at all, and then it rewrites
      the lines at a leftmost placement. */
  lemma PlaceCorrect<T>(orig: seq<T>, edits: seq<Edit<T>>)
    ensures Place(orig, 0, edits).Some? <==> Placeable(orig, edits)
    ensures Place(orig, 0, edits).Some? ==>
      exists places :: && Leftmost(orig, 0, edits, places)
                       && Place(orig, 0, edits).value == Rewrite(orig, 0, edits, places)
  {
    if Place(orig, 0, edits).Some? {
      var places := Chosen(orig, 0, edits);
      ChosenPlaced(orig, 0, edits);
      PlacedMeans(orig, 0, edits, places);
      forall others | Placed(orig, 0, edits, others) ensures NoLater(places, others) {
        ChosenIsLeast(orig, 0, edits, others);
      }
      assert Leftmost(orig, 0, edits, places);
    }
    forall places | InOrderWithoutOverlap(orig, 0, edits, places) ensures Place(orig, 0, edits).Some? {
      PlacedMeans(orig, 0, edits, places);
      PlaceIsComplete(orig, 0, edits, places);
    }
  }

  // ---------- The code ----------

  /** `_find_block`: the first match at or after `start`. */
  method FindBlock<T(==)>(lines: seq<T>, block: seq<T>, start: nat) returns (r: Option<nat>)
    ensures block == [] ==> r == Some(start)
    ensures start <= |lines| || block != [] ==> r == FirstMatch(lines, block, start)
  {
    if block == [] {
      return Some(start);
    }
    var index := start;
    while index + |block| <= |lines|
      invariant start <= index
      invariant FirstMatch(lines, block, start) == FirstMatch(lines, block, index)
    {
      if lines[index..index + |block|] == block {
        return Some(index);
      }
      index := index + 1;
    }
    return None;
  }

  /** Searching the rewritten list from the cursor is searching the original from what is left of it. */
  lemma {:induction false} FirstMatchShifted<T>(lines: seq<T>, cursor: nat, orig: seq<T>, from: nat, block: seq<T>)
    requires cursor <= |lines| && from <= |orig| && lines[cursor..] == orig[from..]
    ensures var shifted := FirstMatch(lines, block, cursor);
            var found := FirstMatch(orig, block, from);
            (shifted.Some? <==> found.Some?) && (found.Some? ==> shifted.value - cursor == found.value - from)
    decreases |orig| - from
  {
    MatchesShifted(lines, cursor, orig, from, block);
    if from + |block| <= |orig| && !MatchesAt(orig, block, from) {
      assert lines[cursor..][1..] == lines[cursor + 1..] && orig[from..][1..] == orig[from + 1..];
      FirstMatchShifted(lines, cursor + 1, orig, from + 1, block);
    }
  }

  lemma MatchesShifted<T>(lines: seq<T>, cursor: nat, orig: seq<T>, from: nat, block: seq<T>)
    requires cursor <= |lines| && from <= |orig| && lines[cursor..] == orig[from..]
    ensures |lines| - cursor == |orig| - from
    ensures MatchesAt(lines, block, cursor) == MatchesAt(orig, block, from)
  {
    assert |lines[cursor..]| == |orig[from..]|;
    if from + |block| <= |orig| {
      assert lines[cursor..cursor + |block|] == lines[cursor..][..|block|];
      assert orig[from..from + |block|] == orig[from..][..|block|];
    }
  }

  /** `whole` is what is done followed by what placing the edits from the n-th on gives. */
  ghost predicate Extends<T>(whole: Option<seq<T>>, done: seq<T>, orig: seq<T>, from: nat, edits: seq<Edit<T>>, n: nat)
    requires from <= |orig| && n <= |edits|
  {
    var rest := Place(orig, from, edits[n..]);
    (whole.Some? <==> rest.Some?) && (whole.Some? ==> whole.value == done + rest.value)
  }

  lemma ExtendsNothing<T>(orig: seq<T>, edits: seq<Edit<T>>)
    ensures Extends(Place(orig, 0, edits), [], orig, 0, edits, 0)
  {
    assert edits[0..] == edits;
  }

  lemma ExtendsAll<T>(whole: Option<seq<T>>, done: seq<T>, orig: seq<T>, from: nat, edits: seq<Edit<T>>)
    requires from <= |orig| && Extends(whole, done, orig, from, edits, |edits|)
    ensures whole == Some(done + orig[from..])
  {
  }

  lemma ExtendsStuck<T>(whole: Option<seq<T>>, done: seq<T>, orig: seq<T>, from: nat, edits: seq<Edit<T>>, n: nat)
    requires from <= |orig| && n < |edits| && Extends(whole, done, orig, from, edits, n)
    requires FirstMatch(orig, edits[n].before, from).None?
    ensures whole.None?
  {
  }

  /** One more edit placed: its rewriting joins what is done. */
  lemma ExtendsStep<T>(whole: Option<seq<T>>, done: seq<T>, orig: seq<T>, from: nat, edits: seq<Edit<T>>, n: nat,
                       at: nat)
    requires from <= |orig| && n < |edits| && Extends(whole, done, orig, from, edits, n)
    requires FirstMatch(orig, edits[n].before, from) == Some(at)
    ensures Extends(whole, done + orig[from..at] + edits[n].after, orig, at + |edits[n].before|, edits, n + 1)
  {
    assert edits[n..][1..] == edits[n + 1..];
    var rest := Place(orig, at + |edits[n].before|, edits[n + 1..]);
    if rest.Some? {
      assert done + (orig[from..at] + edits[n].after + rest.value) ==
        done + orig[from..at] + edits[n].after + rest.value;
    }
  }

  /** Replacing the block found in the rewritten list is replacing it in the original part of it. */
  lemma Splice<T>(done: seq<T>, orig: seq<T>, from: nat, at: nat, size: nat, block: seq<T>)
    requires from <= at && at + size <= |orig|
    ensures var lines := done + orig[from..];
            var p := |done| + at - from;
            lines[..p] + block + lines[p + size..] == done + orig[from..at] + block + orig[at + size..]
  {
  }

  /** Searching the rewritten list from the cursor, told in positions of the original list. */
  method Locate<T(==)>(lines: seq<T>, block: seq<T>, cursor: nat, ghost done: seq<T>, ghost orig: seq<T>,
                       ghost from: nat)
    returns (position: Option<nat>)
    requires from <= |orig| && lines == done + orig[from..] && cursor == |done|
    ensures position.None? <==> FirstMatch(orig, block, from).None?
    ensures position.Some? ==> FirstMatch(orig, block, from) == Some(from + position.value - cursor)
  {
    assert lines[cursor..] == orig[from..];
    FirstMatchShifted(lines, cursor, orig, from, block);
    position := FindBlock(lines, block, cursor);
  }

  /** What the hunk loop of `_apply_hunks` keeps: the lines are what is done, up to the cursor,
      followed by the original lines from `from` on, and `whole` will be what is done followed by
      the rewriting of those. */
  ghost predicate Halfway<T>(orig: seq<T>, edits: seq<Edit<T>>, n: nat, lines: seq<T>, cursor: nat, done: seq<T>,
                             from: nat)
    requires n <= |edits|
  {
    && from <= |orig| && lines == done + orig[from..] && cursor == |done|
    && Extends(Place(orig, 0, edits), done, orig, from, edits, n)
  }

  /** One turn of the loop: find the block from the cursor and replace it in place. */
  method PlaceEdit<T(==)>(lines: seq<T>, cursor: nat, edits: seq<Edit<T>>, n: nat, ghost orig: seq<T>,
                          ghost done: seq<T>, ghost from: nat)
    returns (found: bool, lines': seq<T>, cursor': nat, ghost done': seq<T>, ghost from': nat)
    requires n < |edits| && Halfway(orig, edits, n, lines, cursor, done, from)
    ensures !found ==> Place(orig, 0, edits).None?
    ensures found ==> Halfway(orig, edits, n + 1, lines', cursor', done', from')
  {
    var edit := edits[n];
    var position := Locate(lines, edit.before, cursor, done, orig, from);
    if position.None? {
      ExtendsStuck(Place(orig, 0, edits), done, orig, from, edits, n);
      return false, lines, cursor, done, from;
    }
    ghost var at := from + position.value - cursor;
    Splice(done, orig, from, at, |edit.before|, edit.after);
    ExtendsStep(Place(orig, 0, edits), done, orig, from, edits, n, at);
    lines' := lines[..position.value] + edit.after + lines[position.value + |edit.before|..];
    return true, lines', position.value + |edit.after|, done + orig[from..at] + edit.after, at + |edit.before|;
  }

  /** The hunk loop of `_apply_hunks`, which rewrites `lines` in place behind a moving cursor. */
  method PlaceEdits<T(==)>(orig: seq<T>, edits: seq<Edit<T>>) returns (r: Option<seq<T>>)
    ensures r == Place(orig, 0, edits)
  {
    var lines, cursor := orig, 0;
    ghost var done: seq<T>, from: nat := [], 0;
    ExtendsNothing(orig, edits);
    for n := 0 to |edits|
      invariant Halfway(orig, edits, n, lines, cursor, done, from)
    {
      var found;
      found, lines, cursor, done, from := PlaceEdit(lines, cursor, edits, n, orig, done, from);
      if !found {
        return None;
      }
    }
    ExtendsAll(Place(orig, 0, edits), done, orig, from, edits);
    r := Some(lines);
  }
}
