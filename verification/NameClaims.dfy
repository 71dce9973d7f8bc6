/** Handing out names under a collision check: items claim names one after another, and a name that is
    claimed again must be for the same identity. */
module NameClaims {
  import opened Results

  /** Which items can be named and which pass the filter, their names and identities */
  datatype Rules<!T(!new), !K(!new, ==), !I(!new, ==)> =
    Rules(nameable: T -> bool, allows: T -> bool, name: T -> K, identity: T -> I)

  /** The names used so far, each with its identity, and the items that have them */
  datatype Claimed<T, !K, I> = Claimed(used: map<K, I>, items: seq<T>)

  predicate Clashes<T(!new), K(!new, ==), I(!new, ==)>(r: Rules<T, K, I>, c: Claimed<T, K, I>, x: T) {
    r.name(x) in c.used && c.used[r.name(x)] != r.identity(x)
  }

  function With<T(!new), K(!new, ==), I(!new, ==)>(r: Rules<T, K, I>, c: Claimed<T, K, I>, x: T): Claimed<T, K, I> {
    Claimed(c.used[r.name(x) := r.identity(x)], c.items + [x])
  }

  /** One claim */
  function Claim<T(!new), K(!new, ==), I(!new, ==)>(r: Rules<T, K, I>, c: Claimed<T, K, I>,
                                                    x: T): Result<Claimed<T, K, I>> {
    if !r.nameable(x) then Err("no provider-safe function name")
    else if !r.allows(x) then Ok(c)
    else if Clashes(r, c, x) then Err("tool name collision")
    else Ok(With(r, c, x))
  }

  function ClaimAll<T(!new), K(!new, ==), I(!new, ==)>(r: Rules<T, K, I>, xs: seq<T>): Result<Claimed<T, K, I>> {
    if xs == [] then Ok(Claimed(map[], [])) else
      match ClaimAll(r, xs[..|xs| - 1])
      case Err(e) => Err(e)
      case Ok(c) => Claim(r, c, xs[|xs| - 1])
  }

  // ---------- When all claims succeed ----------

  /** The items that pass the filter */
  function Picked<T(!new), K(!new, ==), I(!new, ==)>(r: Rules<T, K, I>, xs: seq<T>): seq<T> {
    if xs == [] then [] else
      var before := Picked(r, xs[..|xs| - 1]);
      if r.allows(xs[|xs| - 1]) then before + [xs[|xs| - 1]] else before
  }

  predicate AllNameable<T(!new), K(!new, ==), I(!new, ==)>(r: Rules<T, K, I>, xs: seq<T>) {
    forall i :: 0 <= i < |xs| ==> r.nameable(xs[i])
  }

  /** One name, one identity */
  predicate NoClash<T(!new), K(!new, ==), I(!new, ==)>(r: Rules<T, K, I>, xs: seq<T>) {
    forall i, j :: 0 <= i < |xs| && 0 <= j < |xs| && r.name(xs[i]) == r.name(xs[j]) ==>
      r.identity(xs[i]) == r.identity(xs[j])
  }

  /** The map holds the identities of the items and nothing else. */
  ghost predicate Tracks<T(!new), K(!new), I(!new)>(r: Rules<T, K, I>, c: Claimed<T, K, I>) {
    && (forall i :: 0 <= i < |c.items| ==>
        r.name(c.items[i]) in c.used && c.used[r.name(c.items[i])] == r.identity(c.items[i]))
    && (forall k <- c.used :: exists i :: 0 <= i < |c.items| && r.name(c.items[i]) == k)
  }

  lemma WithTracks<T(!new), K(!new), I(!new)>(r: Rules<T, K, I>, c: Claimed<T, K, I>, x: T)
    requires Tracks(r, c) && !Clashes(r, c, x)
    ensures Tracks(r, With(r, c, x))
  {
    var more := With(r, c, x);
    forall k | k in more.used
      ensures exists i :: 0 <= i < |more.items| && r.name(more.items[i]) == k
    {
      if k == r.name(x) {
        assert r.name(more.items[|c.items|]) == k;
      } else {
        var i :| 0 <= i < |c.items| && r.name(c.items[i]) == k;
        assert r.name(more.items[i]) == k;
      }
    }
  }

  lemma ClashMeans<T(!new), K(!new), I(!new)>(r: Rules<T, K, I>, c: Claimed<T, K, I>, x: T)
    requires Tracks(r, c)
    ensures NoClash(r, c.items)
    ensures NoClash(r, c.items + [x]) <==> !Clashes(r, c, x)
  {
    if Clashes(r, c, x) {
      var i :| 0 <= i < |c.items| && r.name(c.items[i]) == r.name(x);
      assert r.name((c.items + [x])[i]) == r.name((c.items + [x])[|c.items|]);
    }
  }

  lemma ClashStays<T(!new), K(!new), I(!new)>(r: Rules<T, K, I>, xs: seq<T>, x: T)
    requires !NoClash(r, xs)
    ensures !NoClash(r, xs + [x])
  {
    var i, j :| 0 <= i < |xs| && 0 <= j < |xs| && r.name(xs[i]) == r.name(xs[j])
      && r.identity(xs[i]) != r.identity(xs[j]);
    assert (xs + [x])[i] == xs[i] && (xs + [x])[j] == xs[j];
  }

  lemma NameableSnoc<T(!new), K(!new), I(!new)>(r: Rules<T, K, I>, xs: seq<T>, x: T)
    ensures AllNameable(r, xs + [x]) <==> AllNameable(r, xs) && r.nameable(x)
  {
    if AllNameable(r, xs + [x]) {
      assert r.nameable((xs + [x])[|xs|]);
      forall i | 0 <= i < |xs| ensures r.nameable(xs[i]) { assert (xs + [x])[i] == xs[i]; }
    }
  }

  /** All claims succeed exactly if every item can be named and no two that pass the filter share a name but
      not an identity; the names then go to exactly those that pass, in order. */
  lemma {:induction false} ClaimAllExact<T(!new), K(!new), I(!new)>(r: Rules<T, K, I>, xs: seq<T>)
    ensures ClaimAll(r, xs).Ok? <==> AllNameable(r, xs) && NoClash(r, Picked(r, xs))
    ensures ClaimAll(r, xs).Ok? ==> ClaimAll(r, xs).value.items == Picked(r, xs) && Tracks(r, ClaimAll(r, xs).value)
  {
    if xs != [] {
      var before, x := xs[..|xs| - 1], xs[|xs| - 1];
      ClaimAllExact(r, before);
      if ClaimAll(r, before).Ok? {
        var c := ClaimAll(r, before).value;
        ClashMeans(r, c, x);
        if !Clashes(r, c, x) { WithTracks(r, c, x); }
      } else if !NoClash(r, Picked(r, before)) {
        ClashStays(r, Picked(r, before), x);
      }
      NameableSnoc(r, before, x);
      assert xs == before + [x];
    }
  }

  lemma {:induction false} PickedAll<T(!new), K(!new), I(!new)>(r: Rules<T, K, I>, xs: seq<T>)
    requires forall x :: r.allows(x)
    ensures Picked(r, xs) == xs
  {
    if xs != [] {
      PickedAll(r, xs[..|xs| - 1]);
      assert xs == xs[..|xs| - 1] + [xs[|xs| - 1]];
    }
  }

  /** What passes the filter was offered, so it can be named if everything can. */
  lemma {:induction false} PickedAreNameable<T(!new), K(!new), I(!new)>(r: Rules<T, K, I>, xs: seq<T>, i: nat)
    requires AllNameable(r, xs) && i < |Picked(r, xs)|
    ensures r.nameable(Picked(r, xs)[i])
  {
    var before := xs[..|xs| - 1];
    if i < |Picked(r, before)| { PickedAreNameable(r, before, i); }
  }

  /** Two items of one name can both have it exactly if they have one identity. */
  lemma PairClaimsIff<T(!new), K(!new), I(!new)>(r: Rules<T, K, I>, a: T, b: T)
    requires forall x :: r.allows(x)
    ensures r.name(a) == r.name(b) ==>
              (ClaimAll(r, [a, b]).Ok? <==> r.nameable(a) && r.nameable(b) && r.identity(a) == r.identity(b))
  {
    var xs := [a, b];
    ClaimAllExact(r, xs);
    PickedAll(r, xs);
    if r.name(a) == r.name(b) {
      assert NoClash(r, xs) <==> r.identity(a) == r.identity(b) by { assert r.name(xs[0]) == r.name(xs[1]); }
      assert AllNameable(r, xs) <==> r.nameable(a) && r.nameable(b) by { assert xs[0] == a && xs[1] == b; }
    }
  }

  /** Two items that can both be given one name */
  predicate Share<T(==, !new), K(!new, ==), I(!new, ==)>(r: Rules<T, K, I>, a: T, b: T) {
    a != b && r.nameable(a) && r.nameable(b) && r.name(a) == r.name(b) && r.identity(a) == r.identity(b)
  }

  /** These are the places of the values that pass the filter, from left to right. */
  ghost predicate Passes<T(!new), K(!new), I(!new)>(r: Rules<T, K, I>, xs: seq<T>, picked: seq<T>, at: seq<nat>) {
    && |at| == |picked|
    && (forall k :: 0 <= k < |at| ==> at[k] < |xs| && picked[k] == xs[at[k]] && r.allows(picked[k]))
    && (forall k, l :: 0 <= k < l < |at| ==> at[k] < at[l])
    && (forall i: nat :: i < |xs| && r.allows(xs[i]) ==> i in at)
  }

  /** The value comes next and passes the filter. */
  lemma PassesNext<T(!new), K(!new), I(!new)>(r: Rules<T, K, I>, xs: seq<T>, x: T, picked: seq<T>, at: seq<nat>)
    requires Passes(r, xs, picked, at) && r.allows(x)
    ensures Passes(r, xs + [x], picked + [x], at + [|xs|])
  {
    var more, at' := xs + [x], at + [|xs|];
    forall k | 0 <= k < |at'|
      ensures at'[k] < |more| && (picked + [x])[k] == more[at'[k]] && r.allows((picked + [x])[k])
    {
      if k < |at| { assert (picked + [x])[k] == picked[k] && at'[k] == at[k]; }
    }
    forall i: nat | i < |more| && r.allows(more[i]) ensures i in at' {
      if i < |xs| { assert more[i] == xs[i] && i in at; } else { assert at'[|at|] == i; }
    }
  }

  /** The value comes next and does not. */
  lemma PassesOver<T(!new), K(!new), I(!new)>(r: Rules<T, K, I>, xs: seq<T>, x: T, picked: seq<T>, at: seq<nat>)
    requires Passes(r, xs, picked, at) && !r.allows(x)
    ensures Passes(r, xs + [x], picked, at)
  {
    forall i: nat | i < |xs + [x]| && r.allows((xs + [x])[i]) ensures i in at {
      assert i < |xs| ==> (xs + [x])[i] == xs[i];
    }
  }

  /** What is picked are the values that pass the filter, every one where it stands and as often. */
  lemma {:induction false} PickedExact<T(!new), K(!new), I(!new)>(r: Rules<T, K, I>, xs: seq<T>)
    returns (at: seq<nat>)
    ensures Passes(r, xs, Picked(r, xs), at)
  {
    at := [];
    if xs != [] {
      var before, x := xs[..|xs| - 1], xs[|xs| - 1];
      assert xs == before + [x];
      at := PickedExact(r, before);
      if r.allows(x) {
        PassesNext(r, before, x, Picked(r, before), at);
        at := at + [|before|];
      } else {
        PassesOver(r, before, x, Picked(r, before), at);
      }
    }
  }

  // ---------- The loops ----------

  lemma {:induction false} ClaimAllFails<T(!new), K(!new), I(!new)>(r: Rules<T, K, I>, xs: seq<T>, more: seq<T>)
    requires ClaimAll(r, xs).Err?
    ensures ClaimAll(r, xs + more) == Err(ClaimAll(r, xs).error)
    decreases |more|
  {
    if more == [] {
      assert xs + more == xs;
    } else {
      ClaimAllFails(r, xs, more[..|more| - 1]);
      assert (xs + more)[..|xs + more| - 1] == xs + more[..|more| - 1];
    }
  }

  function Flat<T>(groups: seq<seq<T>>): seq<T> {
    if groups == [] then [] else groups[0] + Flat(groups[1..])
  }

  lemma {:induction false} FlatSnoc<T>(groups: seq<seq<T>>, group: seq<T>)
    ensures Flat(groups + [group]) == Flat(groups) + group
  {
    if groups == [] {
      assert [group][1..] == [];
    } else {
      FlatSnoc(groups[1..], group);
      assert (groups + [group])[1..] == groups[1..] + [group];
    }
  }

  /** The inner loop: the items of one group */
  method ClaimGroup<T(!new), K(!new, ==), I(!new, ==)>(r: Rules<T, K, I>, c: Claimed<T, K, I>, group: seq<T>,
                                                       ghost before: seq<T>)
    returns (done: Result<Claimed<T, K, I>>)
    requires ClaimAll(r, before) == Ok(c)
    ensures done == ClaimAll(r, before + group)
  {
    var now := c;
    assert before + group[..0] == before;
    for k := 0 to |group|
      invariant ClaimAll(r, before + group[..k]) == Ok(now)
    {
      ghost var next := before + group[..k + 1];
      assert next[..|next| - 1] == before + group[..k] && next[|next| - 1] == group[k];
      var claimed := Claim(r, now, group[k]);
      if claimed.Err? {
        ClaimAllFails(r, next, group[k + 1..]);
        assert next + group[k + 1..] == before + group;
        return claimed;
      }
      now := claimed.value;
    }
    assert group[..|group|] == group;
    done := Ok(now);
  }

  lemma FlatStep<T>(before: seq<T>, groups: seq<seq<T>>)
    requires groups != []
    ensures before + Flat(groups) == before + groups[0] + Flat(groups[1..])
  {
    assert before + (groups[0] + Flat(groups[1..])) == before + groups[0] + Flat(groups[1..]);
  }

  /** The outer loop: group after group */
  method ClaimGroups<T(!new), K(!new, ==), I(!new, ==)>(r: Rules<T, K, I>, groups: seq<seq<T>>)
    returns (done: Result<seq<T>>)
    ensures done.Ok? <==> AllNameable(r, Flat(groups)) && NoClash(r, Picked(r, Flat(groups)))
    ensures done.Ok? ==> done.value == Picked(r, Flat(groups))
  {
    ClaimAllExact(r, Flat(groups));
    var now := Claimed(map[], []);
    ghost var before: seq<T> := [];
    assert before + Flat(groups[0..]) == Flat(groups) by { assert groups[0..] == groups; }
    for n := 0 to |groups|
      invariant ClaimAll(r, before) == Ok(now)
      invariant before + Flat(groups[n..]) == Flat(groups)
    {
      FlatStep(before, groups[n..]);
      assert groups[n..][1..] == groups[n + 1..];
      var claimed := ClaimGroup(r, now, groups[n], before);
      before := before + groups[n];
      if claimed.Err? {
        ClaimAllFails(r, before, Flat(groups[n + 1..]));
        return Err(claimed.error);
      }
      now := claimed.value;
    }
    assert before == Flat(groups);
    done := Ok(now.items);
  }

  /** All items converted, or the error of the first that cannot be */
  method ConvertAll<A(!new), B(!new)>(convert: A -> Result<B>, items: seq<A>) returns (r: Result<seq<B>>)
    ensures r.Ok? <==> forall i :: 0 <= i < |items| ==> convert(items[i]).Ok?
    ensures r.Ok? ==> |r.value| == |items| && forall i :: 0 <= i < |items| ==> convert(items[i]) == Ok(r.value[i])
  {
    var converted: seq<B> := [];
    for i := 0 to |items|
      invariant |converted| == i && forall j :: 0 <= j < i ==> convert(items[j]) == Ok(converted[j])
    {
      var b := convert(items[i]);
      if b.Err? {
        return Err(b.error);
      }
      converted := converted + [b.value];
    }
    r := Ok(converted);
  }

  /** A list in which every key is of use and no key comes twice, or an error */
  method Separate<T(!new), K(!new, ==)>(key: T -> K, blank: K, xs: seq<T>) returns (r: Result<seq<T>>)
    ensures r.Ok? <==> (forall i :: 0 <= i < |xs| ==> key(xs[i]) != blank)
                       && (forall i, j :: 0 <= i < j < |xs| ==> key(xs[i]) != key(xs[j]))
    ensures r.Ok? ==> r.value == xs
  {
    var seen: set<K> := {};
    for i := 0 to |xs|
      invariant forall k <- seen :: exists j :: 0 <= j < i && key(xs[j]) == k
      invariant forall j :: 0 <= j < i ==> key(xs[j]) in seen && key(xs[j]) != blank
      invariant forall j, k :: 0 <= j < k < i ==> key(xs[j]) != key(xs[k])
    {
      var k := key(xs[i]);
      if k == blank {
        return Err("definition is missing a name");
      }
      if k in seen {
        return Err("duplicate definition");
      }
      seen := seen + {k};
    }
    r := Ok(xs);
  }
}
