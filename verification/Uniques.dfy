/** Lists without repetitions: what is kept when later values with a key seen before are dropped. */
module Uniques {
  import opened Results

  predicate Distinct<T(!new), K(==)>(key: T -> K, xs: seq<T>) {
    forall i, j :: 0 <= i < j < |xs| ==> key(xs[i]) != key(xs[j])
  }

  predicate AllDifferent<T(==)>(xs: seq<T>) {
    forall i, j :: 0 <= i < j < |xs| ==> xs[i] != xs[j]
  }

  predicate Has<T(!new), K(==)>(key: T -> K, xs: seq<T>, k: K) {
    exists i :: 0 <= i < |xs| && key(xs[i]) == k
  }

  /** The index of the first value with a key */
  function FirstWith<T(!new), K(==)>(key: T -> K, xs: seq<T>, k: K): (r: Option<nat>)
    ensures r.None? <==> !Has(key, xs, k)
    ensures r.Some? ==> r.value < |xs| && key(xs[r.value]) == k && forall j :: 0 <= j < r.value ==> key(xs[j]) != k
  {
    if xs == [] then None else
      var before := xs[..|xs| - 1];
      HasSnoc(key, before, xs[|xs| - 1], k);
      assert before + [xs[|xs| - 1]] == xs;
      match FirstWith(key, before, k)
      case Some(i) => Some(i)
      case None => if key(xs[|xs| - 1]) == k then Some(|xs| - 1) else None
  }

  /** The first value of every key, in order */
  function Unique<T(!new), K(==)>(key: T -> K, xs: seq<T>): seq<T> {
    if xs == [] then [] else
      var kept, x := Unique(key, xs[..|xs| - 1]), xs[|xs| - 1];
      if Has(key, kept, key(x)) then kept else kept + [x]
  }

  /** The last so many values */
  function Latest<T>(n: nat, xs: seq<T>): seq<T> {
    if |xs| <= n then xs else xs[|xs| - n..]
  }

  /** Keys stay, each with one value, and every value kept was there. */
  lemma {:induction false} UniqueExact<T(!new), K>(key: T -> K, xs: seq<T>)
    ensures Distinct(key, Unique(key, xs))
    ensures |Unique(key, xs)| <= |xs|
    ensures forall k :: Has(key, Unique(key, xs), k) <==> Has(key, xs, k)
  {
    if xs != [] {
      var before, x := xs[..|xs| - 1], xs[|xs| - 1];
      var kept := Unique(key, before);
      UniqueExact(key, before);
      forall k
        ensures Has(key, Unique(key, xs), k) <==> Has(key, xs, k)
      {
        HasSnoc(key, before, x, k);
        HasSnoc(key, kept, x, k);
        assert before + [x] == xs;
      }
    }
  }

  lemma HasSnoc<T(!new), K>(key: T -> K, xs: seq<T>, x: T, k: K)
    ensures Has(key, xs + [x], k) <==> Has(key, xs, k) || key(x) == k
  {
    if Has(key, xs, k) {
      var i :| 0 <= i < |xs| && key(xs[i]) == k;
      assert key((xs + [x])[i]) == k;
    }
    if key(x) == k {
      assert key((xs + [x])[|xs|]) == k;
    }
  }

  /** A value stands there, and none before it shares its key. */
  predicate FirstAt<T(==, !new), K(==)>(key: T -> K, xs: seq<T>, x: T, j: int) {
    0 <= j < |xs| && xs[j] == x && !Has(key, xs[..j], key(x))
  }

  /** What is kept are exactly the values that no earlier value shares its key with. */
  lemma {:induction false} UniqueMembers<T(!new), K>(key: T -> K, xs: seq<T>, x: T)
    ensures x in Unique(key, xs) <==> exists j :: FirstAt(key, xs, x, j)
  {
    if xs != [] {
      var before, y := xs[..|xs| - 1], xs[|xs| - 1];
      UniqueMembers(key, before, x);
      UniqueExact(key, before);
      forall j | 0 <= j < |before| ensures FirstAt(key, before, x, j) <==> FirstAt(key, xs, x, j) {
        assert before[..j] == xs[..j];
      }
      assert FirstAt(key, xs, x, |before|) <==> x == y && !Has(key, Unique(key, before), key(y));
    }
  }

  /** A value that is kept stands behind those kept of the values before it. */
  lemma {:induction false} UniquePosition<T(!new), K>(key: T -> K, xs: seq<T>, j: nat)
    requires j < |xs| && !Has(key, xs[..j], key(xs[j]))
    ensures |Unique(key, xs[..j])| < |Unique(key, xs)| && Unique(key, xs)[|Unique(key, xs[..j])|] == xs[j]
    decreases |xs|
  {
    var before := xs[..|xs| - 1];
    if j < |before| {
      assert before[..j] == xs[..j];
      UniquePosition(key, before, j);
    } else {
      assert before == xs[..j];
      UniqueExact(key, before);
      assert !Has(key, Unique(key, before), key(xs[j]));
    }
  }

  /** Which of the values kept are among the last: those that few others follow. */
  lemma LatestMembers<T(!new), K>(key: T -> K, xs: seq<T>, n: nat, x: T)
    ensures x in Latest(n, Unique(key, xs)) <==>
            exists j :: FirstAt(key, xs, x, j) && |Unique(key, xs)| - |Unique(key, xs[..j])| <= n
  {
    var kept := Unique(key, xs);
    if j :| FirstAt(key, xs, x, j) && |kept| - |Unique(key, xs[..j])| <= n {
      UniquePosition(key, xs, j);
      assert Latest(n, kept)[|Unique(key, xs[..j])| - (|kept| - |Latest(n, kept)|)] == x;
    }
    if x in Latest(n, kept) {
      var p :| 0 <= p < |Latest(n, kept)| && Latest(n, kept)[p] == x;
      var q := p + |kept| - |Latest(n, kept)|;
      assert kept[q] == x && x in kept;
      UniqueMembers(key, xs, x);
      var j :| FirstAt(key, xs, x, j);
      UniquePosition(key, xs, j);
      UniqueExact(key, xs);
      assert q == |Unique(key, xs[..j])|;
    }
  }

  /** Dropping repetitions early changes nothing in the end. */
  lemma {:induction false} UniqueConcat<T(!new), K>(key: T -> K, xs: seq<T>, ys: seq<T>)
    ensures Unique(key, Unique(key, xs) + ys) == Unique(key, xs + ys)
    ensures |Unique(key, xs)| <= |Unique(key, xs + ys)|
    decreases |ys|
  {
    var kept := Unique(key, xs);
    if ys == [] {
      UniqueExact(key, xs);
      UniqueFixed(key, kept);
      assert kept + ys == kept && xs + ys == xs;
    } else {
      var before := ys[..|ys| - 1];
      UniqueConcat(key, xs, before);
      assert (kept + ys)[..|kept + ys| - 1] == kept + before && (xs + ys)[..|xs + ys| - 1] == xs + before;
    }
  }

  /** The values whose key neither those kept nor an earlier one has */
  function Additions<T(!new), K(==)>(key: T -> K, kept: seq<T>, xs: seq<T>): seq<T> {
    if xs == [] then [] else
      var before, x := Additions(key, kept, xs[..|xs| - 1]), xs[|xs| - 1];
      if Has(key, kept, key(x)) || Has(key, before, key(x)) then before else before + [x]
  }

  lemma HasConcat<T(!new), K>(key: T -> K, xs: seq<T>, ys: seq<T>, k: K)
    ensures Has(key, xs + ys, k) <==> Has(key, xs, k) || Has(key, ys, k)
  {
    if Has(key, xs, k) {
      var i :| 0 <= i < |xs| && key(xs[i]) == k;
      assert key((xs + ys)[i]) == k;
    }
    if Has(key, ys, k) {
      var i :| 0 <= i < |ys| && key(ys[i]) == k;
      assert key((xs + ys)[|xs| + i]) == k;
    }
  }

  lemma {:induction false} UniqueAdds<T(!new), K>(key: T -> K, kept: seq<T>, xs: seq<T>)
    requires Distinct(key, kept)
    ensures Unique(key, kept + xs) == kept + Additions(key, kept, xs)
  {
    if xs == [] {
      UniqueFixed(key, kept);
      assert kept + xs == kept;
    } else {
      var before, x := xs[..|xs| - 1], xs[|xs| - 1];
      UniqueAdds(key, kept, before);
      HasConcat(key, kept, Additions(key, kept, before), key(x));
      assert (kept + xs)[..|kept + xs| - 1] == kept + before;
    }
  }

  lemma LatestOfLatest<T>(n: nat, xs: seq<T>, ys: seq<T>)
    ensures Latest(n, Latest(n, xs) + ys) == Latest(n, xs + ys)
  {
  }

  /** Of two values with one key the first is kept. */
  lemma PairUnique<T(!new), K>(key: T -> K, a: T, b: T)
    requires key(a) == key(b)
    ensures Unique(key, [a, b]) == [a]
  {
    assert [a, b][..1] == [a] && [a][..0] == [];
    assert Unique(key, [a]) == [a];
    assert key([a][0]) == key(b);
  }

  lemma {:induction false} UniqueKeeps<T(!new), K>(key: T -> K, xs: seq<T>, good: T -> bool)
    requires forall i :: 0 <= i < |xs| ==> good(xs[i])
    ensures forall i :: 0 <= i < |Unique(key, xs)| ==> good(Unique(key, xs)[i])
  {
    if xs != [] { UniqueKeeps(key, xs[..|xs| - 1], good); }
  }

  /** A list without repetitions is kept as it is, and only such a list. */
  lemma UniqueFixed<T(!new), K>(key: T -> K, xs: seq<T>)
    ensures Unique(key, xs) == xs <==> Distinct(key, xs)
  {
    UniqueExact(key, xs);
    if Distinct(key, xs) { UniqueOfDistinct(key, xs); }
  }

  lemma {:induction false} UniqueOfDistinct<T(!new), K>(key: T -> K, xs: seq<T>)
    requires Distinct(key, xs)
    ensures Unique(key, xs) == xs
  {
    if xs != [] { UniqueOfDistinct(key, xs[..|xs| - 1]); }
  }

  /** A loop that keeps the keys it has seen */
  method Dedupe<T(!new), K(!new, ==)>(key: T -> K, xs: seq<T>) returns (kept: seq<T>)
    ensures kept == Unique(key, xs)
  {
    kept := [];
    var seen: set<K> := {};
    for i := 0 to |xs|
      invariant kept == Unique(key, xs[..i])
      invariant forall k :: k in seen <==> Has(key, kept, k)
    {
      assert xs[..i + 1][..i] == xs[..i];
      var k := key(xs[i]);
      if k !in seen {
        ghost var before := kept;
        seen := seen + {k};
        kept := kept + [xs[i]];
        forall l ensures Has(key, kept, l) <==> Has(key, before, l) || k == l { HasSnoc(key, before, xs[i], l); }
      }
    }
    assert xs[..|xs|] == xs;
  }

  // ---------- Reading lists ----------

  /** What is read from every item; an item that cannot be read fails the list. */
  function ReadAll<A(!new), B>(read: A -> Result<B>, items: seq<A>): Result<seq<B>> {
    if items == [] then Ok([]) else
      match ReadAll(read, items[..|items| - 1])
      case Err(e) => Err(e)
      case Ok(bs) => match read(items[|items| - 1]) case Err(e) => Err(e) case Ok(b) => Ok(bs + [b])
  }

  /** The values read, without repetitions */
  function ReadUnique<A(!new), B(!new), K(==)>(read: A -> Result<B>, key: B -> K, items: seq<A>): Result<seq<B>> {
    match ReadAll(read, items) case Err(e) => Err(e) case Ok(bs) => Ok(Unique(key, bs))
  }

  lemma {:induction false} ReadAllKeeps<A(!new), B(!new)>(read: A -> Result<B>, items: seq<A>, good: B -> bool)
    requires ReadAll(read, items).Ok?
    requires forall a :: read(a).Ok? ==> good(read(a).value)
    ensures |ReadAll(read, items).value| == |items|
    ensures forall i :: 0 <= i < |items| ==> good(ReadAll(read, items).value[i])
  {
    if items != [] { ReadAllKeeps(read, items[..|items| - 1], good); }
  }

  /** What was written is read back. */
  lemma {:induction false} ReadWritten<A(!new), B(!new)>(read: A -> Result<B>, items: seq<A>, bs: seq<B>)
    requires |items| == |bs| && forall i :: 0 <= i < |bs| ==> read(items[i]) == Ok(bs[i])
    ensures ReadAll(read, items) == Ok(bs)
  {
    if bs != [] {
      ReadWritten(read, items[..|bs| - 1], bs[..|bs| - 1]);
      assert bs == bs[..|bs| - 1] + [bs[|bs| - 1]];
    }
  }

  lemma {:induction false} ReadAllFails<A(!new), B>(read: A -> Result<B>, items: seq<A>, n: nat)
    requires n <= |items| && ReadAll(read, items[..n]).Err?
    ensures ReadAll(read, items) == Err(ReadAll(read, items[..n]).error)
    decreases |items|
  {
    if n < |items| {
      assert items[..|items| - 1][..n] == items[..n];
      ReadAllFails(read, items[..|items| - 1], n);
    } else {
      assert items[..n] == items;
    }
  }

  /** One more item of a list that is read */
  lemma ReadNext<A(!new), B>(read: A -> Result<B>, items: seq<A>, i: nat, bs: seq<B>)
    requires i < |items| && ReadAll(read, items[..i]) == Ok(bs)
    ensures read(items[i]).Ok? ==> ReadAll(read, items[..i + 1]) == Ok(bs + [read(items[i]).value])
    ensures read(items[i]).Err? ==> ReadAll(read, items) == Err(read(items[i]).error)
  {
    assert items[..i + 1][..i] == items[..i];
    if read(items[i]).Err? { ReadAllFails(read, items, i + 1); }
  }

  /** A loop that reads, and skips what has a key it has seen */
  method ReadInto<A(!new), B(!new), K(!new, ==)>(read: A -> Result<B>, key: B -> K, items: seq<A>)
    returns (r: Result<seq<B>>)
    ensures r == ReadUnique(read, key, items)
  {
    var kept: seq<B> := [];
    ghost var all: seq<B> := [];
    var seen: set<K> := {};
    for i := 0 to |items|
      invariant ReadAll(read, items[..i]) == Ok(all)
      invariant kept == Unique(key, all)
      invariant forall k :: k in seen <==> Has(key, kept, k)
    {
      assert items[..i + 1][..i] == items[..i];
      var b := read(items[i]);
      if b.Err? {
        ReadAllFails(read, items, i + 1);
        return Err(b.error);
      }
      assert (all + [b.value])[..|all|] == all;
      all := all + [b.value];
      var k := key(b.value);
      if k !in seen {
        ghost var before := kept;
        seen := seen + {k};
        kept := kept + [b.value];
        forall l ensures Has(key, kept, l) <==> Has(key, before, l) || k == l { HasSnoc(key, before, b.value, l); }
      }
    }
    assert items[..|items|] == items;
    r := Ok(kept);
  }
}
