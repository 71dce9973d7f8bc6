/** What the repeated merging of entries of one name (src/access_policy.py) leaves of their clients and
    addresses. */
module PolicyMerging {
  import opened Results
  import opened Uniques
  import opened AccessPolicy
  import opened PolicyNormalForm

  /** The entries of one name, in order */
  function OfName(c: Conventions, entries: seq<User>, key: string): seq<User> {
    if entries == [] then [] else
      var before, u := OfName(c, entries[..|entries| - 1], key), entries[|entries| - 1];
      if Owner(c)(u) == key then before + [u] else before
  }

  function Lists(field: User -> seq<string>, users: seq<User>): seq<seq<string>> {
    seq(|users|, i requires 0 <= i < |users| => field(users[i]))
  }

  /** The lists merged one after another */
  function Merged(c: Conventions, lists: seq<seq<string>>): seq<string> {
    if lists == [] then []
    else if |lists| == 1 then lists[0]
    else MergeLists(c, Merged(c, lists[..|lists| - 1]), lists[|lists| - 1])
  }

  function Chained(lists: seq<seq<string>>): seq<string> {
    if lists == [] then [] else Chained(lists[..|lists| - 1]) + lists[|lists| - 1]
  }

  // ---------- Merging lists ----------

  lemma MergedSnoc(c: Conventions, lists: seq<seq<string>>, more: seq<string>)
    ensures Merged(c, lists + [more]) == if lists == [] then more else MergeLists(c, Merged(c, lists), more)
  {
    assert (lists + [more])[..|lists|] == lists;
  }

  /** Whatever the merge keeps comes from one of the lists. */
  lemma {:induction false} MergedFrom(c: Conventions, lists: seq<seq<string>>, x: string)
    requires x in Merged(c, lists)
    ensures exists i :: 0 <= i < |lists| && x in lists[i]
  {
    if |lists| == 1 {
      assert x in lists[0];
    } else {
      var before, last := lists[..|lists| - 1], lists[|lists| - 1];
      MergedMembers(c, Merged(c, before), last, x);
      var j :| FirstAt(c.fold, Merged(c, before) + last, x, j);
      if j < |Merged(c, before)| {
        MergedFrom(c, before, x);
        var i :| 0 <= i < |before| && x in before[i];
        assert x in lists[i];
      } else {
        assert x in lists[|lists| - 1];
      }
    }
  }

  /** As long as there are no more than a hundred, merging one after another keeps what dropping the
      repetitions from all lists together keeps. */
  lemma {:induction false} MergedWhole(c: Conventions, lists: seq<seq<string>>)
    requires |lists| >= 2 && |Unique(c.fold, Chained(lists))| <= MAX_PER_USER
    ensures Merged(c, lists) == Unique(c.fold, Chained(lists))
  {
    var before, last := lists[..|lists| - 1], lists[|lists| - 1];
    if |lists| == 2 {
      assert Chained(before) == lists[0] by { assert before[..0] == []; assert [] + lists[0] == lists[0]; }
    } else {
      UniqueConcat(c.fold, Chained(before), last);
      MergedWhole(c, before);
    }
  }

  /** Everything that is ever taken up, in order: the first list, and then of each list what equals, when case
      is ignored, neither one of the hundred that are kept at the time nor an earlier value of the list. */
  function Entered(c: Conventions, lists: seq<seq<string>>): seq<string> {
    if lists == [] then []
    else if |lists| == 1 then Unique(c.fold, lists[0])
    else
      var before := Entered(c, lists[..|lists| - 1]);
      before + Additions(c.fold, Latest(MAX_PER_USER, before), lists[|lists| - 1])
  }

  /** What merging one after another keeps are the last hundred of what was ever taken up: a value survives
      exactly if fewer than a hundred were taken up after it. */
  lemma {:induction false} MergedEntered(c: Conventions, lists: seq<seq<string>>)
    requires |lists| >= 2 && |lists[0]| <= MAX_PER_USER
    ensures Merged(c, lists) == Latest(MAX_PER_USER, Entered(c, lists))
  {
    var before, last := lists[..|lists| - 1], lists[|lists| - 1];
    if |lists| == 2 {
      UniqueExact(c.fold, lists[0]);
      UniqueConcat(c.fold, lists[0], last);
      UniqueAdds(c.fold, Unique(c.fold, lists[0]), last);
    } else {
      MergedEntered(c, before);
      MergedDistinct(c, before);
      UniqueAdds(c.fold, Merged(c, before), last);
      LatestOfLatest(MAX_PER_USER, Entered(c, before), Additions(c.fold, Merged(c, before), last));
    }
  }

  lemma MergedDistinct(c: Conventions, lists: seq<seq<string>>)
    requires |lists| >= 2
    ensures Distinct(c.fold, Merged(c, lists))
  {
    MergedLists(c, Merged(c, lists[..|lists| - 1]), lists[|lists| - 1], _ => true);
  }

  // ---------- Merging users ----------

  lemma OfNameSnoc(c: Conventions, entries: seq<User>, u: User, key: string)
    ensures OfName(c, entries + [u], key) ==
            if Owner(c)(u) == key then OfName(c, entries, key) + [u] else OfName(c, entries, key)
  {
    assert (entries + [u])[..|entries|] == entries;
  }

  lemma {:induction false} OfNameEmptyIff(c: Conventions, entries: seq<User>, key: string)
    ensures OfName(c, entries, key) == [] <==> !Has(Owner(c), entries, key)
  {
    if entries != [] {
      var before, u := entries[..|entries| - 1], entries[|entries| - 1];
      OfNameEmptyIff(c, before, key);
      HasSnoc(Owner(c), before, u, key);
      assert before + [u] == entries;
    }
  }

  lemma ListsSnoc(field: User -> seq<string>, users: seq<User>, u: User)
    ensures Lists(field, users + [u]) == Lists(field, users) + [field(u)]
  {
  }

  function ClientsOf(): User -> seq<string> { (u: User) => u.clientIds }
  function IpsOf(): User -> seq<string> { (u: User) => u.ips }

  /** The user has what merging the entries of its name one after another leaves. */
  predicate Grouped(c: Conventions, entries: seq<User>, u: User) {
    var same := OfName(c, entries, Owner(c)(u));
    same != [] && u.clientIds == Merged(c, Lists(ClientsOf(), same)) && u.ips == Merged(c, Lists(IpsOf(), same))
  }

  lemma GroupedOther(c: Conventions, entries: seq<User>, u: User, user: User)
    requires Grouped(c, entries, user) && Owner(c)(u) != Owner(c)(user)
    ensures Grouped(c, entries + [u], user)
  {
    OfNameSnoc(c, entries, u, Owner(c)(user));
  }

  lemma GroupedMerge(c: Conventions, entries: seq<User>, u: User, user: User)
    requires Grouped(c, entries, user) && Owner(c)(u) == Owner(c)(user)
    ensures Grouped(c, entries + [u], Merge(c, user, u))
  {
    var same := OfName(c, entries, Owner(c)(user));
    OfNameSnoc(c, entries, u, Owner(c)(user));
    ListsSnoc(ClientsOf(), same, u);
    ListsSnoc(IpsOf(), same, u);
    MergedSnoc(c, Lists(ClientsOf(), same), u.clientIds);
    MergedSnoc(c, Lists(IpsOf(), same), u.ips);
  }

  lemma GroupedNew(c: Conventions, entries: seq<User>, u: User)
    requires !Has(Owner(c), entries, Owner(c)(u))
    ensures Grouped(c, entries + [u], u)
  {
    OfNameEmptyIff(c, entries, Owner(c)(u));
    OfNameSnoc(c, entries, u, Owner(c)(u));
  }

  lemma JoinedGrouped(c: Conventions, entries: seq<User>, users: seq<User>, u: User)
    requires Distinct(Owner(c), users) && forall i :: 0 <= i < |users| ==> Grouped(c, entries, users[i])
    requires forall k :: Has(Owner(c), users, k) <==> Has(Owner(c), entries, k)
    ensures forall i :: 0 <= i < |Joined(c, users, u)| ==> Grouped(c, entries + [u], Joined(c, users, u)[i])
  {
    var at := FirstWith(Owner(c), users, Owner(c)(u));
    forall i | 0 <= i < |Joined(c, users, u)|
      ensures Grouped(c, entries + [u], Joined(c, users, u)[i])
    {
      if i == |users| {
        GroupedNew(c, entries, u);
      } else if at == Some(i) {
        GroupedMerge(c, entries, u, users[i]);
      } else {
        ApartFrom(c, users, u, i);
        GroupedOther(c, entries, u, users[i]);
      }
    }
  }

  lemma {:induction false} GatheredGrouped(c: Conventions, entries: seq<User>)
    ensures forall i :: 0 <= i < |Gathered(c, entries)| ==> Grouped(c, entries, Gathered(c, entries)[i])
  {
    if entries != [] {
      var before, u := entries[..|entries| - 1], entries[|entries| - 1];
      GatheredGrouped(c, before);
      GatheredExact(c, before);
      JoinedGrouped(c, before, Gathered(c, before), u);
      assert before + [u] == entries;
    }
  }

  lemma {:induction false} OfNameFrom(c: Conventions, entries: seq<User>, key: string, i: nat)
    requires i < |OfName(c, entries, key)|
    ensures OfName(c, entries, key)[i] in entries && Owner(c)(OfName(c, entries, key)[i]) == key
  {
    var before := entries[..|entries| - 1];
    if i < |OfName(c, before, key)| { OfNameFrom(c, before, key, i); }
  }

  /** Every client of a user comes from an entry of its name. If there is one such entry, they are its
      clients; if there are more, the last hundred of those ever taken up; and if these have no more than a
      hundred clients between them, all but those that an earlier one equals when case is ignored. The other
      entries do not matter. (An entry with more than a hundred clients is refused when it is read.) */
  lemma GatheredClients(c: Conventions, entries: seq<User>, i: nat, id: string)
    requires i < |Gathered(c, entries)|
    ensures var u := Gathered(c, entries)[i];
            var lists := Lists(ClientsOf(), OfName(c, entries, Owner(c)(u)));
            && (id in u.clientIds ==> exists e <- entries :: Owner(c)(e) == Owner(c)(u) && id in e.clientIds)
            && (|lists| == 1 ==> u.clientIds == lists[0])
            && (|lists| > 1 && |lists[0]| <= MAX_PER_USER ==>
                  u.clientIds == Latest(MAX_PER_USER, Entered(c, lists)))
            && (|lists| > 1 && |Unique(c.fold, Chained(lists))| <= MAX_PER_USER ==>
                  u.clientIds == Unique(c.fold, Chained(lists)))
  {
    GatheredGrouped(c, entries);
    var u := Gathered(c, entries)[i];
    var same := OfName(c, entries, Owner(c)(u));
    var lists := Lists(ClientsOf(), same);
    if id in u.clientIds {
      MergedFrom(c, lists, id);
      var k :| 0 <= k < |lists| && id in lists[k];
      OfNameFrom(c, entries, Owner(c)(u), k);
      assert same[k] in entries && id in same[k].clientIds;
    }
    if |lists| > 1 && |lists[0]| <= MAX_PER_USER { MergedEntered(c, lists); }
    if |lists| > 1 && |Unique(c.fold, Chained(lists))| <= MAX_PER_USER { MergedWhole(c, lists); }
  }
}
