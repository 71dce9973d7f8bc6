/** Normalisation of the access policy: what `validate_access_policy` returns is in normal form, and the
    policies in normal form are exactly those it returns unchanged. */
module PolicyNormalForm {
  import opened Results
  import opened Text
  import opened Uniques
  import opened AccessPolicy

  // ---------- What is read is in order ----------

  lemma PlainIsStripped(c: Conventions, v: Json)
    ensures Stripped(Plain(c, v))
  {
  }

  lemma {:induction false} EntriesGood(c: Conventions, v: Json, maximum: nat)
    requires ReadEntries(c, v, maximum).Ok?
    ensures AllEntries(ReadEntries(c, v, maximum).value)
    ensures Distinct(c.fold, ReadEntries(c, v, maximum).value) && |ReadEntries(c, v, maximum).value| <= maximum
  {
    ReadAllKeeps(ReadEntry, v.items, IsEntry);
    var read := ReadAll(ReadEntry, v.items).value;
    UniqueKeeps(c.fold, read, IsEntry);
    UniqueExact(c.fold, read);
  }

  lemma {:induction false} ClientIdsGood(c: Conventions, fields: map<Key, Json>)
    requires ReadClientIds(c, fields).Ok?
    ensures AllIds(ReadClientIds(c, fields).value)
    ensures Distinct(Self, ReadClientIds(c, fields).value) && |ReadClientIds(c, fields).value| <= MAX_PER_USER
  {
    if ClientIds in fields {
      ReadAllKeeps(ClientReader(c), fields[ClientIds].items, IsClientId);
      var read := ReadAll(ClientReader(c), fields[ClientIds].items).value;
      UniqueKeeps(Self, read, IsClientId);
      UniqueExact(Self, read);
    }
  }

  predicate NormalUser(c: Conventions, u: User) { Storable(u) && Distinct(c.fold, u.ips) }

  predicate AllNormal(c: Conventions, users: seq<User>) { forall i :: 0 <= i < |users| ==> NormalUser(c, users[i]) }

  lemma UserGood(c: Conventions, v: Json)
    requires ReadUser(c, v).Ok?
    ensures NormalUser(c, ReadUser(c, v).value)
  {
    ClientIdsGood(c, v.fields);
    EntriesGood(c, Get(v.fields, Ips, List([])), MAX_PER_USER);
    PlainIsStripped(c, Get(v.fields, FirstSeenAt, Null));
    PlainIsStripped(c, Get(v.fields, LastSeenAt, Null));
  }

  lemma EntriesOfUsers(c: Conventions, items: seq<Json>)
    requires ReadAll(UserReader(c), items).Ok?
    ensures |ReadAll(UserReader(c), items).value| == |items|
    ensures AllNormal(c, ReadAll(UserReader(c), items).value)
  {
    forall v | UserReader(c)(v).Ok?
      ensures NormalUser(c, UserReader(c)(v).value)
    {
      UserGood(c, v);
    }
    ReadAllKeeps(UserReader(c), items, (u: User) => NormalUser(c, u));
  }

  // ---------- Merging keeps order ----------

  /** The last hundred of a merge are still without repetitions, even when case is ignored. */
  lemma MergedLists(c: Conventions, left: seq<string>, right: seq<string>, good: string -> bool)
    requires (forall i :: 0 <= i < |left| ==> good(left[i])) && (forall i :: 0 <= i < |right| ==> good(right[i]))
    ensures var m := MergeLists(c, left, right);
            && Distinct(c.fold, m) && |m| <= MAX_PER_USER && forall i :: 0 <= i < |m| ==> good(m[i])
  {
    UniqueKeeps(c.fold, left + right, good);
    UniqueExact(c.fold, left + right);
  }

  /** Exactly what a merge keeps: a value of either list that equals no earlier one when case is ignored,
      client identifiers included, and that fewer than a hundred others follow. */
  lemma MergedMembers(c: Conventions, left: seq<string>, right: seq<string>, x: string)
    ensures x in MergeLists(c, left, right) <==>
            exists j :: && FirstAt(c.fold, left + right, x, j)
                        && |Unique(c.fold, left + right)| - |Unique(c.fold, (left + right)[..j])| <= MAX_PER_USER
  {
    LatestMembers(c.fold, left + right, MAX_PER_USER, x);
  }

  lemma MergeGood(c: Conventions, a: User, b: User)
    requires NormalUser(c, a) && NormalUser(c, b)
    ensures NormalUser(c, Merge(c, a, b))
  {
    MergedLists(c, a.clientIds, b.clientIds, IsClientId);
    MergedLists(c, a.ips, b.ips, IsEntry);
  }

  lemma JoinedGood(c: Conventions, users: seq<User>, u: User)
    requires AllNormal(c, users) && Distinct(Owner(c), users) && NormalUser(c, u)
    ensures AllNormal(c, Joined(c, users, u)) && Distinct(Owner(c), Joined(c, users, u))
    ensures |users| <= |Joined(c, users, u)| <= |users| + 1
  {
    var at := FirstWith(Owner(c), users, Owner(c)(u));
    if at.Some? { MergeGood(c, users[at.value], u); }
  }

  lemma {:induction false} GatheredGood(c: Conventions, entries: seq<User>)
    requires AllNormal(c, entries)
    ensures AllNormal(c, Gathered(c, entries)) && Distinct(Owner(c), Gathered(c, entries))
    ensures |Gathered(c, entries)| <= |entries|
  {
    if entries != [] {
      GatheredGood(c, entries[..|entries| - 1]);
      JoinedGood(c, Gathered(c, entries[..|entries| - 1]), entries[|entries| - 1]);
    }
  }

  /** Everything that is accepted comes out in normal form. */
  lemma ValidatedIsNormal(c: Conventions, payload: Json)
    requires Validate(c, payload).Ok?
    ensures Normal(c, Validate(c, payload).value)
  {
    var raw := Get(payload.fields, Users, List([]));
    EntriesOfUsers(c, raw.items);
    GatheredGood(c, ReadAll(UserReader(c), raw.items).value);
    EntriesGood(c, Get(payload.fields, FilteredTools, TextList(DEFAULT_TOOLS)), MAX_FILTERED_TOOLS);
  }

  // ---------- Reading what was written ----------

  lemma ClientIdIsStripped(s: string)
    requires IsClientId(s)
    ensures Stripped(s)
  {
    assert IsIdChar(s[|s| - 1]);
  }

  lemma EntriesReadBack(c: Conventions, ts: seq<string>, maximum: nat)
    requires AllEntries(ts) && |ts| <= maximum
    ensures ReadEntries(c, TextList(ts), maximum) == Ok(Unique(c.fold, ts))
  {
    ReadWritten(ReadEntry, TextList(ts).items, ts);
  }

  lemma ClientIdsReadBack(c: Conventions, ids: seq<string>)
    requires AllIds(ids)
    ensures ReadAll(ClientReader(c), TextList(ids).items) == Ok(ids)
    ensures Distinct(Self, ids) ==> ReadUnique(ClientReader(c), Self, TextList(ids).items) == Ok(ids)
  {
    UniqueFixed(Self, ids);
    forall i | 0 <= i < |ids|
      ensures ClientReader(c)(TextList(ids).items[i]) == Ok(ids[i]) { ClientIdIsStripped(ids[i]); }
    ReadWritten(ClientReader(c), TextList(ids).items, ids);
  }

  /** A user as it is read back */
  function Settled(c: Conventions, u: User): User { u.(ips := Unique(c.fold, u.ips)) }

  /** The fields hold this user. */
  predicate Describes(f: map<Key, Json>, u: User) {
    && Get(f, Username, Null) == Text(u.username) && Get(f, Developer, Null) == (if u.developer then True else False)
    && ClientIds in f && f[ClientIds] == TextList(u.clientIds) && Get(f, Ips, List([])) == TextList(u.ips)
    && Get(f, FirstSeenAt, Null) == Text(u.first) && Get(f, LastSeenAt, Null) == Text(u.last)
  }

  lemma FieldsDescribe(u: User)
    ensures Describes(UserFields(u), u)
  {
  }

  lemma PlainOf(c: Conventions, s: string)
    requires Stripped(s)
    ensures Plain(c, Text(s)) == s
  {
  }

  lemma ClientIdsFieldBack(c: Conventions, f: map<Key, Json>, ids: seq<string>)
    requires AllIds(ids) && Distinct(Self, ids) && |ids| <= MAX_PER_USER
    requires ClientIds in f && f[ClientIds] == TextList(ids)
    ensures ReadClientIds(c, f) == Ok(ids)
  {
    ClientIdsReadBack(c, ids);
  }

  /** The fields that can fail have been read. */
  lemma Assembled(c: Conventions, f: map<Key, Json>, username: string, ids: seq<string>, ips: seq<string>)
    requires ReadUsername(c, Get(f, Username, Null)) == Ok(username)
    requires ReadClientIds(c, f) == Ok(ids)
    requires ReadEntries(c, Get(f, Ips, List([])), MAX_PER_USER) == Ok(ips)
    ensures ReadUser(c, Object(f)) == Ok(User(ids, username, Get(f, Developer, Null) == True, ips,
                                              Plain(c, Get(f, FirstSeenAt, Null)), Plain(c, Get(f, LastSeenAt, Null))))
  {
  }

  lemma FieldsReadBack(c: Conventions, u: User, f: map<Key, Json>)
    requires Storable(u) && Describes(f, u)
    ensures ReadUser(c, Object(f)) == Ok(Settled(c, u))
  {
    PlainOf(c, u.username);
    ClientIdsFieldBack(c, f, u.clientIds);
    EntriesReadBack(c, u.ips, MAX_PER_USER);
    Assembled(c, f, u.username, u.clientIds, Unique(c.fold, u.ips));
    PlainOf(c, u.first);
    PlainOf(c, u.last);
  }

  lemma UserReadBack(c: Conventions, u: User)
    requires Storable(u)
    ensures ReadUser(c, UserJson(u)) == Ok(Settled(c, u))
  {
    FieldsDescribe(u);
    FieldsReadBack(c, u, UserFields(u));
  }

  function SettledUsers(c: Conventions, users: seq<User>): seq<User> {
    seq(|users|, i requires 0 <= i < |users| => Settled(c, users[i]))
  }

  /** A policy as it is read back */
  function SettledPolicy(c: Conventions, p: Policy): Policy {
    Policy(SettledUsers(c, p.users), Unique(c.fold, p.filtered))
  }

  lemma UsersReadBack(c: Conventions, users: seq<User>)
    requires AllStorable(users)
    ensures ReadAll(UserReader(c), UserList(users).items) == Ok(SettledUsers(c, users))
  {
    var items := UserList(users).items;
    forall i | 0 <= i < |users|
      ensures UserReader(c)(items[i]) == Ok(SettledUsers(c, users)[i]) { UserReadBack(c, users[i]); }
    ReadWritten(UserReader(c), items, SettledUsers(c, users));
  }

  lemma {:induction false} GatheredFixed(c: Conventions, users: seq<User>)
    requires Distinct(Owner(c), users)
    ensures Gathered(c, users) == users
  {
    if users != [] {
      GatheredFixed(c, users[..|users| - 1]);
      assert users == users[..|users| - 1] + [users[|users| - 1]];
    }
  }

  /** A sound policy is always accepted when read back, and loses nothing but addresses and tools that
      differ from an earlier one in case only. */
  lemma ReadBack(c: Conventions, p: Policy)
    requires Sound(c, p)
    ensures Validate(c, PolicyJson(p)) == Ok(SettledPolicy(c, p))
  {
    PartsReadBack(c, p);
    PartsOf(c, p);
  }

  lemma PartsOf(c: Conventions, p: Policy)
    ensures Validate(c, PolicyJson(p)) == ValidateParts(c, UserList(p.users), TextList(p.filtered))
  {
  }

  lemma SettledApart(c: Conventions, users: seq<User>)
    requires Distinct(Owner(c), users) && Apart(users)
    ensures Distinct(Owner(c), SettledUsers(c, users)) && Apart(SettledUsers(c, users))
  {
  }

  lemma PartsReadBack(c: Conventions, p: Policy)
    requires Sound(c, p)
    ensures ValidateParts(c, UserList(p.users), TextList(p.filtered)) == Ok(SettledPolicy(c, p))
  {
    SettledApart(c, p.users);
    GatheredFixed(c, SettledUsers(c, p.users));
    EntriesLoaded(c, p);
  }

  /** What becomes of users that can be stored one by one, whether or not their names differ */
  lemma EntriesLoaded(c: Conventions, p: Policy)
    requires |p.users| <= MAX_USERS && AllStorable(p.users) && AllEntries(p.filtered)
            && |p.filtered| <= MAX_FILTERED_TOOLS
    requires Apart(Gathered(c, SettledUsers(c, p.users)))
    ensures ValidateParts(c, UserList(p.users), TextList(p.filtered)) ==
            Ok(Policy(Gathered(c, SettledUsers(c, p.users)), Unique(c.fold, p.filtered)))
  {
    UsersReadBack(c, p.users);
    EntriesReadBack(c, p.filtered, MAX_FILTERED_TOOLS);
  }

  lemma SettledFixed(c: Conventions, p: Policy)
    ensures SettledPolicy(c, p) == p <==> IpsDistinct(c, p.users) && Distinct(c.fold, p.filtered)
  {
    UniqueFixed(c.fold, p.filtered);
    forall i | 0 <= i < |p.users|
      ensures Settled(c, p.users[i]) == p.users[i] <==> Distinct(c.fold, p.users[i].ips)
    {
      UniqueFixed(c.fold, p.users[i].ips);
    }
    if SettledPolicy(c, p) == p {
      forall i | 0 <= i < |p.users| ensures Settled(c, p.users[i]) == p.users[i] {
        assert SettledUsers(c, p.users)[i] == p.users[i];
      }
    }
  }

  /** The policies that normalisation returns unchanged are exactly those in normal form. */
  lemma FixedIffNormal(c: Conventions, p: Policy)
    ensures Validate(c, PolicyJson(p)) == Ok(p) <==> Normal(c, p)
  {
    if Validate(c, PolicyJson(p)) == Ok(p) { ValidatedIsNormal(c, PolicyJson(p)); }
    if Normal(c, p) {
      ReadBack(c, p);
      SettledFixed(c, p);
    }
  }

  /** Normalisation is idempotent. */
  lemma ValidateIdempotent(c: Conventions, payload: Json)
    requires Validate(c, payload).Ok?
    ensures Validate(c, PolicyJson(Validate(c, payload).value)) == Validate(c, payload)
  {
    ValidatedIsNormal(c, payload);
    FixedIffNormal(c, Validate(c, payload).value);
  }

  // ---------- What merging makes of the entries ----------

  /** Some entry with this key is a developer. */
  predicate DeveloperAmong(c: Conventions, entries: seq<User>, key: string) {
    exists j :: 0 <= j < |entries| && Owner(c)(entries[j]) == key && entries[j].developer
  }

  lemma DeveloperSnoc(c: Conventions, entries: seq<User>, u: User, key: string)
    ensures DeveloperAmong(c, entries + [u], key) <==>
            DeveloperAmong(c, entries, key) || (Owner(c)(u) == key && u.developer)
  {
    var all := entries + [u];
    if DeveloperAmong(c, entries, key) {
      var j :| 0 <= j < |entries| && Owner(c)(entries[j]) == key && entries[j].developer;
      assert Owner(c)(all[j]) == key && all[j].developer;
    }
    if Owner(c)(u) == key && u.developer {
      assert Owner(c)(all[|entries|]) == key && all[|entries|].developer;
    }
  }

  /** Every user name of the entries is kept once, and its user is a developer exactly if one of the
      entries of that name is. */
  lemma {:induction false} GatheredExact(c: Conventions, entries: seq<User>)
    ensures forall k :: Has(Owner(c), Gathered(c, entries), k) <==> Has(Owner(c), entries, k)
    ensures forall i :: 0 <= i < |Gathered(c, entries)| ==>
              (Gathered(c, entries)[i].developer <==> DeveloperAmong(c, entries, Owner(c)(Gathered(c, entries)[i])))
    ensures Distinct(Owner(c), Gathered(c, entries))
  {
    if entries != [] {
      var before, u := entries[..|entries| - 1], entries[|entries| - 1];
      GatheredExact(c, before);
      assert before + [u] == entries;
      JoinedKeys(c, Gathered(c, before), u);
      forall k ensures Has(Owner(c), Gathered(c, entries), k) <==> Has(Owner(c), entries, k) {
        HasSnoc(Owner(c), before, u, k);
      }
      forall i | 0 <= i < |Gathered(c, entries)|
        ensures Gathered(c, entries)[i].developer <==> DeveloperAmong(c, entries, Owner(c)(Gathered(c, entries)[i]))
      {
        JoinedDeveloper(c, before, u, i);
      }
    }
  }

  lemma JoinedKeys(c: Conventions, users: seq<User>, u: User)
    requires Distinct(Owner(c), users)
    ensures Distinct(Owner(c), Joined(c, users, u))
    ensures forall k :: Has(Owner(c), Joined(c, users, u), k) <==> Has(Owner(c), users, k) || Owner(c)(u) == k
  {
    forall k
      ensures Has(Owner(c), Joined(c, users, u), k) <==> Has(Owner(c), users, k) || Owner(c)(u) == k
    {
      HasSnoc(Owner(c), users, u, k);
      var at := FirstWith(Owner(c), users, Owner(c)(u));
      if at.Some? {
        var joined := Joined(c, users, u);
        assert |joined| == |users| && forall i :: 0 <= i < |users| ==> Owner(c)(joined[i]) == Owner(c)(users[i]);
      }
    }
  }

  lemma JoinedDeveloper(c: Conventions, before: seq<User>, u: User, i: nat)
    requires Distinct(Owner(c), Gathered(c, before))
    requires forall k :: Has(Owner(c), Gathered(c, before), k) <==> Has(Owner(c), before, k)
    requires forall j :: 0 <= j < |Gathered(c, before)| ==>
               (Gathered(c, before)[j].developer <==> DeveloperAmong(c, before, Owner(c)(Gathered(c, before)[j])))
    requires i < |Joined(c, Gathered(c, before), u)|
    ensures var user := Joined(c, Gathered(c, before), u)[i];
            user.developer <==> DeveloperAmong(c, before + [u], Owner(c)(user))
  {
    var users := Gathered(c, before);
    var user := Joined(c, users, u)[i];
    DeveloperSnoc(c, before, u, Owner(c)(user));
    if !Has(Owner(c), before, Owner(c)(u)) { assert !DeveloperAmong(c, before, Owner(c)(u)); }
  }

  /** The date is that of one of the entries of this name, and none of them has one that comes before it;
      it is missing only if they have none. */
  ghost predicate Foremost(c: Conventions, date: User -> string, before: (string, string) -> bool, entries: seq<User>,
                           key: string, d: string) {
    && (forall j :: 0 <= j < |entries| && Owner(c)(entries[j]) == key && date(entries[j]) != [] ==>
        d != [] && before(d, date(entries[j])))
    && (d != [] ==> exists j :: 0 <= j < |entries| && Owner(c)(entries[j]) == key && date(entries[j]) == d)
  }

  ghost predicate IsOrder(before: (string, string) -> bool) {
    && (forall a, b :: before(a, b) || before(b, a))
    && (forall a, b, e :: before(a, b) && before(b, e) ==> before(a, e))
  }

  lemma CodePointOrder()
    ensures IsOrder(Below) && IsOrder(Above)
  {
    forall a, b ensures Below(a, b) || Below(b, a) { BelowTotal(a, b); }
    forall a, b, e | Below(a, b) && Below(b, e) ensures Below(a, e) { BelowTransitive(a, b, e); }
  }

  lemma ForemostOther(c: Conventions, date: User -> string, before: (string, string) -> bool, entries: seq<User>,
                      u: User, key: string, d: string)
    requires Foremost(c, date, before, entries, key, d) && Owner(c)(u) != key
    ensures Foremost(c, date, before, entries + [u], key, d)
  {
    if d != [] {
      var j :| 0 <= j < |entries| && Owner(c)(entries[j]) == key && date(entries[j]) == d;
      assert (entries + [u])[j] == entries[j];
    }
  }

  lemma ForemostSame(c: Conventions, date: User -> string, before: (string, string) -> bool, entries: seq<User>,
                     u: User, d: string)
    requires IsOrder(before) && Foremost(c, date, before, entries, Owner(c)(u), d)
    ensures Foremost(c, date, before, entries + [u], Owner(c)(u), Preferred(before, d, date(u)))
  {
    var all, p := entries + [u], Preferred(before, d, date(u));
    forall j | 0 <= j < |all| && Owner(c)(all[j]) == Owner(c)(u) && date(all[j]) != []
      ensures p != [] && before(p, date(all[j]))
    {
      assert before(date(u), date(u));
      if j < |entries| { assert before(d, date(all[j])); }
    }
    if d != [] {
      var j :| 0 <= j < |entries| && Owner(c)(entries[j]) == Owner(c)(u) && date(entries[j]) == d;
      assert all[j] == entries[j];
    }
    assert all[|entries|] == u;
  }

  function First(): User -> string { (u: User) => u.first }
  function Last(): User -> string { (u: User) => u.last }

  /** Every user was first seen at the earliest and last seen at the latest date of the entries of its
      name, and is called as the first of them. */
  ghost predicate Summed(c: Conventions, entries: seq<User>, u: User) {
    && Foremost(c, First(), Below, entries, Owner(c)(u), u.first)
    && Foremost(c, Last(), Above, entries, Owner(c)(u), u.last)
    && var at := FirstWith(Owner(c), entries, Owner(c)(u)); at.Some? && entries[at.value].username == u.username
  }

  lemma FirstWithSnoc(c: Conventions, entries: seq<User>, u: User, key: string)
    ensures FirstWith(Owner(c), entries + [u], key) ==
            match FirstWith(Owner(c), entries, key)
            case Some(i) => Some(i)
            case None => if Owner(c)(u) == key then Some(|entries|) else None
  {
    assert (entries + [u])[..|entries|] == entries;
  }

  lemma SummedOther(c: Conventions, entries: seq<User>, u: User, user: User)
    requires Summed(c, entries, user) && Owner(c)(u) != Owner(c)(user)
    ensures Summed(c, entries + [u], user)
  {
    ForemostOther(c, First(), Below, entries, u, Owner(c)(user), user.first);
    ForemostOther(c, Last(), Above, entries, u, Owner(c)(user), user.last);
    FirstWithSnoc(c, entries, u, Owner(c)(user));
  }

  lemma SummedMerge(c: Conventions, entries: seq<User>, u: User, user: User)
    requires Summed(c, entries, user) && Owner(c)(u) == Owner(c)(user)
    ensures Summed(c, entries + [u], Merge(c, user, u))
  {
    CodePointOrder();
    ForemostSame(c, First(), Below, entries, u, user.first);
    ForemostSame(c, Last(), Above, entries, u, user.last);
    FirstWithSnoc(c, entries, u, Owner(c)(user));
  }

  lemma SummedNew(c: Conventions, entries: seq<User>, u: User)
    requires !Has(Owner(c), entries, Owner(c)(u))
    ensures Summed(c, entries + [u], u)
  {
    CodePointOrder();
    ForemostSame(c, First(), Below, entries, u, []);
    ForemostSame(c, Last(), Above, entries, u, []);
    FirstWithSnoc(c, entries, u, Owner(c)(u));
  }

  lemma {:induction false} GatheredSummed(c: Conventions, entries: seq<User>)
    ensures forall i :: 0 <= i < |Gathered(c, entries)| ==> Summed(c, entries, Gathered(c, entries)[i])
  {
    if entries != [] {
      var before, u := entries[..|entries| - 1], entries[|entries| - 1];
      GatheredSummed(c, before);
      GatheredExact(c, before);
      JoinedSummed(c, before, Gathered(c, before), u);
      assert before + [u] == entries;
    }
  }

  lemma JoinedSummed(c: Conventions, entries: seq<User>, users: seq<User>, u: User)
    requires Distinct(Owner(c), users) && forall i :: 0 <= i < |users| ==> Summed(c, entries, users[i])
    requires forall k :: Has(Owner(c), users, k) <==> Has(Owner(c), entries, k)
    ensures forall i :: 0 <= i < |Joined(c, users, u)| ==> Summed(c, entries + [u], Joined(c, users, u)[i])
  {
    var at := FirstWith(Owner(c), users, Owner(c)(u));
    forall i | 0 <= i < |Joined(c, users, u)|
      ensures Summed(c, entries + [u], Joined(c, users, u)[i])
    {
      if i == |users| {
        SummedNew(c, entries, u);
      } else if at == Some(i) {
        SummedMerge(c, entries, u, users[i]);
      } else {
        ApartFrom(c, users, u, i);
        SummedOther(c, entries, u, users[i]);
      }
    }
  }

  lemma ApartFrom(c: Conventions, users: seq<User>, u: User, i: nat)
    requires Distinct(Owner(c), users) && i < |users| && FirstWith(Owner(c), users, Owner(c)(u)) != Some(i)
    ensures Owner(c)(u) != Owner(c)(users[i])
  {
  }

  /** Two entries of one name, as they are loaded */
  lemma TwoEntriesLoaded(c: Conventions, p: Policy)
    requires |p.users| == 2 && AllStorable(p.users) && Owner(c)(p.users[0]) == Owner(c)(p.users[1]) && p.filtered == []
    ensures var loaded := Validate(c, PolicyJson(p));
            && loaded.Ok? && |loaded.value.users| == 1
            && loaded.value.users[0] == Merge(c, Settled(c, p.users[0]), Settled(c, p.users[1]))
  {
    var entries := SettledUsers(c, p.users);
    TwoGathered(c, entries);
    OneIsApart(Gathered(c, entries));
    EntriesLoaded(c, p);
    PartsOf(c, p);
  }

  lemma OneIsApart(users: seq<User>)
    requires |users| == 1
    ensures Apart(users)
  {
  }

  lemma TwoGathered(c: Conventions, users: seq<User>)
    requires |users| == 2 && Owner(c)(users[0]) == Owner(c)(users[1])
    ensures Gathered(c, users) == [Merge(c, users[0], users[1])]
  {
    var first := users[..1];
    assert first[..0] == [] && first[0] == users[0];
    assert Gathered(c, first) == [users[0]];
    assert Owner(c)(Gathered(c, first)[0]) == Owner(c)(users[1]);
  }

  /** Such a merge: of two clients of one user that differ in case only, the second is gone. */
  lemma ClientIsLost(c: Conventions, p: Policy)
    requires |p.users| == 2 && AllStorable(p.users) && p.users[0].username == p.users[1].username && p.filtered == []
    requires |p.users[0].clientIds| == 1 == |p.users[1].clientIds|
    requires c.fold(p.users[0].clientIds[0]) == c.fold(p.users[1].clientIds[0])
    ensures var loaded := Validate(c, PolicyJson(p));
            loaded.Ok? && |loaded.value.users| == 1 && loaded.value.users[0].clientIds == p.users[0].clientIds
  {
    TwoEntriesLoaded(c, p);
    LeftOnly(c, Settled(c, p.users[0]), Settled(c, p.users[1]));
  }

  lemma LeftOnly(c: Conventions, u: User, v: User)
    requires |u.clientIds| == 1 == |v.clientIds| && c.fold(u.clientIds[0]) == c.fold(v.clientIds[0])
    ensures Merge(c, u, v).clientIds == u.clientIds
  {
    OneOfTwo(c, u.clientIds, v.clientIds);
  }

  lemma OneOfTwo(c: Conventions, left: seq<string>, right: seq<string>)
    requires |left| == 1 == |right| && c.fold(left[0]) == c.fold(right[0])
    ensures MergeLists(c, left, right) == left
  {
    PairUnique(c.fold, left[0], right[0]);
    assert left + right == [left[0], right[0]];
  }

  /** There are such clients: two of one user, with a `casefold` that makes them the same. */
  lemma AClientIsLost(c: Conventions, u: User, v: User, p: Policy)
    requires c.fold("A") == "a" == c.fold("a") && p == Policy([u, v], [])
    requires u == User(["A"], "u", false, [], [], []) && v == User(["a"], "u", false, [], [], [])
    ensures u.clientIds[0] != v.clientIds[0]
    ensures var loaded := Validate(c, PolicyJson(p));
            loaded.Ok? && |loaded.value.users| == 1 && loaded.value.users[0].clientIds == u.clientIds
  {
    assert "A"[0] != "a"[0];
    assert Storable(u) && Storable(v);
    ClientIsLost(c, p);
  }
}
