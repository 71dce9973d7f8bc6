/** The loops of src/access_policy.py and the file they work for, each proved against the functions of
    the model. */
module PolicyStore {
  import opened Results
  import opened Text
  import opened Uniques
  import opened AccessPolicy
  import opened PolicyNormalForm
  import opened PolicyRegistration

  /** `_merge_unique` */
  method MergeUnique(c: Conventions, left: seq<string>, right: seq<string>) returns (r: seq<string>)
    ensures r == MergeLists(c, left, right)
  {
    var kept := Dedupe(c.fold, left + right);
    r := if |kept| <= MAX_PER_USER then kept else kept[|kept| - MAX_PER_USER..];
  }

  /** `_merge_same_username_users` */
  method MergeSameUsername(c: Conventions, a: User, b: User) returns (r: User)
    ensures r == Merge(c, a, b)
  {
    var clients := MergeUnique(c, a.clientIds, b.clientIds);
    var ips := MergeUnique(c, a.ips, b.ips);
    r := User(clients, a.username, a.developer || b.developer, ips, Earliest(a.first, b.first), Newest(a.last, b.last));
  }

  /** `_string_list` */
  method StringList(c: Conventions, v: Json, maximum: nat) returns (r: Result<seq<string>>)
    ensures r == ReadEntries(c, v, maximum)
  {
    if !v.List? {
      return Err("must be an array");
    }
    if |v.items| > maximum {
      return Err("too many entries");
    }
    r := ReadInto(ReadEntry, c.fold, v.items);
  }

  /** `_user_client_ids` */
  method UserClientIds(c: Conventions, fields: map<Key, Json>) returns (r: Result<seq<string>>)
    ensures r == ReadClientIds(c, fields)
  {
    if ClientIds !in fields {
      var id := ReadClientId(c, Get(fields, ClientId, Null));
      return if id.Err? then Err(id.error) else Ok([id.value]);
    }
    if !fields[ClientIds].List? {
      return Err("clientIds must be an array");
    }
    if |fields[ClientIds].items| > MAX_PER_USER {
      return Err("too many clientIds");
    }
    r := ReadInto(ClientReader(c), Self, fields[ClientIds].items);
  }

  /** An entry of the user list */
  method NormalizeUser(c: Conventions, v: Json) returns (r: Result<User>)
    ensures r == UserReader(c)(v)
  {
    if !v.Object? {
      return Err("must be an object");
    }
    var username := ReadUsername(c, Get(v.fields, Username, Null));
    if username.Err? {
      return Err(username.error);
    }
    var ids := UserClientIds(c, v.fields);
    if ids.Err? {
      return Err(ids.error);
    }
    var ips := StringList(c, Get(v.fields, Ips, List([])), MAX_PER_USER);
    if ips.Err? {
      return Err(ips.error);
    }
    Assembled(c, v.fields, username.value, ids.value, ips.value);
    r := Ok(User(ids.value, username.value, Get(v.fields, Developer, Null) == True, ips.value,
                 Plain(c, Get(v.fields, FirstSeenAt, Null)), Plain(c, Get(v.fields, LastSeenAt, Null))));
  }

  /** `user_indexes`: where each name stands among the users */
  ghost predicate Indexes(c: Conventions, users: seq<User>, at: map<string, nat>) {
    forall k :: if k in at then FirstWith(Owner(c), users, k) == Some(at[k]) else FirstWith(Owner(c), users, k) == None
  }

  lemma IndexesAppend(c: Conventions, users: seq<User>, at: map<string, nat>, u: User)
    requires Indexes(c, users, at) && Owner(c)(u) !in at
    ensures Indexes(c, users + [u], at[Owner(c)(u) := |users|])
  {
    forall k
      ensures FirstWith(Owner(c), users + [u], k) ==
              if k == Owner(c)(u) then Some(|users|) else FirstWith(Owner(c), users, k)
    {
      assert (users + [u])[..|users|] == users;
    }
  }

  lemma {:induction false} SameFirst(c: Conventions, a: seq<User>, b: seq<User>, k: string)
    requires |a| == |b| && forall i :: 0 <= i < |a| ==> Owner(c)(a[i]) == Owner(c)(b[i])
    ensures FirstWith(Owner(c), a, k) == FirstWith(Owner(c), b, k)
  {
    if a != [] { SameFirst(c, a[..|a| - 1], b[..|a| - 1], k); }
  }

  lemma IndexesMerge(c: Conventions, users: seq<User>, at: map<string, nat>, u: User, i: nat)
    requires Indexes(c, users, at) && i < |users|
    ensures Indexes(c, users[i := Merge(c, users[i], u)], at)
  {
    forall k
      ensures FirstWith(Owner(c), users[i := Merge(c, users[i], u)], k) == FirstWith(Owner(c), users, k)
    {
      SameFirst(c, users[i := Merge(c, users[i], u)], users, k);
    }
  }

  /** A turn of the loop over the users: the entry is appended or merged. */
  method JoinUser(c: Conventions, users: seq<User>, at: map<string, nat>, u: User)
    returns (users': seq<User>, at': map<string, nat>)
    requires Indexes(c, users, at)
    ensures users' == Joined(c, users, u) && Indexes(c, users', at')
  {
    var key := c.fold(u.username);
    assert key == Owner(c)(u);
    if key !in at {
      IndexesAppend(c, users, at, u);
      users', at' := users + [u], at[key := |users|];
    } else {
      var i := at[key];
      IndexesMerge(c, users, at, u, i);
      var merged := MergeSameUsername(c, users[i], u);
      users', at' := users[i := merged], at;
    }
  }

  lemma GatheredNext(c: Conventions, entries: seq<User>, u: User)
    ensures Gathered(c, entries + [u]) == Joined(c, Gathered(c, entries), u)
  {
    assert (entries + [u])[..|entries|] == entries;
  }

  /** The first loop of `validate_access_policy` */
  method GatherUsers(c: Conventions, items: seq<Json>) returns (r: Result<seq<User>>)
    ensures r == match ReadAll(UserReader(c), items) case Err(e) => Err(e) case Ok(entries) => Ok(Gathered(c, entries))
  {
    var users: seq<User> := [];
    var at: map<string, nat> := map[];
    ghost var entries: seq<User> := [];
    for i := 0 to |items|
      invariant ReadAll(UserReader(c), items[..i]) == Ok(entries)
      invariant users == Gathered(c, entries) && Indexes(c, users, at)
    {
      ReadNext(UserReader(c), items, i, entries);
      var u := NormalizeUser(c, items[i]);
      if u.Err? {
        return Err(u.error);
      }
      GatheredNext(c, entries, u.value);
      entries := entries + [u.value];
      users, at := JoinUser(c, users, at, u.value);
    }
    assert items[..|items|] == items;
    r := Ok(users);
  }

  /** Who owns the clients of the users so far: `client_owners` */
  ghost predicate Owners(c: Conventions, users: seq<User>, n: nat, owners: map<string, string>)
    requires n <= |users|
  {
    forall id :: (id in owners ==>
                    exists i :: 0 <= i < n && id in users[i].clientIds && owners[id] == Owner(c)(users[i]))
              && ((exists i :: 0 <= i < n && id in users[i].clientIds) ==> id in owners)
  }

  /** The inner loop of the ownership check: the clients of one user join the map, or one of them is found
      in it under another name. */
  method ClaimClients(c: Conventions, u: User, owners: map<string, string>)
    returns (ok: bool, after: map<string, string>)
    ensures ok <==> forall id <- u.clientIds | id in owners :: owners[id] == Owner(c)(u)
    ensures ok ==> forall id :: if id in u.clientIds then id in after && after[id] == Owner(c)(u)
                                else (id in after <==> id in owners) && (id in owners ==> after[id] == owners[id])
  {
    var key := c.fold(u.username);
    after := owners;
    for k := 0 to |u.clientIds|
      invariant forall id <- u.clientIds[..k] | id in owners :: owners[id] == key
      invariant forall id :: if id in u.clientIds[..k] then id in after && after[id] == key
                             else (id in after <==> id in owners) && (id in owners ==> after[id] == owners[id])
    {
      var id := u.clientIds[k];
      if id in after && after[id] != key {
        return false, after;
      }
      after := after[id := key];
    }
    ok := true;
  }

  /** The second loop of `validate_access_policy`: owners are told apart by name, and names are distinct. */
  method CheckOwners(c: Conventions, users: seq<User>) returns (ok: bool)
    requires Distinct(Owner(c), users)
    ensures ok <==> Apart(users)
  {
    var owners: map<string, string> := map[];
    for n := 0 to |users|
      invariant Apart(users[..n]) && Owners(c, users, n, owners)
    {
      var claimed, after := ClaimClients(c, users[n], owners);
      ClaimMeans(c, users, n, owners);
      if !claimed {
        return false;
      }
      ClaimAdds(c, users, n, owners, after);
      owners := after;
    }
    assert users[..|users|] == users;
    ok := true;
  }

  /** Some user before has this client. */
  predicate Taken(users: seq<User>, n: nat, id: string)
    requires n <= |users|
  {
    exists i :: 0 <= i < n && id in users[i].clientIds
  }

  lemma ApartNext(users: seq<User>, n: nat)
    requires n < |users| && Apart(users[..n])
    ensures Apart(users[..n + 1]) <==> forall id <- users[n].clientIds :: !Taken(users, n, id)
    ensures !Apart(users[..n + 1]) ==> !Apart(users)
  {
    var some := users[..n + 1];
    assert forall i :: 0 <= i <= n ==> some[i] == users[i];
    assert forall i :: 0 <= i < n ==> users[..n][i] == users[i];
  }

  /** Clients of a user can be claimed exactly if no user before has one of them. */
  lemma ClaimMeans(c: Conventions, users: seq<User>, n: nat, owners: map<string, string>)
    requires Distinct(Owner(c), users) && n < |users| && Apart(users[..n]) && Owners(c, users, n, owners)
    ensures (forall id <- users[n].clientIds | id in owners :: owners[id] == Owner(c)(users[n])) <==>
            Apart(users[..n + 1])
    ensures !Apart(users[..n + 1]) ==> !Apart(users)
  {
    ApartNext(users, n);
    forall id | id in users[n].clientIds
      ensures Taken(users, n, id) <==> id in owners && owners[id] != Owner(c)(users[n])
    {
      if id in owners {
        var i :| 0 <= i < n && id in users[i].clientIds && owners[id] == Owner(c)(users[i]);
        assert Owner(c)(users[i]) != Owner(c)(users[n]);
      }
    }
  }

  lemma ClaimAdds(c: Conventions, users: seq<User>, n: nat, owners: map<string, string>, after: map<string, string>)
    requires n < |users| && Owners(c, users, n, owners)
    requires forall id :: if id in users[n].clientIds then id in after && after[id] == Owner(c)(users[n])
                          else (id in after <==> id in owners) && (id in owners ==> after[id] == owners[id])
    ensures Owners(c, users, n + 1, after)
  {
    forall id | id in after
      ensures exists i :: 0 <= i < n + 1 && id in users[i].clientIds && after[id] == Owner(c)(users[i])
    {
      if id in users[n].clientIds {
        assert 0 <= n < n + 1 && after[id] == Owner(c)(users[n]);
      } else {
        var i :| 0 <= i < n && id in users[i].clientIds && owners[id] == Owner(c)(users[i]);
        assert after[id] == Owner(c)(users[i]);
      }
    }
  }

  /** `validate_access_policy` */
  method ValidatePolicy(c: Conventions, payload: Json) returns (r: Result<Policy>)
    ensures r == Validate(c, payload)
  {
    if !payload.Object? {
      return Err("access policy must be an object");
    }
    if !(payload.fields.Keys <= {Users, FilteredTools}) {
      return Err("unsupported access policy fields");
    }
    r := CheckParts(c, Get(payload.fields, Users, List([])),
                    Get(payload.fields, FilteredTools, TextList(DEFAULT_TOOLS)));
  }

  method CheckParts(c: Conventions, raw: Json, tools: Json) returns (r: Result<Policy>)
    ensures r == ValidateParts(c, raw, tools)
  {
    if !raw.List? {
      return Err("users must be an array");
    }
    if |raw.items| > MAX_USERS {
      return Err("too many users");
    }
    var users := GatherUsers(c, raw.items);
    if users.Err? {
      return Err(users.error);
    }
    EntriesOfUsers(c, raw.items);
    GatheredGood(c, ReadAll(UserReader(c), raw.items).value);
    var apart := CheckOwners(c, users.value);
    if !apart {
      return Err("clientId belongs to multiple usernames");
    }
    var filtered := StringList(c, tools, MAX_FILTERED_TOOLS);
    r := if filtered.Err? then Err(filtered.error) else Ok(Policy(users.value, filtered.value));
  }

  /** The two searches of `register_remote_user` */
  method FindMatch(c: Conventions, users: seq<User>, client: string, username: string) returns (r: Option<nat>)
    ensures r == Match(c, users, client, username)
  {
    var byClient := Search((u: User) => HasClient(u, client), users, true);
    var byName := Search(Owner(c), users, c.fold(username));
    r := if byClient.Some? then byClient else byName;
  }

  method Search<K(!new, ==)>(key: User -> K, users: seq<User>, k: K) returns (r: Option<nat>)
    ensures r == FirstWith(key, users, k)
  {
    for i := 0 to |users|
      invariant forall j :: 0 <= j < i ==> key(users[j]) != k
    {
      if key(users[i]) == k {
        return Some(i);
      }
    }
    r := None;
  }

  /** The policy file */
  class Store {
    var stored: Option<Json>

    constructor (stored: Option<Json>)
      ensures this.stored == stored
    {
      this.stored := stored;
    }

    /** `load_access_policy` */
    method LoadPolicy(c: Conventions) returns (r: Result<Policy>)
      ensures r == Load(c, stored)
    {
      if stored.None? {
        return Ok(DEFAULT);
      }
      r := ValidatePolicy(c, stored.value);
    }

    /** `register_remote_user`: the file is replaced by the new policy, or left alone when the request or
        the file is no good or there are too many users; the user returned is the one concerned, refreshed, or
        the new one, as stored. */
    method RegisterRemoteUser(c: Conventions, r: Request) returns (result: Result<User>)
      requires Stripped(r.now)
      modifies this
      ensures stored == Step(c, old(stored), r)
      ensures var client, username := Plain(c, r.client), Plain(c, r.username);
              var before, after := Load(c, old(stored)), Registered(c, old(stored), r);
              && (result.Ok? <==> IsClientId(client) && IsUsername(username) && before.Ok?
                                  && !Full(c, before.value.users, client, username))
              && (result.Err? ==> stored == old(stored))
              && (result.Ok? ==> && after.Ok? && stored == Some(PolicyJson(after.value))
                                 && var i := Place(c, before.value.users, client, username);
                                    Books(c, before.value, client, username, Plain(c, r.ip), r.now, after.value, i)
                                    && result.value == after.value.users[i])
    {
      RegisteredExact(c, stored, r);
      var client := ReadClientId(c, r.client);
      if client.Err? {
        return Err(client.error);
      }
      var username := ReadUsername(c, r.username);
      if username.Err? {
        return Err(username.error);
      }
      var loaded := LoadPolicy(c);
      if loaded.Err? {
        return Err(loaded.error);
      }
      var ip := Plain(c, r.ip);
      LoadedSound(c, stored);
      RequestFit(c, r);
      var written, owner := Mutate(c, loaded.value, client.value, username.value, ip, r.now);
      if written.Err? {
        return Err(written.error);
      }
      stored := Some(PolicyJson(written.value));
      result := Ok(owner);
    }
  }

  /** The inner `mutate` */
  method Mutate(c: Conventions, p: Policy, client: string, username: string, ip: string, now: string)
    returns (r: Result<Policy>, found: User)
    requires Sound(c, p) && Fit(client, username, ip, now)
    ensures r == Register(c, p, client, username, ip, now)
    ensures r.Ok? ==> Place(c, p.users, client, username) < |r.value.users|
    ensures r.Ok? ==> found == r.value.users[Place(c, p.users, client, username)]
  {
    var at := FindMatch(c, p.users, client, username);
    var users := p.users;
    found := User([client], username, false, [], now, now);
    var i := |users|;
    if at.None? {
      if |users| >= MAX_USERS {
        return Err("too many users"), found;
      }
      users := users + [found];
    } else {
      i := at.value;
      WithClientStorable(users[i].(last := now), client);
      found := users[i].(last := now);
      if client !in found.clientIds {
        found := found.(clientIds := Latest(MAX_PER_USER, found.clientIds + [client]));
      }
    }
    if ip != [] && ip !in found.ips {
      found := found.(ips := Latest(MAX_PER_USER, found.ips + [ip]));
    }
    users := users[i := found];
    assert users[i] == found;
    assert at.None? ==> users == p.users + [found];
    r := Ok(p.(users := users));
  }
}
