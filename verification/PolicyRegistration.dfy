/** Registration of remote users (`register_remote_user` of src/access_policy.py): over any history the
    stored policy can be loaded, and users and bindings stay. */
module PolicyRegistration {
  import opened Results
  import opened Text
  import opened Uniques
  import opened AccessPolicy
  import opened PolicyNormalForm
  import opened PolicyReading

  // ---------- One registration ----------

  predicate HasClient(u: User, client: string) { client in u.clientIds }

  /** The first user that a client identifier is bound to */
  function FirstOwner(users: seq<User>, client: string): Option<nat> {
    FirstWith((u: User) => HasClient(u, client), users, true)
  }

  /** The user a registration is for: the one the client is bound to, or else the one of that name. */
  function Match(c: Conventions, users: seq<User>, client: string, username: string): Option<nat> {
    match FirstOwner(users, client)
    case Some(i) => Some(i)
    case None => FirstWith(Owner(c), users, c.fold(username))
  }

  function WithClient(u: User, client: string): User {
    if client in u.clientIds then u else u.(clientIds := Latest(MAX_PER_USER, u.clientIds + [client]))
  }

  function WithIp(u: User, ip: string): User {
    if ip == [] || ip in u.ips then u else u.(ips := Latest(MAX_PER_USER, u.ips + [ip]))
  }

  /** The inner `mutate` on a loaded policy */
  function Register(c: Conventions, p: Policy, client: string, username: string, ip: string,
                    now: string): Result<Policy> {
    match Match(c, p.users, client, username)
    case Some(i) => Ok(p.(users := p.users[i := WithIp(WithClient(p.users[i].(last := now), client), ip)]))
    case None =>
      if |p.users| >= MAX_USERS then Err("too many users")
      else Ok(p.(users := p.users + [WithIp(User([client], username, false, [], now, now), ip)]))
  }

  lemma OwnerFound(users: seq<User>, client: string)
    ensures FirstOwner(users, client).None? ==> forall i :: 0 <= i < |users| ==> client !in users[i].clientIds
    ensures FirstOwner(users, client).Some? ==>
              FirstOwner(users, client).value < |users| && client in users[FirstOwner(users, client).value].clientIds
  {
    var key := (u: User) => HasClient(u, client);
    if FirstOwner(users, client).None? {
      forall i | 0 <= i < |users| ensures client !in users[i].clientIds {
        assert key(users[i]) != true;
      }
    }
  }

  lemma WithClientStorable(u: User, client: string)
    requires Storable(u) && IsClientId(client)
    ensures Storable(WithClient(u, client)) && client in WithClient(u, client).clientIds
    ensures forall id <- WithClient(u, client).clientIds :: id in u.clientIds || id == client
  {
    if client !in u.clientIds {
      var all := u.clientIds + [client];
      assert Distinct(Self, all);
      var kept := Latest(MAX_PER_USER, all);
      assert kept[|kept| - 1] == client;
    }
  }

  lemma WithIpStorable(u: User, ip: string)
    requires Storable(u) && Stripped(ip)
    ensures Storable(WithIp(u, ip)) && WithIp(u, ip).clientIds == u.clientIds
  {
  }

  /** The user as a registration leaves it */
  lemma TouchedStorable(u: User, client: string, ip: string, now: string)
    requires Storable(u) && IsClientId(client) && Stripped(ip) && Stripped(now)
    ensures var v := WithIp(WithClient(u.(last := now), client), ip);
            && Storable(v) && client in v.clientIds
            && forall id <- v.clientIds :: id in u.clientIds || id == client
  {
    WithClientStorable(u.(last := now), client);
    WithIpStorable(WithClient(u.(last := now), client), ip);
  }

  lemma NewStorable(client: string, username: string, ip: string, now: string)
    requires IsClientId(client) && IsUsername(username) && Stripped(ip) && Stripped(now)
    ensures var v := WithIp(User([client], username, false, [], now, now), ip);
            Storable(v) && v.clientIds == [client] && v.username == username
  {
    WithIpStorable(User([client], username, false, [], now, now), ip);
  }

  /** A user changes and gets no client of another user: all is still in order. */
  lemma ReplaceSound(c: Conventions, p: Policy, i: nat, v: User, client: string)
    requires Sound(c, p) && i < |p.users| && Storable(v) && v.username == p.users[i].username
    requires forall id <- v.clientIds :: id in p.users[i].clientIds || id == client
    requires client in p.users[i].clientIds || forall j :: 0 <= j < |p.users| ==> client !in p.users[j].clientIds
    ensures Sound(c, p.(users := p.users[i := v]))
  {
    var users := p.users[i := v];
    forall a, b, id | 0 <= a < b < |users| && id in users[a].clientIds
      ensures id !in users[b].clientIds
    {
      assert id in p.users[a].clientIds || id == client;
    }
  }

  lemma AppendSound(c: Conventions, p: Policy, v: User)
    requires Sound(c, p) && |p.users| < MAX_USERS && Storable(v) && !Has(Owner(c), p.users, Owner(c)(v))
    requires forall j, id :: 0 <= j < |p.users| && id in v.clientIds ==> id !in p.users[j].clientIds
    ensures Sound(c, p.(users := p.users + [v]))
  {
  }

  /** What a registration is given, as `_client_id`, `_username` and the clock make it */
  predicate Fit(client: string, username: string, ip: string, now: string) {
    IsClientId(client) && IsUsername(username) && Stripped(ip) && Stripped(now)
  }

  /** Registration keeps a policy sound: it can always be loaded again. */
  lemma RegisterSound(c: Conventions, p: Policy, client: string, username: string, ip: string, now: string)
    requires Sound(c, p) && Fit(client, username, ip, now)
    requires Register(c, p, client, username, ip, now).Ok?
    ensures Sound(c, Register(c, p, client, username, ip, now).value)
  {
    OwnerFound(p.users, client);
    var at := Match(c, p.users, client, username);
    if at.Some? {
      TouchedStorable(p.users[at.value], client, ip, now);
      ReplaceSound(c, p, at.value, WithIp(WithClient(p.users[at.value].(last := now), client), ip), client);
    } else {
      NewStorable(client, username, ip, now);
      AppendSound(c, p, WithIp(User([client], username, false, [], now, now), ip));
    }
  }

  /** Users stay where they are, with their names, developer flags and first dates. */
  predicate SameUsers(p: Policy, q: Policy) {
    && |p.users| <= |q.users|
    && forall j :: 0 <= j < |p.users| ==>
         && q.users[j].username == p.users[j].username && q.users[j].developer == p.users[j].developer
         && q.users[j].first == p.users[j].first
  }

  /** Somebody has this client. */
  predicate Known(users: seq<User>, client: string) { exists j :: 0 <= j < |users| && HasClient(users[j], client) }

  /** Somebody has this name, in some spelling. */
  predicate Taken(c: Conventions, users: seq<User>, username: string) {
    exists j :: 0 <= j < |users| && Owner(c)(users[j]) == c.fold(username)
  }

  /** The user is the first that has the client or, when nobody has it, the first of that name. */
  predicate Concerned(c: Conventions, users: seq<User>, client: string, username: string, i: nat) {
    && i < |users|
    && if Known(users, client)
       then HasClient(users[i], client) && !Known(users[..i], client)
       else Owner(c)(users[i]) == c.fold(username) && !Taken(c, users[..i], username)
  }

  lemma MatchExact(c: Conventions, users: seq<User>, client: string, username: string)
    ensures match Match(c, users, client, username)
            case Some(i) => Concerned(c, users, client, username, i)
            case None => !Known(users, client) && !Taken(c, users, username)
  {
    var key := (u: User) => HasClient(u, client);
    assert forall j :: 0 <= j < |users| ==> key(users[j]) == HasClient(users[j], client);
    if FirstOwner(users, client).Some? {
      var i := FirstOwner(users, client).value;
      assert HasClient(users[i], client);
    }
  }

  /** A value is put down in a list of at most a hundred: a value that is there already changes nothing; a
      new one comes last, and at a hundred the oldest makes room for it. */
  predicate PutDown(before: seq<string>, x: string, after: seq<string>) {
    if x in before then after == before
    else if |before| < MAX_PER_USER then after == before + [x]
    else after == before[1..] + [x]
  }

  /** What a registration makes of a user that is known: its name, its flag and its first date stay, the last
      date is now, and the client and an address that is not blank are put down. */
  predicate Refreshed(u: User, client: string, ip: string, now: string, v: User) {
    && v.username == u.username && v.developer == u.developer && v.first == u.first && v.last == now
    && PutDown(u.clientIds, client, v.clientIds)
    && if ip == [] then v.ips == u.ips else PutDown(u.ips, ip, v.ips)
  }

  /** A user that was not known has this client alone, is no developer, was seen now for the first and the last
      time, and has the address alone, or none when it is blank. */
  predicate Entered(client: string, username: string, ip: string, now: string, v: User) {
    && v.clientIds == [client] && v.username == username && !v.developer && v.first == now == v.last
    && v.ips == if ip == [] then [] else [ip]
  }

  /** Where the user of a registration stands afterwards */
  function Place(c: Conventions, users: seq<User>, client: string, username: string): nat {
    match Match(c, users, client, username) case Some(i) => i case None => |users|
  }

  /** What a registration does: everything stays, except that the user concerned is refreshed, or a new user is
      entered last when nobody is concerned. */
  predicate Books(c: Conventions, p: Policy, client: string, username: string, ip: string, now: string, q: Policy,
                  i: nat)
  {
    && i < |q.users| && q.filtered == p.filtered
    && if Known(p.users, client) || Taken(c, p.users, username)
       then Concerned(c, p.users, client, username, i) && Refreshed(p.users[i], client, ip, now, q.users[i])
            && q.users == p.users[i := q.users[i]]
       else i == |p.users| && Entered(client, username, ip, now, q.users[i]) && q.users == p.users + [q.users[i]]
  }

  lemma TouchedRefreshed(u: User, client: string, ip: string, now: string)
    requires Storable(u)
    ensures Refreshed(u, client, ip, now, WithIp(WithClient(u.(last := now), client), ip))
  {
  }

  /** There is no room for a user that is not known. */
  predicate Full(c: Conventions, users: seq<User>, client: string, username: string) {
    |users| >= MAX_USERS && !Known(users, client) && !Taken(c, users, username)
  }

  /** A registration fails only for a new user beside a thousand others, and does what it should otherwise. */
  lemma RegisterExact(c: Conventions, p: Policy, client: string, username: string, ip: string, now: string)
    requires Sound(c, p)
    ensures var r := Register(c, p, client, username, ip, now);
            && (r.Err? <==> Full(c, p.users, client, username))
            && (r.Ok? ==> && SameUsers(p, r.value)
                          && Books(c, p, client, username, ip, now, r.value, Place(c, p.users, client, username)))
  {
    MatchExact(c, p.users, client, username);
    var at := Match(c, p.users, client, username);
    if at.Some? {
      TouchedRefreshed(p.users[at.value], client, ip, now);
      ConcernedIsKnown(c, p.users, client, username, at.value);
    }
  }

  lemma ConcernedIsKnown(c: Conventions, users: seq<User>, client: string, username: string, i: nat)
    requires Concerned(c, users, client, username, i)
    ensures Known(users, client) || Taken(c, users, username)
  {
  }

  /** A client loses its user exactly when that user has a hundred clients, it is the oldest of them,
      and the registration brings the user another one. */
  predicate Evicts(c: Conventions, p: Policy, client: string, username: string, j: nat, id: string)
    requires j < |p.users|
  {
    && Match(c, p.users, client, username) == Some(j) && client !in p.users[j].clientIds
    && |p.users[j].clientIds| == MAX_PER_USER && p.users[j].clientIds[0] == id
  }

  lemma LatestDrops(ids: seq<string>, client: string, id: string)
    requires id in ids && client !in ids && |ids| <= MAX_PER_USER && Distinct(Self, ids)
    ensures id in Latest(MAX_PER_USER, ids + [client]) <==> !(|ids| == MAX_PER_USER && ids[0] == id)
  {
    var kept := Latest(MAX_PER_USER, ids + [client]);
    var k :| 0 <= k < |ids| && ids[k] == id;
    if |ids| < MAX_PER_USER {
      assert kept[k] == id;
    } else {
      assert kept == ids[1..] + [client];
      if k > 0 {
        assert kept[k - 1] == id;
        assert Self(ids[0]) != Self(ids[k]);
      } else {
        forall l | 0 < l < |ids| ensures ids[l] != id { assert Self(ids[0]) != Self(ids[l]); }
      }
    }
  }

  lemma BindingKeptIff(c: Conventions, p: Policy, client: string, username: string, ip: string, now: string, j: nat,
                       id: string)
    requires Sound(c, p) && Fit(client, username, ip, now)
    requires Register(c, p, client, username, ip, now).Ok?
    requires j < |p.users| && id in p.users[j].clientIds
    ensures var q := Register(c, p, client, username, ip, now).value;
            j < |q.users| && (id in q.users[j].clientIds <==> !Evicts(c, p, client, username, j, id))
  {
    if Match(c, p.users, client, username) == Some(j) && client !in p.users[j].clientIds {
      LatestDrops(p.users[j].clientIds, client, id);
    }
  }

  /** A hundred client identifiers, "a0" to "j9" */
  function Hundred(): (ids: seq<string>)
    ensures |ids| == MAX_PER_USER && ids[0] == "a0" && AllIds(ids) && Distinct(Self, ids)
    ensures "z" !in ids
  {
    seq(100, i requires 0 <= i < 100 => [('a' as int + i / 10) as char, ('0' as int + i % 10) as char])
  }

  /** There are such registrations: the hundred and first device of a user unbinds the first. */
  lemma AnEviction(c: Conventions)
    ensures var p := Policy([User(Hundred(), "u", false, [], [], [])], []);
            && Sound(c, p) && Register(c, p, "z", "u", [], []).Ok?
            && Evicts(c, p, "z", "u", 0, "a0") && "a0" !in Register(c, p, "z", "u", [], []).value.users[0].clientIds
  {
    var p := Policy([User(Hundred(), "u", false, [], [], [])], []);
    OwnerFound(p.users, "z");
    assert Owner(c)(p.users[0]) == c.fold("u");
    assert Hundred()[0] in Hundred();
    BindingKeptIff(c, p, "z", "u", [], [], 0, "a0");
  }

  // ---------- When a registration writes what will be read back ----------

  /** Another spelling of the address is among those that stay. */
  predicate CaseVariant(c: Conventions, ips: seq<string>, ip: string) {
    ip != [] && ip !in ips && Has(c.fold, Latest(MAX_PER_USER - 1, ips), c.fold(ip))
  }

  lemma WithIpDistinct(c: Conventions, u: User, ip: string)
    requires Distinct(c.fold, u.ips) && |u.ips| <= MAX_PER_USER
    ensures Distinct(c.fold, WithIp(u, ip).ips) <==> !CaseVariant(c, u.ips, ip)
  {
    if ip != [] && ip !in u.ips {
      var kept := Latest(MAX_PER_USER - 1, u.ips);
      assert WithIp(u, ip).ips == kept + [ip];
      assert Distinct(c.fold, kept);
      if Has(c.fold, kept, c.fold(ip)) {
        var i :| 0 <= i < |kept| && c.fold(kept[i]) == c.fold(ip);
        assert c.fold((kept + [ip])[i]) == c.fold((kept + [ip])[|kept|]);
      }
    }
  }

  /** What a registration writes is read back unchanged exactly if the address is not another spelling of
      one that the user keeps. */
  lemma WrittenIsFixedIff(c: Conventions, p: Policy, client: string, username: string, ip: string, now: string)
    requires Normal(c, p) && Fit(client, username, ip, now)
    requires Register(c, p, client, username, ip, now).Ok?
    ensures var q := Register(c, p, client, username, ip, now).value;
            var at := Match(c, p.users, client, username);
            Validate(c, PolicyJson(q)) == Ok(q) <==> at.None? || !CaseVariant(c, p.users[at.value].ips, ip)
  {
    var q := Register(c, p, client, username, ip, now).value;
    RegisterSound(c, p, client, username, ip, now);
    FixedIffNormal(c, q);
    DistinctIff(c, p, client, username, ip, now);
  }

  lemma DistinctIff(c: Conventions, p: Policy, client: string, username: string, ip: string, now: string)
    requires IpsDistinct(c, p.users) && AllStorable(p.users)
    requires Register(c, p, client, username, ip, now).Ok?
    ensures var q := Register(c, p, client, username, ip, now).value;
            var at := Match(c, p.users, client, username);
            IpsDistinct(c, q.users) <==> at.None? || !CaseVariant(c, p.users[at.value].ips, ip)
  {
    var q := Register(c, p, client, username, ip, now).value;
    var at := Match(c, p.users, client, username);
    if at.Some? {
      var u := WithClient(p.users[at.value].(last := now), client);
      WithIpDistinct(c, u, ip);
      assert q.users[at.value] == WithIp(u, ip);
    } else {
      WithIpDistinct(c, User([client], username, false, [], now, now), ip);
    }
  }

  /** The addresses that stay when another one comes: all of them, or at a hundred all but the oldest */
  function Staying(ips: seq<string>): seq<string> { if |ips| < MAX_PER_USER then ips else ips[1..] }

  /** Such an address is written beside the other spelling, and gone when the policy is loaded: however often
      the user comes from there, it is not recorded; at a hundred addresses the oldest is lost for it. */
  lemma CaseVariantIsDropped(c: Conventions, p: Policy, client: string, username: string, ip: string, now: string,
                             i: nat)
    requires Normal(c, p) && Fit(client, username, ip, now)
    requires i < |p.users| && Match(c, p.users, client, username) == Some(i)
    requires CaseVariant(c, p.users[i].ips, ip)
    ensures var written := Register(c, p, client, username, ip, now).value;
            var loaded := Validate(c, PolicyJson(written));
            && written.users[i].ips == Staying(p.users[i].ips) + [ip]
            && loaded.Ok? && i < |loaded.value.users| && loaded.value.users[i].ips == Staying(p.users[i].ips)
  {
    RegisterSound(c, p, client, username, ip, now);
    ReadBackUser(c, Register(c, p, client, username, ip, now).value, i);
    VariantSettles(c, WithClient(p.users[i].(last := now), client), ip);
  }

  lemma VariantSettles(c: Conventions, u: User, ip: string)
    requires Distinct(c.fold, u.ips) && |u.ips| <= MAX_PER_USER && CaseVariant(c, u.ips, ip)
    ensures WithIp(u, ip).ips == Staying(u.ips) + [ip] && Settled(c, WithIp(u, ip)).ips == Staying(u.ips)
  {
    StayingKept(u.ips, ip);
    StayingDistinct(c, u.ips);
    VariantGoes(c, Staying(u.ips), ip);
  }

  lemma StayingKept(ips: seq<string>, ip: string)
    requires |ips| <= MAX_PER_USER
    ensures Staying(ips) == Latest(MAX_PER_USER - 1, ips)
    ensures Latest(MAX_PER_USER, ips + [ip]) == Staying(ips) + [ip]
  {
  }

  lemma StayingDistinct(c: Conventions, ips: seq<string>)
    requires Distinct(c.fold, ips) && |ips| <= MAX_PER_USER
    ensures Distinct(c.fold, Staying(ips))
  {
  }

  lemma VariantGoes(c: Conventions, kept: seq<string>, ip: string)
    requires Distinct(c.fold, kept) && Has(c.fold, kept, c.fold(ip))
    ensures Unique(c.fold, kept + [ip]) == kept
  {
    UniqueFixed(c.fold, kept);
    assert (kept + [ip])[..|kept|] == kept;
  }

  /** A registration that is not read back as it was written: of a user who comes from an address that is
      spelled another way, with a `casefold` that makes the spellings the same. */
  lemma ACaseVariant(c: Conventions, u: User, p: Policy)
    requires c.fold("fe80::A") == "fe80::a" == c.fold("fe80::a")
    requires u == User(["c"], "u", false, ["fe80::A"], [], []) && p == Policy([u], [])
    ensures Normal(c, p) && Register(c, p, "c", "u", "fe80::a", []).Ok?
    ensures var written := Register(c, p, "c", "u", "fe80::a", []).value;
            var loaded := Validate(c, PolicyJson(written));
            loaded.Ok? && loaded != Ok(written) && |loaded.value.users| > 0 && loaded.value.users[0].ips == u.ips
  {
    Spellings(c, u.ips);
    OneUserMatches(c, p, "c", "u");
    RecordedOrNot(c, p, "c", "u", "fe80::a", []);
  }

  lemma Spellings(c: Conventions, ips: seq<string>)
    requires ips == ["fe80::A"] && c.fold("fe80::A") == "fe80::a" == c.fold("fe80::a")
    ensures CaseVariant(c, ips, "fe80::a") && AllEntries(ips) && IsEntry("fe80::a")
  {
    assert ips[0][6] != "fe80::a"[6];
    assert c.fold(ips[0]) == c.fold("fe80::a");
  }

  lemma OneUserMatches(c: Conventions, p: Policy, client: string, username: string)
    requires |p.users| == 1 && client in p.users[0].clientIds
    ensures Match(c, p.users, client, username) == Some(0)
  {
    OwnerFound(p.users, client);
  }

  lemma RecordedOrNot(c: Conventions, p: Policy, client: string, username: string, ip: string, now: string)
    requires Normal(c, p) && Fit(client, username, ip, now) && |p.users| > 0
    requires Match(c, p.users, client, username) == Some(0) && CaseVariant(c, p.users[0].ips, ip)
    ensures var written := Register(c, p, client, username, ip, now).value;
            var loaded := Validate(c, PolicyJson(written));
            && loaded.Ok? && loaded != Ok(written)
            && |loaded.value.users| > 0 && loaded.value.users[0].ips == Staying(p.users[0].ips)
  {
    CaseVariantIsDropped(c, p, client, username, ip, now, 0);
    WrittenIsFixedIff(c, p, client, username, ip, now);
  }

  /** A user of a stored policy, as it is loaded */
  lemma ReadBackUser(c: Conventions, q: Policy, i: nat)
    requires Sound(c, q) && i < |q.users|
    ensures var loaded := Validate(c, PolicyJson(q));
            loaded.Ok? && i < |loaded.value.users| && loaded.value.users[i] == Settled(c, q.users[i])
  {
    ReadBack(c, q);
  }

  // ---------- Histories ----------

  datatype Request = Request(client: Json, username: Json, ip: Json, now: string)

  const DEFAULT := Policy([], DEFAULT_TOOLS)

  /** `load_access_policy`: the file may be missing. */
  function Load(c: Conventions, stored: Option<Json>): Result<Policy> {
    match stored case None => Ok(DEFAULT) case Some(payload) => Validate(c, payload)
  }

  /** `register_remote_user` */
  function Registered(c: Conventions, stored: Option<Json>, r: Request): Result<Policy> {
    match ReadClientId(c, r.client)
    case Err(e) => Err(e)
    case Ok(client) =>
      match ReadUsername(c, r.username)
      case Err(e) => Err(e)
      case Ok(username) =>
        match Load(c, stored)
        case Err(e) => Err(e)
        case Ok(p) => Register(c, p, client, username, Plain(c, r.ip), r.now)
  }

  /** A request is granted exactly if its client and its name are well formed, the file can be loaded and there
      is room; then the file loaded is booked on. */
  lemma RegisteredExact(c: Conventions, stored: Option<Json>, r: Request)
    ensures var client, username := Plain(c, r.client), Plain(c, r.username);
            var p, after := Load(c, stored), Registered(c, stored, r);
            && (after.Ok? <==> IsClientId(client) && IsUsername(username) && p.Ok?
                               && !Full(c, p.value.users, client, username))
            && (after.Ok? ==> Books(c, p.value, client, username, Plain(c, r.ip), r.now, after.value,
                                    Place(c, p.value.users, client, username)))
  {
    if Load(c, stored).Ok? {
      LoadedSound(c, stored);
      RegisterExact(c, Load(c, stored).value, Plain(c, r.client), Plain(c, r.username), Plain(c, r.ip), r.now);
    }
  }

  /** The file after a registration: it is only written when the registration succeeds. */
  function Step(c: Conventions, stored: Option<Json>, r: Request): Option<Json> {
    match Registered(c, stored, r) case Err(_) => stored case Ok(p) => Some(PolicyJson(p))
  }

  function Run(c: Conventions, stored: Option<Json>, rs: seq<Request>): Option<Json>
    decreases |rs|
  {
    if rs == [] then stored else Run(c, Step(c, stored, rs[0]), rs[1..])
  }

  lemma NoUsersSound(c: Conventions, tools: seq<string>)
    requires AllEntries(tools) && |tools| <= MAX_FILTERED_TOOLS
    ensures Sound(c, Policy([], tools))
  {
  }

  lemma DefaultSound(c: Conventions)
    ensures Sound(c, DEFAULT)
  {
    DefaultToolsGood();
    NoUsersSound(c, DEFAULT_TOOLS);
  }

  lemma LoadedSound(c: Conventions, stored: Option<Json>)
    requires Load(c, stored).Ok?
    ensures Sound(c, Load(c, stored).value)
  {
    match stored
    case None => DefaultSound(c);
    case Some(payload) => ValidatedIsNormal(c, payload);
  }

  lemma RequestFit(c: Conventions, r: Request)
    requires ReadClientId(c, r.client).Ok? && ReadUsername(c, r.username).Ok? && Stripped(r.now)
    ensures Fit(ReadClientId(c, r.client).value, ReadUsername(c, r.username).value, Plain(c, r.ip), r.now)
  {
    PlainIsStripped(c, r.ip);
  }

  /** After a registration the file can be loaded, and the users are still those. */
  lemma StepLoads(c: Conventions, stored: Option<Json>, r: Request)
    requires Load(c, stored).Ok? && Stripped(r.now)
    ensures Load(c, Step(c, stored, r)).Ok?
    ensures SameUsers(Load(c, stored).value, Load(c, Step(c, stored, r)).value)
  {
    if Registered(c, stored, r).Ok? {
      var client, username := ReadClientId(c, r.client).value, ReadUsername(c, r.username).value;
      var p, q := Load(c, stored).value, Registered(c, stored, r).value;
      RequestFit(c, r);
      LoadedSound(c, stored);
      RegisterSound(c, p, client, username, Plain(c, r.ip), r.now);
      RegisterExact(c, p, client, username, Plain(c, r.ip), r.now);
      ReadBack(c, q);
    }
  }

  /** Over any sequence of registrations the stored policy passes validation; users keep their places,
      names and developer flags; and what is loaded has distinct names and one user a client. */
  lemma {:induction false} RunLoads(c: Conventions, stored: Option<Json>, rs: seq<Request>)
    requires Load(c, stored).Ok? && forall i :: 0 <= i < |rs| ==> Stripped(rs[i].now)
    ensures Load(c, Run(c, stored, rs)).Ok?
    ensures SameUsers(Load(c, stored).value, Load(c, Run(c, stored, rs)).value)
    ensures Sound(c, Load(c, Run(c, stored, rs)).value)
    decreases |rs|
  {
    LoadedSound(c, stored);
    if rs != [] {
      StepLoads(c, stored, rs[0]);
      RunLoads(c, Step(c, stored, rs[0]), rs[1..]);
    }
  }

  /** A registration keeps a binding unless it evicts it, and gives a user at most one client more. */
  lemma StepBinds(c: Conventions, stored: Option<Json>, r: Request, j: nat, id: string)
    requires Load(c, stored).Ok? && Stripped(r.now)
    requires j < |Load(c, stored).value.users| && id in Load(c, stored).value.users[j].clientIds
    requires |Load(c, stored).value.users[j].clientIds| < MAX_PER_USER
    ensures var after := Load(c, Step(c, stored, r));
            && after.Ok? && j < |after.value.users| && id in after.value.users[j].clientIds
            && |after.value.users[j].clientIds| <= |Load(c, stored).value.users[j].clientIds| + 1
  {
    if Registered(c, stored, r).Ok? {
      var client, username := ReadClientId(c, r.client).value, ReadUsername(c, r.username).value;
      var p, q := Load(c, stored).value, Registered(c, stored, r).value;
      RequestFit(c, r);
      LoadedSound(c, stored);
      RegisterBinds(c, p, client, username, Plain(c, r.ip), r.now, j, id);
    }
  }

  lemma RegisterAdds(c: Conventions, p: Policy, client: string, username: string, ip: string, now: string, j: nat,
                     id: string)
    requires Sound(c, p) && Fit(client, username, ip, now)
    requires Register(c, p, client, username, ip, now).Ok?
    requires j < |p.users| && id in p.users[j].clientIds && |p.users[j].clientIds| < MAX_PER_USER
    ensures var q := Register(c, p, client, username, ip, now).value;
            && j < |q.users| && id in q.users[j].clientIds
            && |q.users[j].clientIds| <= |p.users[j].clientIds| + 1
  {
    BindingKeptIff(c, p, client, username, ip, now, j, id);
  }

  lemma RegisterBinds(c: Conventions, p: Policy, client: string, username: string, ip: string, now: string, j: nat,
                      id: string)
    requires Sound(c, p) && Fit(client, username, ip, now)
    requires Register(c, p, client, username, ip, now).Ok?
    requires j < |p.users| && id in p.users[j].clientIds && |p.users[j].clientIds| < MAX_PER_USER
    ensures var q := Register(c, p, client, username, ip, now).value;
            var after := Validate(c, PolicyJson(q));
            && after.Ok? && j < |after.value.users| && id in after.value.users[j].clientIds
            && |after.value.users[j].clientIds| <= |p.users[j].clientIds| + 1
  {
    var q := Register(c, p, client, username, ip, now).value;
    RegisterSound(c, p, client, username, ip, now);
    RegisterAdds(c, p, client, username, ip, now, j, id);
    ReadBackUser(c, q, j);
  }

  /** A bound client keeps its user over every history too short for a hundred other clients to come. */
  lemma {:induction false} RunBinds(c: Conventions, stored: Option<Json>, rs: seq<Request>, j: nat, id: string)
    requires Load(c, stored).Ok? && forall i :: 0 <= i < |rs| ==> Stripped(rs[i].now)
    requires j < |Load(c, stored).value.users| && id in Load(c, stored).value.users[j].clientIds
    requires |Load(c, stored).value.users[j].clientIds| + |rs| <= MAX_PER_USER
    ensures var after := Load(c, Run(c, stored, rs));
            after.Ok? && j < |after.value.users| && id in after.value.users[j].clientIds
    decreases |rs|
  {
    if rs != [] {
      StepBinds(c, stored, rs[0], j, id);
      RunBinds(c, Step(c, stored, rs[0]), rs[1..], j, id);
    }
  }

  // ---------- Bindings over a history ----------

  ghost predicate Bound(c: Conventions, stored: Option<Json>, j: nat, id: string) {
    var p := Load(c, stored);
    p.Ok? && j < |p.value.users| && id in p.value.users[j].clientIds
  }

  /** The request comes from this client. */
  predicate From(c: Conventions, r: Request, id: string) { ReadClientId(c, r.client) == Ok(id) }

  /** The request is granted and takes the client from the user. */
  ghost predicate EvictedBy(c: Conventions, stored: Option<Json>, r: Request, j: nat, id: string) {
    && Bound(c, stored, j, id) && Registered(c, stored, r).Ok?
    && Evicts(c, Load(c, stored).value, ReadClientId(c, r.client).value, ReadUsername(c, r.username).value, j, id)
  }

  ghost predicate EvictedIn(c: Conventions, stored: Option<Json>, rs: seq<Request>, j: nat, id: string)
    decreases |rs|
  {
    rs != [] && (EvictedBy(c, stored, rs[0], j, id) || EvictedIn(c, Step(c, stored, rs[0]), rs[1..], j, id))
  }

  /** What a registration makes of a binding, as it is loaded */
  lemma RegisterMoves(c: Conventions, p: Policy, client: string, username: string, ip: string, now: string, j: nat,
                      id: string)
    requires Sound(c, p) && Fit(client, username, ip, now) && j < |p.users|
    requires Register(c, p, client, username, ip, now).Ok?
    ensures var q := Register(c, p, client, username, ip, now).value;
            && j < |q.users|
            && (id in p.users[j].clientIds ==> (id in q.users[j].clientIds <==> !Evicts(c, p, client, username, j, id)))
            && (id !in p.users[j].clientIds && id != client ==> id !in q.users[j].clientIds)
  {
    if id in p.users[j].clientIds {
      BindingKeptIff(c, p, client, username, ip, now, j, id);
    } else if Match(c, p.users, client, username) == Some(j) {
      WithClientStorable(p.users[j].(last := now), client);
    }
  }

  lemma StepMoves(c: Conventions, stored: Option<Json>, r: Request, j: nat, id: string)
    requires Load(c, stored).Ok? && Stripped(r.now) && j < |Load(c, stored).value.users|
    ensures Bound(c, stored, j, id) ==> (Bound(c, Step(c, stored, r), j, id) <==> !EvictedBy(c, stored, r, j, id))
    ensures !Bound(c, stored, j, id) && !From(c, r, id) ==> !Bound(c, Step(c, stored, r), j, id)
  {
    if Registered(c, stored, r).Ok? {
      var client, username := ReadClientId(c, r.client).value, ReadUsername(c, r.username).value;
      RequestFit(c, r);
      LoadedSound(c, stored);
      RegisterSound(c, Load(c, stored).value, client, username, Plain(c, r.ip), r.now);
      RegisterMoves(c, Load(c, stored).value, client, username, Plain(c, r.ip), r.now, j, id);
      ReadBackUser(c, Registered(c, stored, r).value, j);
    }
  }

  lemma {:induction false} RunUnbound(c: Conventions, stored: Option<Json>, rs: seq<Request>, j: nat, id: string)
    requires Load(c, stored).Ok? && j < |Load(c, stored).value.users| && !Bound(c, stored, j, id)
    requires forall i :: 0 <= i < |rs| ==> Stripped(rs[i].now) && !From(c, rs[i], id)
    ensures !Bound(c, Run(c, stored, rs), j, id)
    decreases |rs|
  {
    if rs != [] {
      StepMoves(c, stored, rs[0], j, id);
      StepLoads(c, stored, rs[0]);
      RunUnbound(c, Step(c, stored, rs[0]), rs[1..], j, id);
    }
  }

  /** Over every history a client stays bound to its user unless one of the registrations evicts it, and if
      none of them is its own, exactly then. */
  lemma {:induction false} RunBindsIff(c: Conventions, stored: Option<Json>, rs: seq<Request>, j: nat, id: string)
    requires Bound(c, stored, j, id) && forall i :: 0 <= i < |rs| ==> Stripped(rs[i].now)
    ensures !EvictedIn(c, stored, rs, j, id) ==> Bound(c, Run(c, stored, rs), j, id)
    ensures (forall i :: 0 <= i < |rs| ==> !From(c, rs[i], id)) && EvictedIn(c, stored, rs, j, id) ==>
            !Bound(c, Run(c, stored, rs), j, id)
    decreases |rs|
  {
    if rs != [] {
      var next := Step(c, stored, rs[0]);
      StepMoves(c, stored, rs[0], j, id);
      StepLoads(c, stored, rs[0]);
      if EvictedBy(c, stored, rs[0], j, id) {
        if forall i :: 0 <= i < |rs| ==> !From(c, rs[i], id) { RunUnbound(c, next, rs[1..], j, id); }
      } else {
        RunBindsIff(c, next, rs[1..], j, id);
      }
    }
  }
}
