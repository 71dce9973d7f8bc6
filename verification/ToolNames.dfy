/** The function names given to remote tools: `materialize_mcp_server_tools` of nodes/agent_mcp_runtime.py,
    `materialize_plugin_tool_definitions` and `dedupe_plugin_tool_definitions` of
    nodes/agent_plugin_tool_loader.py. */
module ToolNames {
  import opened Results
  import opened Text
  import opened FunctionNames
  import opened NameClaims

  /** A tool that a server lists */
  datatype Offer = Offer(server: string, remote: string)

  datatype Server = Server(name: string, tools: seq<string>)

  function Identity(o: Offer): string { o.server + ":" + o.remote }

  /** `_materialized_function_name` */
  function FunctionName(o: Offer): string { Qualified("mcp", SafeText(o.server), SafeText(o.remote)) }

  /** The tool has a name, and both names can be converted. */
  predicate Nameable(o: Offer) { o.remote != [] && SafeText(o.server) != [] && SafeText(o.remote) != [] }

  /** The collision check of `materialize_mcp_server_tools` under a tool filter */
  function Naming(allows: Offer -> bool): Rules<Offer, string, string> {
    Rules(Nameable, allows, FunctionName, Identity)
  }

  function Offered(s: Server): seq<Offer> { seq(|s.tools|, i requires 0 <= i < |s.tools| => Offer(s.name, s.tools[i])) }

  function Listed(servers: seq<Server>): seq<seq<Offer>> {
    seq(|servers|, i requires 0 <= i < |servers| => Offered(servers[i]))
  }

  /** All tools that the servers list */
  function Offers(servers: seq<Server>): seq<Offer> { Flat(Listed(servers)) }

  /** The place of a tool: its server and its number there */
  datatype Spot = Spot(server: nat, tool: nat)

  predicate Before(a: Spot, b: Spot) { a.server < b.server || (a.server == b.server && a.tool < b.tool) }

  predicate IsSpot(servers: seq<Server>, p: Spot) { p.server < |servers| && p.tool < |servers[p.server].tools| }

  /** The tool listed there, under the name of its server */
  function At(servers: seq<Server>, p: Spot): Offer
    requires IsSpot(servers, p)
  {
    Offer(servers[p.server].name, servers[p.server].tools[p.tool])
  }

  /** Every tool can be named. */
  ghost predicate EveryNameable(servers: seq<Server>) {
    forall p: Spot | IsSpot(servers, p) :: Nameable(At(servers, p))
  }

  /** No two tools that pass the filter share a function name but not an identity. */
  ghost predicate Distinguished(allows: Offer -> bool, servers: seq<Server>) {
    forall p: Spot, q: Spot | IsSpot(servers, p) && IsSpot(servers, q) :: Agree(allows, At(servers, p), At(servers, q))
  }

  predicate Agree(allows: Offer -> bool, o: Offer, o': Offer) {
    allows(o) && allows(o') && FunctionName(o) == FunctionName(o') ==> Identity(o) == Identity(o')
  }

  /** The tools of these places, which are those of all the tools that pass the filter, server by server and in
      the order of the lists. */
  ghost predicate Gives(allows: Offer -> bool, servers: seq<Server>, given: seq<Offer>, spots: seq<Spot>) {
    && |spots| == |given|
    && (forall k :: 0 <= k < |spots| ==>
          IsSpot(servers, spots[k]) && given[k] == At(servers, spots[k]) && allows(given[k]))
    && (forall k, l :: 0 <= k < l < |spots| ==> Before(spots[k], spots[l]))
    && (forall p: Spot | IsSpot(servers, p) && allows(At(servers, p)) :: p in spots)
  }

  function All(): Offer -> bool { _ => true }

  lemma ListedSnoc(before: seq<Server>, s: Server)
    ensures Offers(before + [s]) == Offers(before) + Offered(s)
  {
    assert Listed(before + [s]) == Listed(before) + [Offered(s)];
    FlatSnoc(Listed(before), Offered(s));
  }

  lemma GivesSnoc(before: seq<Server>, s: Server, offers: seq<Offer>, spots: seq<Spot>)
    requires Gives(All(), before, offers, spots)
    ensures var more := seq(|s.tools|, j requires 0 <= j < |s.tools| => Spot(|before|, j));
            Gives(All(), before + [s], offers + Offered(s), spots + more)
  {
    var servers, more := before + [s], seq(|s.tools|, j requires 0 <= j < |s.tools| => Spot(|before|, j));
    forall k | 0 <= k < |spots + more|
      ensures IsSpot(servers, (spots + more)[k]) && (offers + Offered(s))[k] == At(servers, (spots + more)[k])
    {
      if k < |spots| { assert IsSpot(before, spots[k]); }
    }
    forall p: Spot | IsSpot(servers, p) ensures p in spots + more {
      if p.server < |before| {
        assert IsSpot(before, p) && All()(At(before, p));
      } else {
        assert more[p.tool] == p;
      }
    }
  }

  lemma {:induction false} OffersExact(servers: seq<Server>) returns (spots: seq<Spot>)
    ensures Gives(All(), servers, Offers(servers), spots)
  {
    spots := [];
    if servers != [] {
      var before, s := servers[..|servers| - 1], servers[|servers| - 1];
      assert servers == before + [s];
      spots := OffersExact(before);
      ListedSnoc(before, s);
      GivesSnoc(before, s, Offers(before), spots);
      spots := spots + seq(|s.tools|, j requires 0 <= j < |s.tools| => Spot(|before|, j));
    }
  }

  function Those(all: seq<Spot>, at: seq<nat>): seq<Spot>
    requires forall k :: 0 <= k < |at| ==> at[k] < |all|
  {
    seq(|at|, k requires 0 <= k < |at| => all[at[k]])
  }

  lemma ThoseIncrease(all: seq<Spot>, at: seq<nat>)
    requires forall k :: 0 <= k < |at| ==> at[k] < |all|
    requires forall k, l :: 0 <= k < l < |at| ==> at[k] < at[l]
    requires forall k, l :: 0 <= k < l < |all| ==> Before(all[k], all[l])
    ensures forall k, l :: 0 <= k < l < |at| ==> Before(Those(all, at)[k], Those(all, at)[l])
  {
  }

  lemma PassesThere(allows: Offer -> bool, servers: seq<Server>, all: seq<Spot>, picked: seq<Offer>, at: seq<nat>,
                    p: Spot)
    requires Gives(All(), servers, Offers(servers), all) && Passes(Naming(allows), Offers(servers), picked, at)
    requires IsSpot(servers, p) && allows(At(servers, p))
    ensures p in Those(all, at)
  {
    assert All()(At(servers, p));
    var i: nat :| i < |all| && all[i] == p;
    assert Naming(allows).allows(Offers(servers)[i]) && i in at;
    var k :| 0 <= k < |at| && at[k] == i;
    assert Those(all, at)[k] == p;
  }

  lemma AllowedThere(allows: Offer -> bool, servers: seq<Server>, all: seq<Spot>, picked: seq<Offer>, at: seq<nat>)
    requires Gives(All(), servers, Offers(servers), all) && Passes(Naming(allows), Offers(servers), picked, at)
    ensures forall k :: 0 <= k < |at| ==>
              IsSpot(servers, Those(all, at)[k]) && picked[k] == At(servers, Those(all, at)[k]) && allows(picked[k])
  {
    forall k | 0 <= k < |at|
      ensures IsSpot(servers, Those(all, at)[k]) && picked[k] == At(servers, Those(all, at)[k]) && allows(picked[k])
    {
      assert IsSpot(servers, all[at[k]]) && Naming(allows).allows(picked[k]);
    }
  }

  /** What is picked from all offers, as places */
  lemma PickedGives(allows: Offer -> bool, servers: seq<Server>) returns (spots: seq<Spot>)
    ensures Gives(allows, servers, Picked(Naming(allows), Offers(servers)), spots)
  {
    var picked := Picked(Naming(allows), Offers(servers));
    var all := OffersExact(servers);
    var at := PickedExact(Naming(allows), Offers(servers));
    spots := Those(all, at);
    ThoseIncrease(all, at);
    AllowedThere(allows, servers, all, picked, at);
    forall p: Spot | IsSpot(servers, p) && allows(At(servers, p)) ensures p in spots {
      PassesThere(allows, servers, all, picked, at, p);
    }
  }

  lemma NameableIff(allows: Offer -> bool, servers: seq<Server>)
    ensures AllNameable(Naming(allows), Offers(servers)) <==> EveryNameable(servers)
  {
    var r, offers := Naming(allows), Offers(servers);
    var all := OffersExact(servers);
    if AllNameable(r, offers) {
      forall p: Spot | IsSpot(servers, p) ensures Nameable(At(servers, p)) {
        assert All()(At(servers, p));
        var i: nat :| i < |all| && all[i] == p;
        assert r.nameable(offers[i]);
      }
    }
    if EveryNameable(servers) {
      forall i | 0 <= i < |offers| ensures r.nameable(offers[i]) { assert IsSpot(servers, all[i]); }
    }
  }

  lemma ClashIff(allows: Offer -> bool, servers: seq<Server>)
    ensures NoClash(Naming(allows), Picked(Naming(allows), Offers(servers))) <==> Distinguished(allows, servers)
  {
    var r := Naming(allows);
    var picked := Picked(r, Offers(servers));
    var spots := PickedGives(allows, servers);
    if NoClash(r, picked) {
      forall p: Spot, q: Spot | IsSpot(servers, p) && IsSpot(servers, q)
        ensures Agree(allows, At(servers, p), At(servers, q))
      {
        var o, o' := At(servers, p), At(servers, q);
        if allows(o) && allows(o') && FunctionName(o) == FunctionName(o') {
          var i: nat :| i < |spots| && spots[i] == p;
          var j: nat :| j < |spots| && spots[j] == q;
          SameIdentity(r, picked, i, j);
        }
      }
    }
    if Distinguished(allows, servers) {
      forall i, j | 0 <= i < |picked| && 0 <= j < |picked| && r.name(picked[i]) == r.name(picked[j])
        ensures r.identity(picked[i]) == r.identity(picked[j])
      {
        assert Agree(allows, At(servers, spots[i]), At(servers, spots[j]));
      }
    }
  }

  /** `materialize_mcp_server_tools`: succeeds exactly if every tool can be named and no two that pass the
      filter share a function name but not an identity; it gives exactly those that pass, in order. */
  method Materialize(allows: Offer -> bool, servers: seq<Server>) returns (r: Result<seq<Offer>>)
    ensures r.Ok? <==> EveryNameable(servers) && Distinguished(allows, servers)
    ensures r.Ok? ==> exists spots :: Gives(allows, servers, r.value, spots)
  {
    r := ClaimGroups(Naming(allows), Listed(servers));
    NameableIff(allows, servers);
    ClashIff(allows, servers);
    ghost var spots := PickedGives(allows, servers);
  }

  // ---------- Identities ----------

  /** With these two server names an identity can be read in two ways. */
  predicate Ambiguous(s: string, s': string) { s + ":" <= s' || s' + ":" <= s }

  lemma IdentityTells(o: Offer, o': Offer)
    requires Identity(o) == Identity(o') && !Ambiguous(o.server, o'.server)
    ensures o == o'
  {
    ShorterServer(o, o');
    ShorterServer(o', o);
    var s := Identity(o);
    assert s[..|o.server|] == o.server && s[|o.server| + 1..] == o.remote;
    assert s[..|o'.server|] == o'.server && s[|o'.server| + 1..] == o'.remote;
  }

  lemma ShorterServer(o: Offer, o': Offer)
    requires Identity(o) == Identity(o')
    ensures |o.server| < |o'.server| ==> o.server + ":" <= o'.server
  {
    if |o.server| < |o'.server| {
      var s, k := Identity(o), |o.server| + 1;
      assert s[..k] == o.server + ":";
      assert s[..|o'.server|] == o'.server;
      assert o'.server[..k] == s[..k];
    }
  }

  lemma SameLength(o: Offer, o': Offer)
    requires Identity(o) == Identity(o')
    ensures |o.server| == |o'.server| ==> o.server == o'.server
  {
    assert Identity(o)[..|o.server|] == o.server && Identity(o')[..|o'.server|] == o'.server;
  }

  /** Two servers can have tools with one identity exactly if one name is the other's, a colon and more. */
  lemma AmbiguousIff(s: string, s': string)
    requires s != s'
    ensures (exists t, t' :: t != [] && t' != [] && Identity(Offer(s, t)) == Identity(Offer(s', t'))) <==>
            Ambiguous(s, s')
  {
    if Ambiguous(s, s') {
      if s + ":" <= s' { TwoReadings(s, s'); } else { TwoReadings(s', s); }
    }
    forall t, t' | Identity(Offer(s, t)) == Identity(Offer(s', t')) ensures Ambiguous(s, s') {
      ShorterServer(Offer(s, t), Offer(s', t'));
      ShorterServer(Offer(s', t'), Offer(s, t));
      SameLength(Offer(s, t), Offer(s', t'));
    }
  }

  lemma TwoReadings(s: string, s': string)
    requires s + ":" <= s'
    ensures exists t, t' :: t != [] && t' != [] && Identity(Offer(s, t)) == Identity(Offer(s', t'))
  {
    var t := s'[|s| + 1..] + ":" + "x";
    assert s' == s + ":" + s'[|s| + 1..];
    assert Identity(Offer(s, t)) == Identity(Offer(s', "x"));
  }

  predicate IsServerChar(c: char) { IsSafe(c) || c == '.' }

  /** The names that `_is_valid_mcp_server_name` lets through have no colon. */
  lemma ValidNamesAreClear(s: string, s': string)
    requires (forall i :: 0 <= i < |s| ==> IsServerChar(s[i])) && (forall i :: 0 <= i < |s'| ==> IsServerChar(s'[i]))
    ensures !Ambiguous(s, s') && !Confusable(s, s')
  {
    if |s| < |s'| { assert IsServerChar(s'[|s|]); }
    if |s'| < |s| { assert IsServerChar(s[|s'|]); }
  }

  /** An identity can be read in two ways, and both readings give one function name. */
  predicate Confusable(s: string, s': string) { Ambiguous(s, s') && Words(s) == Words(s') != [] }

  /** No function name is given to tools of two identities, and unless their servers can be confused, none
      is given to two tools. */
  lemma NamesTell(allows: Offer -> bool, offers: seq<Offer>, i: nat, j: nat)
    requires ClaimAll(Naming(allows), offers).Ok?
    requires var given := ClaimAll(Naming(allows), offers).value.items;
             i < |given| && j < |given| && FunctionName(given[i]) == FunctionName(given[j])
    ensures var given := ClaimAll(Naming(allows), offers).value.items;
            && Identity(given[i]) == Identity(given[j])
            && (given[i] == given[j] || Confusable(given[i].server, given[j].server))
  {
    var r := Naming(allows);
    ClaimAllExact(r, offers);
    var given := ClaimAll(r, offers).value.items;
    SameIdentity(r, given, i, j);
    PickedAreNameable(r, offers, i);
    PickedAreNameable(r, offers, j);
    OneNameMeans(given[i], given[j]);
  }

  lemma OneNameMeans(o: Offer, o': Offer)
    requires Nameable(o) && Nameable(o') && Identity(o) == Identity(o') && FunctionName(o) == FunctionName(o')
    ensures o == o' || Confusable(o.server, o'.server)
  {
    if Ambiguous(o.server, o'.server) {
      NameableHasWords(o);
      NameableHasWords(o');
      SameQualifiedIff("mcp", o.server, o.remote, o'.server, o'.remote);
    } else {
      IdentityTells(o, o');
    }
  }

  lemma NameableHasWords(o: Offer)
    ensures Nameable(o) ==> SafePart(o.server).Ok? && SafePart(o.remote).Ok? && Words(o.server) != []
    ensures Words(o.server) != [] && Words(o.remote) != [] && o.remote != [] ==> Nameable(o)
  {
    SafeTextIff(o.server);
    SafeTextIff(o.remote);
  }

  lemma SameIdentity(r: Rules<Offer, string, string>, given: seq<Offer>, i: nat, j: nat)
    requires NoClash(r, given) && i < |given| && j < |given| && r.name(given[i]) == r.name(given[j])
    ensures r.identity(given[i]) == r.identity(given[j])
  {
  }

  // ---------- When two tools can get one name ----------

  /** Two servers can have two tools that are given one function name exactly if they can be confused: one
      name is the other's, a colon and more, and has no more words. */
  lemma ConfusableIff(s: string, s': string)
    ensures Confusable(s, s') <==>
            exists o: Offer, o': Offer :: o.server == s && o'.server == s' && Share(Naming(_ => true), o, o')
  {
    if Confusable(s, s') {
      var o, o' := ConfusedPair(s, s');
    }
    forall o: Offer, o': Offer | o.server == s && o'.server == s' && Share(Naming(_ => true), o, o')
      ensures Confusable(s, s') {
      OneNameMeans(o, o');
    }
  }

  lemma ConfusedPair(s: string, s': string) returns (o: Offer, o': Offer)
    requires Confusable(s, s')
    ensures o.server == s && o'.server == s' && Share(Naming(_ => true), o, o')
  {
    if s + ":" <= s' {
      o, o' := Confuse(s, s');
    } else {
      o', o := Confuse(s', s);
    }
  }

  lemma Confuse(s: string, s': string) returns (o: Offer, o': Offer)
    requires s + ":" <= s' && Words(s) == Words(s') != []
    ensures o.server == s && o'.server == s' && Share(Naming(_ => true), o, o')
  {
    var more := s'[|s| + 1..];
    assert s' == s + [':'] + more;
    WordsAround(s, ':', more);
    o, o' := Offer(s, more + [':'] + "x"), Offer(s', "x");
    OtherReading(s, more, "x");
    WordsAround(more, ':', "x");
    OneWord();
    NamedTogether(o, o');
  }

  lemma OneWord()
    ensures Words("x") != []
  {
  }

  lemma OtherReading(s: string, more: string, t: string)
    ensures Identity(Offer(s, more + [':'] + t)) == Identity(Offer(s + [':'] + more, t))
  {
    assert s + ":" + (more + [':'] + t) == s + [':'] + more + ":" + t;
  }

  lemma NamedTogether(o: Offer, o': Offer)
    requires o != o' && Words(o.server) == Words(o'.server) != [] && Words(o.remote) == Words(o'.remote) != []
    requires o.remote != [] && o'.remote != [] && Identity(o) == Identity(o')
    ensures Share(Naming(_ => true), o, o')
  {
    SamePartIff(o.server, o'.server);
    SamePartIff(o.remote, o'.remote);
    NameableHasWords(o);
    NameableHasWords(o');
  }

  /** Such tools are both given the name when their servers list them. */
  lemma SharedIsGiven(o: Offer, o': Offer)
    ensures Share(Naming(_ => true), o, o') <==>
            o != o' && FunctionName(o) == FunctionName(o') && ClaimAll(Naming(_ => true), [o, o']).Ok?
  {
    PairClaimsIff(Naming(_ => true), o, o');
  }

  /** Two servers that can be confused, and one function name for two tools */
  lemma OneNameForTwoTools(a: Offer, b: Offer)
    requires a == Offer("a", ":x") && b == Offer("a:", "x")
    ensures a != b && FunctionName(a) == FunctionName(b) && ClaimAll(Naming(_ => true), [a, b]).Ok?
    ensures Confusable(a.server, b.server)
  {
    SharedIsGiven(a, b);
    SameWords();
    OneIdentity(a, b);
    NamedTogether(a, b);
    ColonAfter("a");
  }

  lemma ColonAfter(s: string)
    ensures Ambiguous(s, s + ":")
  {
  }

  /** Servers whose identities are ambiguous and that nevertheless are never confused */
  lemma AmbiguousYetClear()
    ensures Ambiguous("a", "a:b") && !Confusable("a", "a:b")
  {
    WordsAround("a", ':', "b");
    assert "a" + [':'] + "b" == "a:b";
    assert "a" + ":" <= "a:b";
    assert Words("a") == [Word("a")] && Words("b") == [Word("b")];
    assert |Words("a:b")| == 2;
  }

  lemma OneIdentity(a: Offer, b: Offer)
    requires a == Offer("a", ":x") && b == Offer("a:", "x")
    ensures a != b && Identity(a) == Identity(b)
  {
    assert |a.server| != |b.server|;
    assert Identity(a) == "a::x" == Identity(b);
  }

  lemma SameWords()
    ensures Words("a") == Words("a:") != [] && Words(":x") == Words("x") != []
  {
    WordsSnoc("a", ':');
    assert "a" + [':'] == "a:";
    WordsTail(":x");
    assert ":x"[1..] == "x";
  }

  // ---------- Plugins ----------

  datatype PluginTool = PluginTool(sourceName: string, name: string)

  function Source(t: PluginTool): string { Strip(if t.sourceName != [] then t.sourceName else t.name) }

  predicate Convertible(t: PluginTool) { Words(Source(t)) != [] }

  /** All names can be converted, and no two have the same words. */
  predicate Separable(plugin: string, tools: seq<PluginTool>) {
    && Words(plugin) != []
    && (forall i :: 0 <= i < |tools| ==> Convertible(tools[i]))
    && (forall i, j :: 0 <= i < j < |tools| ==> Words(Source(tools[i])) != Words(Source(tools[j])))
  }

  function PluginName(plugin: string, t: PluginTool): string {
    Qualified("plugin", SafeText(plugin), SafeText(Source(t)))
  }

  /** A turn of the loop that makes the names */
  function Named(plugin: string, t: PluginTool): Result<string> {
    match SafePart(Source(t)) case Err(e) => Err(e) case Ok(part) => Ok(Qualified("plugin", SafeText(plugin), part))
  }

  function Namer(plugin: string): PluginTool -> Result<string> { t => Named(plugin, t) }

  lemma NamedExact(plugin: string, t: PluginTool)
    ensures Named(plugin, t).Ok? <==> Convertible(t)
    ensures Named(plugin, t).Ok? ==> Named(plugin, t).value == PluginName(plugin, t)
  {
    SafePartExact(Source(t));
  }

  /** `materialize_plugin_tool_definitions`: succeeds exactly if all names can be converted and told apart
      by their words, and then gives every tool its own function name. */
  method MaterializePlugin(plugin: string, tools: seq<PluginTool>) returns (r: Result<seq<string>>)
    ensures r.Ok? <==> Separable(plugin, tools)
    ensures r.Ok? ==>
      && |r.value| == |tools|
      && (forall i :: 0 <= i < |tools| ==> r.value[i] == PluginName(plugin, tools[i]))
      && (forall i, j :: 0 <= i < j < |tools| ==> r.value[i] != r.value[j])
  {
    SafePartExact(plugin);
    var part := SafePart(plugin);
    if part.Err? {
      return Err(part.error);
    }
    forall t ensures Named(plugin, t).Ok? <==> Convertible(t) { NamedExact(plugin, t); }
    var names := ConvertAll(Namer(plugin), tools);
    if names.Err? {
      return Err(names.error);
    }
    NamesApart(plugin, tools, names.value);
    r := Separate(Key, [], names.value);
  }

  /** The key of `dedupe_plugin_tool_definitions`, whose loop is `Separate` */
  function Key(name: string): string { Strip(name) }

  lemma NamesApart(plugin: string, tools: seq<PluginTool>, names: seq<string>)
    requires Words(plugin) != [] && |names| == |tools|
    requires forall j :: 0 <= j < |tools| ==> Namer(plugin)(tools[j]) == Ok(names[j])
    ensures forall j :: 0 <= j < |tools| ==> names[j] == PluginName(plugin, tools[j])
    ensures forall i :: 0 <= i < |names| ==> names[i] != [] && Key(names[i]) == names[i]
    ensures forall i, j :: 0 <= i < j < |names| ==>
            (names[i] == names[j] <==> Words(Source(tools[i])) == Words(Source(tools[j])))
  {
    forall i | 0 <= i < |names|
      ensures Convertible(tools[i]) && names[i] == PluginName(plugin, tools[i]) && names[i] != []
              && Key(names[i]) == names[i]
    {
      NamedExact(plugin, tools[i]);
      NameIsStripped(plugin, tools[i]);
    }
    forall i, j | 0 <= i < j < |names|
      ensures names[i] == names[j] <==> Words(Source(tools[i])) == Words(Source(tools[j]))
    {
      PluginNamesTell(plugin, tools[i], tools[j]);
    }
  }

  lemma PluginNamesTell(plugin: string, t: PluginTool, u: PluginTool)
    requires Words(plugin) != [] && Convertible(t) && Convertible(u)
    ensures PluginName(plugin, t) == PluginName(plugin, u) <==> Words(Source(t)) == Words(Source(u))
  {
    SafePartExact(plugin);
    SafePartExact(Source(t));
    SafePartExact(Source(u));
    SameQualifiedIff("plugin", plugin, Source(t), plugin, Source(u));
  }

  lemma NameIsStripped(plugin: string, t: PluginTool)
    requires Convertible(t)
    ensures PluginName(plugin, t) != [] && Key(PluginName(plugin, t)) == PluginName(plugin, t)
  {
    SafePartExact(Source(t));
    EndsArePlain(SafeText(plugin), SafeText(Source(t)));
  }

  lemma EndsArePlain(x: string, y: string)
    requires y != [] && AllSafe(y)
    ensures Qualified("plugin", x, y) != [] && Stripped(Qualified("plugin", x, y))
  {
    var name := Qualified("plugin", x, y);
    assert name[0] == 'p' && name[|name| - 1] == y[|y| - 1];
    assert IsSafe(y[|y| - 1]);
  }
}
