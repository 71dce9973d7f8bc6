/** Loading the tools of a skill (nodes/agent_skill_runtime.py, `_bundle`): modules, servers and scripts, each
    skill and each server at most once. Loading may fail at any call. */
module SkillLoading {
  import opened Results
  import opened SkillStaging
  import opened ToolRegistry

  datatype Definition =
    Definition(modules: seq<Name>, servers: seq<Name>, scripts: seq<Entry>, roots: Roots, conversation: bool)

  /** What loading gives at one call: the entries of each tool module and MCP server that loads. */
  datatype Env = Env(modules: map<Name, seq<Entry>>, servers: map<Name, seq<Entry>>)

  const MCP_LOAD_ERROR := "mcp"

  type Servers = map<Name, Tools>

  /** The module loop of `_bundle` */
  function AddModules(t: Tools, modules: seq<Name>, env: Env, prompts: Prompts): Result<Tools>
    decreases |modules|
  {
    if modules == [] then Ok(t)
    else if modules[0] !in env.modules then Err("ToolLoadError")
    else
      var next :- RegisterAll(t, env.modules[modules[0]], prompts);
      AddModules(next, modules[1..], env, prompts)
  }

  /** The registry of one MCP server, loaded at most once */
  function ServerTools(server: Name, known: Servers, controls: Tools, env: Env, prompts: Prompts): Result<Tools> {
    if server in known then Ok(known[server])
    else if server !in env.servers then Err(MCP_LOAD_ERROR)
    else RegisterAll(controls, env.servers[server], prompts)
  }

  /** The server loop of `_bundle`: the registry, and the servers known afterwards, also on failure */
  function AddServers(t: Tools, servers: seq<Name>, known: Servers, controls: Tools, env: Env,
                      prompts: Prompts): (Result<Tools>, Servers)
    decreases |servers|
  {
    if servers == [] then (Ok(t), known) else
      match ServerTools(servers[0], known, controls, env, prompts)
      case Err(e) => (Err(e), known)
      case Ok(tools) =>
        var known' := known[servers[0] := tools];
        match Merge(t, tools, prompts)
        case Err(e) => (Err(e), known')
        case Ok(next) => AddServers(next, servers[1..], known', controls, env, prompts)
  }

  /** `_bundle` for a skill that is not cached */
  function Assemble(d: Definition, known: Servers, controls: Tools, env: Env,
                    prompts: Prompts): (Result<Bundle>, Servers) {
    match AddModules(controls, d.modules, env, prompts)
    case Err(e) => (Err(e), known)
    case Ok(t) =>
      var (withServers, known') := AddServers(t, d.servers, known, controls, env, prompts);
      match withServers
      case Err(e) => (Err(e), known')
      case Ok(t') =>
        match RegisterAll(t', d.scripts, prompts)
        case Err(e) => (Err(e), known')
        case Ok(tools) => (Ok(Bundle(tools, d.roots)), known')
  }

  ghost predicate ServersBuilt(known: Servers, prompts: Prompts) { forall n :: n in known ==> Built(known[n], prompts) }

  lemma {:induction false} AddModulesBuilt(t: Tools, modules: seq<Name>, env: Env, prompts: Prompts)
    requires Built(t, prompts) && AddModules(t, modules, env, prompts).Ok?
    ensures Built(AddModules(t, modules, env, prompts).value, prompts)
    decreases |modules|
  {
    if modules != [] {
      RegisterAllBuilt(t, env.modules[modules[0]], prompts);
      AddModulesBuilt(RegisterAll(t, env.modules[modules[0]], prompts).value, modules[1..], env, prompts);
    }
  }

  ghost predicate Keeps(known: Servers, known': Servers) {
    forall n :: n in known ==> n in known' && known'[n] == known[n]
  }

  lemma ServerBuilt(server: Name, known: Servers, controls: Tools, env: Env, prompts: Prompts)
    requires Built(controls, prompts) && ServersBuilt(known, prompts)
            && ServerTools(server, known, controls, env, prompts).Ok?
    ensures Built(ServerTools(server, known, controls, env, prompts).value, prompts)
  {
    if server !in known {
      RegisterAllBuilt(controls, env.servers[server], prompts);
    }
  }

  lemma {:induction false} AddServersBuilt(t: Tools, servers: seq<Name>, known: Servers, controls: Tools, env: Env,
                                           prompts: Prompts)
    requires Built(t, prompts) && Built(controls, prompts) && ServersBuilt(known, prompts)
    ensures var (r, known') := AddServers(t, servers, known, controls, env, prompts);
            ServersBuilt(known', prompts) && (r.Ok? ==> Built(r.value, prompts)) && Keeps(known, known')
    decreases |servers|
  {
    if servers != [] {
      var loaded := ServerTools(servers[0], known, controls, env, prompts);
      if loaded.Ok? {
        ServerBuilt(servers[0], known, controls, env, prompts);
        var merged := Merge(t, loaded.value, prompts);
        if merged.Ok? {
          MergeFromBuilt(t, Lookup(t.declarations), loaded.value.declarations, loaded.value.functions, prompts);
          AddServersBuilt(merged.value, servers[1..], known[servers[0] := loaded.value], controls, env, prompts);
        }
      }
    }
  }

  /** Whatever is assembled is a registry built by registration, and no loaded server changes. */
  lemma AssembleBuilt(d: Definition, known: Servers, controls: Tools, env: Env, prompts: Prompts)
    requires Built(controls, prompts) && ServersBuilt(known, prompts)
    ensures var (r, known') := Assemble(d, known, controls, env, prompts);
            ServersBuilt(known', prompts) && (r.Ok? ==> Built(r.value.tools, prompts)) && Keeps(known, known')
  {
    var modules := AddModules(controls, d.modules, env, prompts);
    if modules.Ok? {
      AddModulesBuilt(controls, d.modules, env, prompts);
      AddServersBuilt(modules.value, d.servers, known, controls, env, prompts);
      var t' := AddServers(modules.value, d.servers, known, controls, env, prompts).0;
      if t'.Ok? && RegisterAll(t'.value, d.scripts, prompts).Ok? {
        RegisterAllBuilt(t'.value, d.scripts, prompts);
      }
    }
  }

  // ---------- The cache ----------

  /** What is fixed for a runtime */
  datatype Setup = Setup(definitions: map<Name, Definition>, controls: Tools, prompts: Prompts)

  datatype Cache = Cache(bundles: Bundles, servers: Servers)

  /** The cache after a skill was loaded, or nothing if it cannot be */
  function LoadOne(s: Setup, name: Name, cache: Cache, env: Env): Option<Cache>
    requires name in s.definitions
  {
    if name in cache.bundles then Some(cache) else
      match Assemble(s.definitions[name], cache.servers, s.controls, env, s.prompts)
      case (Ok(bundle), servers) => Some(Cache(cache.bundles[name := bundle], servers))
      case (Err(_), _) => None
  }

  predicate AllDefined(s: Setup, names: seq<Name>) { forall i :: 0 <= i < |names| ==> names[i] in s.definitions }

  predicate AllIn(names: seq<Name>, bundles: Bundles) { forall i :: 0 <= i < |names| ==> names[i] in bundles }

  /** The cache after all these skills were loaded one after another, or nothing if one cannot be */
  function LoadAll(s: Setup, names: seq<Name>, cache: Cache, env: Env): Option<Cache>
    requires AllDefined(s, names)
    decreases |names|
  {
    if names == [] then Some(cache) else
      match LoadOne(s, names[0], cache, env)
      case None => None
      case Some(next) => LoadAll(s, names[1..], next, env)
  }

  ghost predicate Grows(before: Bundles, after: Bundles) {
    forall n :: n in before ==> n in after && after[n] == before[n]
  }

  /** Loading adds the skills that are loaded and changes nothing else. */
  lemma {:induction false} LoadAllGrows(s: Setup, names: seq<Name>, cache: Cache, env: Env)
    requires AllDefined(s, names) && LoadAll(s, names, cache, env).Some?
    ensures Grows(cache.bundles, LoadAll(s, names, cache, env).value.bundles)
    ensures AllIn(names, LoadAll(s, names, cache, env).value.bundles)
    decreases |names|
  {
    if names != [] {
      LoadAllGrows(s, names[1..], LoadOne(s, names[0], cache, env).value, env);
      var after := LoadAll(s, names, cache, env).value.bundles;
      forall i | 0 <= i < |names| ensures names[i] in after {
        if i > 0 { assert names[i] == names[1..][i - 1]; }
      }
    }
  }

  /** What is cached needs no loading. */
  lemma {:induction false} LoadAllCached(s: Setup, names: seq<Name>, cache: Cache, env: Env)
    requires AllDefined(s, names) && AllIn(names, cache.bundles)
    ensures LoadAll(s, names, cache, env) == Some(cache)
    decreases |names|
  {
    if names != [] { LoadAllCached(s, names[1..], cache, env); }
  }

  /** Nothing that is needed can be missing when a skill without parts is loaded. */
  lemma LoadBare(s: Setup, name: Name, cache: Cache, env: Env)
    requires name in s.definitions && name !in cache.bundles
    requires var d := s.definitions[name]; d.modules == [] && d.servers == [] && d.scripts == []
    ensures LoadAll(s, [name], cache, env) ==
            Some(Cache(cache.bundles[name := Bundle(s.controls, s.definitions[name].roots)], cache.servers))
  {
    assert [name][1..] == [];
  }

  // ---------- Loading what can be loaded ----------

  /** Whether a skill could be loaded, and the cache afterwards. A server that does not load costs the skill
      only, and the servers that did load before it stay; any other failure is an error. */
  function TryLoad(s: Setup, name: Name, cache: Cache, env: Env): Result<(bool, Cache)>
    requires name in s.definitions
  {
    if name in cache.bundles then Ok((true, cache)) else
      match Assemble(s.definitions[name], cache.servers, s.controls, env, s.prompts)
      case (Ok(bundle), servers) => Ok((true, Cache(cache.bundles[name := bundle], servers)))
      case (Err(e), servers) => if e == MCP_LOAD_ERROR then Ok((false, Cache(cache.bundles, servers))) else Err(e)
  }

  /** The skills that could be loaded of these, besides those that were chosen before, and the cache afterwards */
  function LoadMore(s: Setup, names: seq<Name>, cache: Cache, env: Env, chosen: set<Name>): Result<(set<Name>, Cache)>
    requires AllDefined(s, names)
    decreases |names|
  {
    if names == [] then Ok((chosen, cache)) else
      match TryLoad(s, names[0], cache, env)
      case Err(e) => Err(e)
      case Ok((loaded, next)) => LoadMore(s, names[1..], next, env, if loaded then chosen + {names[0]} else chosen)
  }

  /** The loading loop of `restore` */
  function LoadEach(s: Setup, names: seq<Name>, cache: Cache, env: Env): Result<(set<Name>, Cache)>
    requires AllDefined(s, names)
  {
    LoadMore(s, names, cache, env, {})
  }

  /** Chosen is exactly what is loaded in the end; nothing else is loaded, and what was loaded stays. */
  lemma {:induction false} LoadMoreExact(s: Setup, names: seq<Name>, cache: Cache, env: Env, chosen: set<Name>)
    requires AllDefined(s, names) && LoadMore(s, names, cache, env, chosen).Ok? && chosen <= cache.bundles.Keys
    ensures var (all, after) := LoadMore(s, names, cache, env, chosen).value;
            && Grows(cache.bundles, after.bundles)
            && (forall n :: n in all <==> n in chosen || (n in names && n in after.bundles))
            && (forall n :: n in after.bundles ==> n in cache.bundles || n in names)
    decreases |names|
  {
    if names != [] {
      var (loaded, next) := TryLoad(s, names[0], cache, env).value;
      var more := if loaded then chosen + {names[0]} else chosen;
      LoadMoreExact(s, names[1..], next, env, more);
      assert names == [names[0]] + names[1..];
    }
  }
}
