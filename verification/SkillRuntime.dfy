/** Skill activation (nodes/agent_skill_runtime.py): the tools of the active skills, merged over the
    agent's own, staged in full before anything is changed. Loading and saving may fail at any call. */
module SkillRuntime {
  import opened Results
  import opened SkillLoading
  import opened SkillStaging
  import opened ToolRegistry

  /** What `change` reports. */
  datatype Report = Report(already: bool, tools: set<Name>, active: set<Name>)

  class Runtime {
    const definitions: map<Name, Definition>
    const prompts: Prompts
    const controls: Tools            // a new `BaseTool`, which holds the control tools
    const base: Tools             // the agent's tools when the runtime was made
    const baseRoots: Roots

    var active: set<Name>
    var bundles: Bundles
    var servers: Servers
    var live: Tools               // the agent's tools
    var roots: Roots              // the agent's skill resource roots
    var saved: set<Name>          // the skills on record for the conversation
    ghost var committed: bool     // whether anything was committed yet

    /** What `_commit` stages the skills over: a new registry, extended by the agent's own tools. */
    ghost function Start(): Tools {
      Tools(controls.functions + base.functions, controls.declarations + base.declarations)
    }

    /** The tools that a skill provides and neither the base nor any of the other skills does. */
    ghost function OnlyFrom(skill: Name, others: set<Name>): set<Name>
      requires skill in bundles && others <= bundles.Keys
      reads this`bundles
    {
      set n | n in bundles[skill].tools.functions && n !in Start().functions &&
              forall other :: other in others ==> n !in bundles[other].tools.functions
    }

    /** Every cached registry was built by registration. */
    ghost predicate Cached()
      reads this`bundles, this`servers
    {
      Built(controls, prompts) && InSync(base) && AllBuilt(bundles, prompts) && ServersBuilt(servers, prompts)
    }

    /** The agent's tools are those of the base and the active skills, and nothing else decides them. */
    ghost predicate Valid()
      reads this`active, this`bundles, this`servers, this`live, this`roots, this`committed
    {
      && Cached()
      && active <= bundles.Keys && active <= definitions.Keys
      && (if committed
          then Staged(Start(), active, bundles, prompts) == Ok(live) && roots == StagedRoots(baseRoots, active, bundles)
          else live == base && roots == baseRoots && active == {})
    }

    constructor (definitions: map<Name, Definition>, prompts: Prompts, controls: Tools, base: Tools, baseRoots: Roots,
                 saved: set<Name>)
      requires Built(controls, prompts) && InSync(base)
      ensures Valid() && !committed && active == {} && bundles == map[] && this.saved == saved
      ensures this.definitions == definitions && this.prompts == prompts && this.controls == controls
              && this.base == base
    {
      this.definitions, this.prompts, this.controls, this.base, this.baseRoots :=
        definitions, prompts, controls, base, baseRoots;
      active, bundles, servers := {}, map[], map[];
      live, roots, this.saved, committed := base, baseRoots, saved, false;
    }

    lemma StartInSync()
      requires Built(controls, prompts) && InSync(base)
      ensures InSync(Start())
    {
      LookupConcat(controls.declarations, base.declarations);
    }

    /** Caching more bundles changes nothing for the skills that were active. */
    lemma CachingKeeps(before: Bundles, names: set<Name>)
      requires names <= before.Keys && Extends(before)
      ensures names <= bundles.Keys
      ensures Staged(Start(), names, before, prompts) == Staged(Start(), names, bundles, prompts)
      ensures StagedRoots(baseRoots, names, before) == StagedRoots(baseRoots, names, bundles)
    {
      StageFrame(Start(), baseRoots, SortedNames(names), before, bundles, prompts);
    }

    /** A skill that brings no tools of its own is ready, if the agent's tools are the control tools. */
    lemma BareIsReady(skill: Name, env: Env)
      requires Cached() && base == controls && skill in definitions && skill !in bundles
      requires var d := definitions[skill]; d.modules == [] && d.servers == [] && d.scripts == []
      ensures Ready({skill}, env)
    {
      var names := OneSorted(skill);
      LoadBare(Setting(), skill, Now(), env);
      var loaded := LoadAll(Setting(), [skill], Now(), env).value;
      StartInSync();
      LookupConcat(controls.declarations, controls.declarations);
      StageExact(Start(), [skill], loaded.bundles, prompts);
    }

    /** The module loop of `_bundle` */
    method RegisterModules(modules: seq<Name>, env: Env) returns (r: Result<Tools>)
      ensures r == AddModules(controls, modules, env, prompts)
    {
      var t := controls;
      ghost var left := modules;
      for k := 0 to |modules|
        invariant left == modules[k..]
        invariant AddModules(controls, modules, env, prompts) == AddModules(t, left, env, prompts)
      {
        assert left[0] == modules[k];
        if modules[k] !in env.modules {
          return Err("ToolLoadError");
        }
        var next := RegisterEntries(t, env.modules[modules[k]], prompts);
        if next.Err? {
          return Err(next.error);
        }
        t, left := next.value, left[1..];
      }
      r := Ok(t);
    }

    /** The server loop of `_bundle`; a server is loaded once and then kept. */
    method MergeServers(start: Tools, names: seq<Name>, env: Env) returns (r: Result<Tools>)
      modifies this`servers
      ensures (r, servers) == AddServers(start, names, old(servers), controls, env, prompts)
    {
      var t := start;
      ghost var left := names;
      for k := 0 to |names|
        invariant left == names[k..]
        invariant AddServers(start, names, old(servers), controls, env, prompts) ==
                  AddServers(t, left, servers, controls, env, prompts)
      {
        assert left[0] == names[k];
        if names[k] !in servers {
          if names[k] !in env.servers {
            return Err(MCP_LOAD_ERROR);
          }
          var loaded := RegisterEntries(controls, env.servers[names[k]], prompts);
          if loaded.Err? {
            return Err(loaded.error);
          }
          servers := servers[names[k] := loaded.value];
        } else {
          assert servers[names[k] := servers[names[k]]] == servers;
        }
        var next := MergeInto(t, servers[names[k]], prompts);
        if next.Err? {
          return Err(next.error);
        }
        t, left := next.value, left[1..];
      }
      r := Ok(t);
    }

    /** `_bundle` */
    method LoadBundle(name: Name, env: Env) returns (r: Result<Bundle>)
      requires Cached() && name in definitions
      modifies this`bundles, this`servers
      ensures Cached()
      ensures name in old(bundles) ==> r == Ok(old(bundles)[name]) && bundles == old(bundles) && servers == old(servers)
      ensures name !in old(bundles) ==>
              (r, servers) == Assemble(definitions[name], old(servers), controls, env, prompts)
      ensures bundles == if r.Ok? then old(bundles)[name := r.value] else old(bundles)
    {
      if name in bundles {
        return Ok(bundles[name]);
      }
      AssembleBuilt(definitions[name], servers, controls, env, prompts);
      var t := RegisterModules(definitions[name].modules, env);
      if t.Err? {
        return Err(t.error);
      }
      var withServers := MergeServers(t.value, definitions[name].servers, env);
      if withServers.Err? {
        return Err(withServers.error);
      }
      var tools := RegisterEntries(withServers.value, definitions[name].scripts, prompts);
      if tools.Err? {
        return Err(tools.error);
      }
      r := Ok(Bundle(tools.value, definitions[name].roots));
      bundles := bundles[name := r.value];
    }

    ghost function Setting(): Setup { Setup(definitions, controls, prompts) }

    ghost function Now(): Cache
      reads this`bundles, this`servers
    {
      Cache(bundles, servers)
    }

    /** The skills can be made active together: those that are not cached can be loaded one after another,
        and no declaration of theirs contradicts another. */
    ghost predicate Ready(names: set<Name>, env: Env)
      reads this`bundles, this`servers
    {
      && names <= definitions.Keys
      && var loaded := LoadAll(Setting(), SortedNames(names), Now(), env);
         && loaded.Some? && names <= loaded.value.bundles.Keys
         && Staged(Start(), names, loaded.value.bundles, prompts).Ok?
    }

    /** `_bundle` again, told by what it leaves in the cache. */
    method Fetch(name: Name, env: Env) returns (r: Result<Bundle>)
      requires Cached() && name in definitions
      modifies this`bundles, this`servers
      ensures Cached() && Extends(old(bundles))
      ensures LoadOne(Setting(), name, old(Now()), env) == if r.Ok? then Some(Now()) else None
      ensures r.Ok? ==> name in bundles && bundles[name] == r.value
    {
      r := LoadBundle(name, env);
    }

    /** And once more, told as `restore` needs it: whether the skill could be loaded. */
    method TryFetch(name: Name, env: Env) returns (r: Result<bool>)
      requires Cached() && name in definitions
      modifies this`bundles, this`servers
      ensures Cached() && Extends(old(bundles))
      ensures match TryLoad(Setting(), name, old(Now()), env)
              case Err(e) => r == Err(e)
              case Ok((loaded, now)) => r == Ok(loaded) && Now() == now
    {
      var bundle := LoadBundle(name, env);
      r := if bundle.Ok? then Ok(true) else if bundle.error == MCP_LOAD_ERROR then Ok(false) else Err(bundle.error);
    }

    /** What the staging loop of `_commit` has once the first skills are merged. */
    ghost predicate Halfway(start: Tools, names: seq<Name>, staged: Tools, newRoots: Roots)
      reads this`bundles
    {
      && AllIn(names, bundles)
      && Stage(start, names, bundles, prompts) == Ok(staged)
      && StageRoots(baseRoots, names, bundles) == newRoots
    }

    ghost predicate Extends(before: Bundles)
      reads this`bundles
    {
      Grows(before, bundles)
    }

    /** These skills are loaded and cannot be staged together. */
    ghost predicate Conflict(start: Tools, names: seq<Name>)
      reads this`bundles
    {
      AllIn(names, bundles) && Stage(start, names, bundles, prompts).Err?
    }

    /** One turn of the staging loop: load the skill's bundle if need be and merge it. */
    method StageOne(name: Name, env: Env, staged: Tools, newRoots: Roots, ghost start: Tools, ghost names: seq<Name>)
      returns (r: Result<(Tools, Roots)>)
      requires Cached() && name in definitions && Halfway(start, names, staged, newRoots)
      modifies this`bundles, this`servers
      ensures Cached() && Extends(old(bundles))
      ensures r.Ok? ==>
        Halfway(start, names + [name], r.value.0, r.value.1) && LoadOne(Setting(), name, old(Now()), env) == Some(Now())
      ensures r.Err? ==>
        || LoadOne(Setting(), name, old(Now()), env) == None
        || (LoadOne(Setting(), name, old(Now()), env) == Some(Now()) && Conflict(start, names + [name]))
    {
      ghost var before := bundles;
      var bundle := Fetch(name, env);
      if bundle.Err? {
        return Err(bundle.error);
      }
      StageFrame(start, baseRoots, names, before, bundles, prompts);
      StageMore(start, baseRoots, names, name, bundles, prompts);
      var merged := MergeInto(staged, bundle.value.tools, prompts);
      if merged.Err? {
        return Err(merged.error);
      }
      return Ok((merged.value, newRoots + bundle.value.roots));
    }

    /** The staging loop of `_commit`: loads what is missing and merges, skill by skill in order. It succeeds
        exactly if all can be loaded and, once they are, staged. */
    method StageNames(start: Tools, names: seq<Name>, env: Env) returns (r: Result<(Tools, Roots)>)
      requires Cached() && AllDefined(Setting(), names)
      modifies this`bundles, this`servers
      ensures Cached() && Extends(old(bundles))
      ensures r.Ok? ==>
        Halfway(start, names, r.value.0, r.value.1) && LoadAll(Setting(), names, old(Now()), env) == Some(Now())
      ensures r.Err? ==> !Stageable(start, names, LoadAll(Setting(), names, old(Now()), env))
    {
      r := Ok((start, baseRoots));
      ghost var all := LoadAll(Setting(), names, Now(), env);
      UnderwayStart(start, names, env);
      for k := 0 to |names|
        invariant Cached() && Extends(old(bundles))
        invariant r.Ok? && Underway(start, names, k, r.value, env, all)
      {
        r := StageTurn(names, k, env, r.value, start, all);
        if r.Err? {
          return;
        }
      }
      UnderwayEnd(start, names, r.value, env, all);
    }

    lemma UnderwayStart(start: Tools, names: seq<Name>, env: Env)
      requires AllDefined(Setting(), names)
      ensures Underway(start, names, 0, (start, baseRoots), env, LoadAll(Setting(), names, Now(), env))
    {
      assert names[..0] == [] && names[0..] == names;
    }

    lemma UnderwayEnd(start: Tools, names: seq<Name>, so: (Tools, Roots), env: Env, all: Option<Cache>)
      requires AllDefined(Setting(), names) && Underway(start, names, |names|, so, env, all)
      ensures Halfway(start, names, so.0, so.1) && all == Some(Now())
    {
      assert names[..|names|] == names && names[|names|..] == [];
    }

    /** The first skills are staged, and what loading the others will leave is what loading all would have. */
    ghost predicate Underway(start: Tools, names: seq<Name>, k: nat, so: (Tools, Roots), env: Env, all: Option<Cache>)
      requires AllDefined(Setting(), names)
      reads this`bundles, this`servers
    {
      k <= |names| && Halfway(start, names[..k], so.0, so.1) && all == LoadAll(Setting(), names[k..], Now(), env)
    }

    /** A turn of the loop, and what it means for all the skills */
    method StageTurn(names: seq<Name>, k: nat, env: Env, so: (Tools, Roots), ghost start: Tools,
                     ghost all: Option<Cache>)
      returns (r: Result<(Tools, Roots)>)
      requires Cached() && k < |names| && AllDefined(Setting(), names) && Underway(start, names, k, so, env, all)
      modifies this`bundles, this`servers
      ensures Cached() && Extends(old(bundles))
      ensures r.Ok? ==> Underway(start, names, k + 1, r.value, env, all)
      ensures r.Err? ==> !Stageable(start, names, all)
    {
      LoadStep(names, k, Now(), env);
      assert names[..k + 1] == names[..k] + [names[k]];
      r := StageOne(names[k], env, so.0, so.1, start, names[..k]);
      if r.Err? {
        Stuck(start, names, k, names[..k], env, all);
      }
    }

    /** All are loaded, and the merge loop succeeds. */
    ghost predicate Stageable(start: Tools, names: seq<Name>, loaded: Option<Cache>) {
      loaded.Some? && AllIn(names, loaded.value.bundles) && Stage(start, names, loaded.value.bundles, prompts).Ok?
    }

    lemma LoadStep(names: seq<Name>, k: nat, cache: Cache, env: Env)
      requires k < |names| && AllDefined(Setting(), names)
      ensures LoadAll(Setting(), names[k..], cache, env) ==
              match LoadOne(Setting(), names[k], cache, env)
              case None => None
              case Some(next) => LoadAll(Setting(), names[k + 1..], next, env)
    {
      assert names[k..][1..] == names[k + 1..];
    }

    /** A conflict met while staging is a conflict of all the skills. */
    lemma Stuck(start: Tools, names: seq<Name>, k: nat, done: seq<Name>, env: Env, all: Option<Cache>)
      requires k < |names| && done == names[..k] && AllDefined(Setting(), names)
      requires all.None?
              || (Conflict(start, done + [names[k]]) && all == LoadAll(Setting(), names[k + 1..], Now(), env))
      ensures !Stageable(start, names, all)
    {
      if all.Some? && AllIn(names, all.value.bundles) {
        LoadAllGrows(Setting(), names[k + 1..], Now(), env);
        assert names[..k + 1] == done + [names[k]];
        StageFrame(start, baseRoots, names[..k + 1], bundles, all.value.bundles, prompts);
        StageStuck(start, names, k + 1, all.value.bundles, prompts);
      }
    }

    /** Staging a set of skills succeeds exactly if they are ready. */
    method Prepare(names: set<Name>, env: Env) returns (r: Result<(Tools, Roots)>)
      requires Valid() && names <= definitions.Keys
      modifies this`bundles, this`servers
      ensures Valid() && Extends(old(bundles))
      ensures r.Ok? <==> old(Ready(names, env))
      ensures r.Ok? ==> LoadAll(Setting(), SortedNames(names), old(Now()), env) == Some(Now())
      ensures r.Ok? ==>
        && names <= bundles.Keys
        && Staged(Start(), names, bundles, prompts) == Ok(r.value.0)
        && StagedRoots(baseRoots, names, bundles) == r.value.1
    {
      var start := Tools(controls.functions + base.functions, controls.declarations + base.declarations);
      var sorted := Sort(names);
      ghost var loaded := LoadAll(Setting(), sorted, Now(), env);
      ReadyMeans(names, sorted, env);
      r := StageNames(start, sorted, env);
      if r.Ok? {
        forall n | n in names ensures n in bundles { assert n in sorted; }
      }
      CachingKeeps(old(bundles), active);
    }

    lemma ReadyMeans(names: set<Name>, sorted: seq<Name>, env: Env)
      requires names <= definitions.Keys && sorted == SortedNames(names)
      requires AllDefined(Setting(), sorted)
      ensures Ready(names, env) <==> Stageable(Start(), sorted, LoadAll(Setting(), sorted, Now(), env))
    {
      var loaded := LoadAll(Setting(), sorted, Now(), env);
      if loaded.Some? {
        LoadAllGrows(Setting(), sorted, Now(), env);
        forall n | n in names ensures n in loaded.value.bundles { assert n in sorted; }
      }
    }

    /** Skills that are cached need no loading. */
    lemma StillCached(names: set<Name>, before: Cache, env: Env)
      requires names <= definitions.Keys && names <= before.bundles.Keys
      requires LoadAll(Setting(), SortedNames(names), before, env) == Some(Now())
      ensures Now() == before
    {
      var sorted := SortedNames(names);
      forall i | 0 <= i < |sorted| ensures sorted[i] in names { assert sorted[i] in sorted; }
      LoadAllCached(Setting(), sorted, before, env);
    }

    /** Skills that are cached are ready exactly if they can be staged. */
    lemma CachedAreReady(names: set<Name>, env: Env)
      requires names <= definitions.Keys && names <= bundles.Keys
      ensures Ready(names, env) <==> Staged(Start(), names, bundles, prompts).Ok?
    {
      var sorted := SortedNames(names);
      forall i | 0 <= i < |sorted| ensures sorted[i] in names { assert sorted[i] in sorted; }
      LoadAllCached(Setting(), sorted, Now(), env);
    }

    /** `_commit`. It succeeds exactly if the skills are ready and saving works; otherwise nothing the agent
        sees changes. */
    method Commit(names: set<Name>, persist: bool, env: Env, saveWorks: bool) returns (r: Result<()>)
      requires Valid() && names <= definitions.Keys
      modifies this
      ensures Valid() && Extends(old(bundles))
      ensures r.Ok? <==> old(Ready(names, env)) && (!persist || saveWorks)
      ensures r.Ok? ==> LoadAll(Setting(), SortedNames(names), old(Now()), env) == Some(Now())
      ensures r.Err? ==>
        && live == old(live) && roots == old(roots) && active == old(active)
        && saved == old(saved) && committed == old(committed)
      ensures r.Ok? ==>
        && committed && active == names
        && saved == if persist then (set n | n in names && definitions[n].conversation) else old(saved)
    {
      var staged := Prepare(names, env);
      if staged.Err? {
        return Err(staged.error);
      }
      r := SaveAndInstall(names, persist, saveWorks, staged.value.0, staged.value.1);
    }

    /** What `_commit` does once the skills are staged. */
    method SaveAndInstall(names: set<Name>, persist: bool, saveWorks: bool, staged: Tools, newRoots: Roots)
      returns (r: Result<()>)
      requires Valid() && names <= definitions.Keys && names <= bundles.Keys
      requires Staged(Start(), names, bundles, prompts) == Ok(staged)
      requires StagedRoots(baseRoots, names, bundles) == newRoots
      modifies this`live, this`roots, this`active, this`committed, this`saved
      ensures Valid() && r.Ok? == (!persist || saveWorks)
      ensures r.Err? ==>
        && live == old(live) && roots == old(roots) && active == old(active)
        && saved == old(saved) && committed == old(committed)
      ensures r.Ok? ==>
        && committed && active == names
        && saved == if persist then (set n | n in names && definitions[n].conversation) else old(saved)
    {
      if persist {
        if !saveWorks {
          return Err("the active skills could not be saved");
        }
        saved := set n | n in names && definitions[n].conversation;
      }
      Install(names, staged, newRoots);
      r := Ok(());
    }

    /** The last part of `_commit`, which replaces the agent's tools, its roots and the active set. */
    method Install(names: set<Name>, staged: Tools, newRoots: Roots)
      requires Valid() && names <= definitions.Keys && names <= bundles.Keys
      requires Staged(Start(), names, bundles, prompts) == Ok(staged)
      requires StagedRoots(baseRoots, names, bundles) == newRoots
      modifies this`live, this`roots, this`active, this`committed
      ensures Valid() && committed && active == names && live == staged && roots == newRoots
    {
      live, roots := staged, newRoots;
      active := names;
      committed := true;
    }

    /** The active set that a change asks for */
    function Target(name: Name, activate: bool): set<Name>
      reads this`active
    {
      if activate then active + {name} else active - {name}
    }

    /** `change`. It succeeds exactly if the skill is known and the new active set is the old one or is ready
        and can be saved; a deactivation is always ready. A failure changes nothing. A deactivation takes away
        exactly the tools that no remaining skill and not the base provides. */
    method Change(name: Name, activate: bool, env: Env, saveWorks: bool) returns (r: Result<Report>)
      requires Valid()
      modifies this
      ensures Valid() && Extends(old(bundles))
      ensures r.Ok? <==>
        && name in definitions
        && (old(Target(name, activate)) == old(active) || (old(Ready(Target(name, activate), env)) && saveWorks))
      ensures !activate && name in definitions && saveWorks ==> r.Ok?
      ensures r.Err? ==>
        && live == old(live) && roots == old(roots) && active == old(active)
        && saved == old(saved) && committed == old(committed)
      ensures r.Ok? ==>
        && active == old(Target(name, activate))
        && (active == old(active) ==> live == old(live) && roots == old(roots) && saved == old(saved))
        && (active != old(active) ==> committed && saved == set n | n in active && definitions[n].conversation)
        && r.value == Report((name in old(active)) == activate,
                             if activate then live.functions.Keys - old(live).functions.Keys
                             else old(live).functions.Keys - live.functions.Keys,
                             active)
      ensures !activate && r.Ok? && name in old(active) ==> r.value.tools == OnlyFrom(name, active)
    {
      if name !in definitions {
        return Err("Skill is not available");
      }
      var previous := name in active;
      var before := live.functions.Keys;
      var target := Target(name, activate);
      if target != active {
        if !activate {
          FewerAreReady(target, env);
        }
        var done := Commit(target, true, env, saveWorks);
        if done.Err? {
          return Err(done.error);
        }
      }
      var after := live.functions.Keys;
      var changed := if activate then after - before else before - after;
      r := Ok(Report(if activate then previous else !previous, changed, active));
      if !activate && name in old(active) {
        StartInSync();
        CachingKeeps(old(bundles), old(active));
        StagedTools(Start(), old(active), bundles, prompts);
        StagedTools(Start(), active, bundles, prompts);
        RemovedExactly(old(live).functions.Keys, live.functions.Keys, name, old(active));
      }
    }

    /** Any of the active skills are ready. */
    lemma FewerAreReady(fewer: set<Name>, env: Env)
      requires Valid() && committed && fewer <= active
      ensures Ready(fewer, env)
    {
      StartInSync();
      SubsetStages(Start(), active, fewer, bundles, prompts);
      CachedAreReady(fewer, env);
    }

    lemma RemovedExactly(before: set<Name>, after: set<Name>, name: Name, was: set<Name>)
      requires was <= bundles.Keys && name in was && active == was - {name}
      requires forall n :: n in before <==>
                 n in Start().functions || exists skill :: skill in was && n in bundles[skill].tools.functions
      requires forall n :: n in after <==>
                 n in Start().functions || exists skill :: skill in active && n in bundles[skill].tools.functions
      ensures before - after == OnlyFrom(name, active)
    {
    }

    /** Activating an inactive skill and deactivating it again. The first succeeds exactly if the skill is ready
        and can be saved, the second exactly if that can be saved too; if it cannot, the skill stays active. Once
        anything was committed, the agent's tools and roots are then exactly as before. In a runtime where
        nothing was, the declarations come back with those of the control tools in front, so they are as before
        exactly if there are none. */
    method ActivateThenDeactivate(name: Name, env: Env, env': Env, saveWorks: bool, saveWorks': bool)
      returns (on: bool, off: bool)
      requires Valid() && name !in active
      modifies this
      ensures Valid()
      ensures on <==> name in definitions && old(Ready(active + {name}, env)) && saveWorks
      ensures off <==> on && saveWorks'
      ensures !on ==> active == old(active) && live == old(live) && roots == old(roots) && saved == old(saved)
      ensures on && !off ==> committed && active == old(active) + {name}
      ensures off ==> active == old(active)
      ensures off && old(committed) ==> live == old(live) && roots == old(roots)
      ensures off && !old(committed) ==>
        && live == Start() && roots == old(roots)
        && (live.declarations == old(live).declarations <==> controls.declarations == [])
        && (live.functions == old(live).functions <==> controls.functions.Keys <= base.functions.Keys)
    {
      on := Activate(name, env, saveWorks);
      off := false;
      if on {
        off := GoBack(name, env', saveWorks', old(active), old(bundles), old(live), old(roots), old(committed));
      }
    }

    /** What was live is what these skills gave. */
    ghost predicate Was(was: set<Name>, before: Bundles, past: Tools, pastRoots: Roots, done: bool) {
      if done
      then && was <= before.Keys && Staged(Start(), was, before, prompts) == Ok(past)
           && StagedRoots(baseRoots, was, before) == pastRoots
      else past == base && pastRoots == baseRoots && was == {}
    }

    method GoBack(name: Name, env: Env, saveWorks: bool, ghost was: set<Name>, ghost before: Bundles,
                  ghost past: Tools, ghost pastRoots: Roots, ghost done: bool) returns (ok: bool)
      requires Valid() && committed && name !in was && active == was + {name} && Extends(before)
      requires Was(was, before, past, pastRoots, done)
      modifies this
      ensures Valid() && committed && ok == saveWorks
      ensures !ok ==> active == was + {name}
      ensures ok ==> active == was && roots == pastRoots
      ensures ok && done ==> live == past
      ensures ok && !done ==>
        && live == Start()
        && (live.declarations == past.declarations <==> controls.declarations == [])
        && (live.functions == past.functions <==> controls.functions.Keys <= base.functions.Keys)
    {
      ok := Deactivate(name, env, saveWorks, before);
      if ok {
        Regained(was, before, past, pastRoots, done);
      }
    }

    /** The same skills are active again. */
    lemma Regained(was: set<Name>, before: Bundles, past: Tools, pastRoots: Roots, done: bool)
      requires Valid() && committed && active == was && Extends(before) && Was(was, before, past, pastRoots, done)
      ensures roots == pastRoots
      ensures done ==> live == past
      ensures !done ==>
        && live == Start()
        && (live.declarations == past.declarations <==> controls.declarations == [])
        && (live.functions == past.functions <==> controls.functions.Keys <= base.functions.Keys)
    {
      if done {
        CachingKeeps(before, active);
      } else {
        NothingActive();
      }
    }

    method Activate(name: Name, env: Env, saveWorks: bool) returns (ok: bool)
      requires Valid() && name !in active
      modifies this
      ensures Valid() && Extends(old(bundles))
      ensures ok <==> name in definitions && old(Ready(active + {name}, env)) && saveWorks
      ensures ok ==> committed && active == old(active) + {name}
      ensures !ok ==> active == old(active) && live == old(live) && roots == old(roots) && saved == old(saved)
    {
      var on := Change(name, true, env, saveWorks);
      ok := on.Ok?;
    }

    method Deactivate(name: Name, env: Env, saveWorks: bool, ghost before: Bundles) returns (ok: bool)
      requires Valid() && committed && name in active && Extends(before)
      modifies this
      ensures Valid() && Extends(before) && committed && ok == saveWorks
      ensures active == if ok then old(active) - {name} else old(active)
    {
      var off := Change(name, false, env, saveWorks);
      ok := off.Ok?;
    }

    /** What is live when no skill is active but something was committed */
    lemma NothingActive()
      requires Valid() && committed && active == {}
      ensures live == Start() && roots == baseRoots
      ensures live.declarations == base.declarations <==> controls.declarations == []
      ensures live.functions == base.functions <==> controls.functions.Keys <= base.functions.Keys
    {
      assert SortedNames({}) == [];
      LongerList(controls.declarations, base.declarations);
      if controls.functions + base.functions == base.functions {
        forall n | n in controls.functions
          ensures n in base.functions { assert n in controls.functions + base.functions; }
      }
    }

    /** The loading loop of `restore`: a server that does not load costs only its skill. */
    method LoadSelected(names: seq<Name>, env: Env) returns (r: Result<set<Name>>)
      requires Cached() && AllDefined(Setting(), names)
      modifies this`bundles, this`servers
      ensures Cached() && Extends(old(bundles))
      ensures match LoadEach(Setting(), names, old(Now()), env)
              case Err(e) => r == Err(e)
              case Ok((chosen, now)) => r == Ok(chosen) && Now() == now
    {
      var chosen: set<Name> := {};
      ghost var all := LoadEach(Setting(), names, Now(), env);
      assert names[0..] == names;
      for k := 0 to |names|
        invariant Cached() && Extends(old(bundles))
        invariant all == LoadMore(Setting(), names[k..], Now(), env, chosen)
      {
        assert names[k..][1..] == names[k + 1..];
        var loaded := TryFetch(names[k], env);
        if loaded.Err? {
          return Err(loaded.error);
        }
        if loaded.value {
          chosen := chosen + {names[k]};
        }
      }
      r := Ok(chosen);
    }

    /** What the loading loop of `restore` comes to for the selected skills */
    ghost function Loads(env: Env): Result<(set<Name>, Cache)>
      reads this`saved, this`bundles, this`servers
    {
      var names := SortedNames(Selected());
      assert forall i :: 0 <= i < |names| ==> names[i] in names;
      LoadEach(Setting(), names, Now(), env)
    }

    /** The selected skills load but for failing servers, and those that do can be staged together. */
    ghost predicate Restorable(env: Env)
      reads this`saved, this`bundles, this`servers
    {
      && Loads(env).Ok? && Loads(env).value.0 <= Loads(env).value.1.bundles.Keys
      && Staged(Start(), Loads(env).value.0, Loads(env).value.1.bundles, prompts).Ok?
    }

    /** The skills on record that are still defined and meant to be kept */
    function Selected(): set<Name>
      reads this`saved
    {
      set n | n in saved && n in definitions && definitions[n].conversation
    }

    /** `restore`. It succeeds exactly if the selected skills can be restored, or there are none, and the record
        can be written where it changes. The skills that loaded are then active, and the record is cut down to
        the selected ones, those whose servers do not load included. If they cannot be restored nothing changes;
        if only the record cannot be written, they are active all the same. */
    method Restore(env: Env, saveWorks: bool) returns (r: Result<()>)
      requires Valid()
      modifies this
      ensures Valid() && Extends(old(bundles))
      ensures r.Ok? <==>
        && (old(Selected()) == {} || old(Restorable(env)))
        && (old(Selected()) == old(saved) || saveWorks)
      ensures saved == if r.Ok? then old(Selected()) else old(saved)
      ensures old(Selected()) != {} && old(Restorable(env)) ==>
        && committed && active == old(Loads(env)).value.0 && Now() == old(Loads(env)).value.1
        && active == old(Selected()) * bundles.Keys
      ensures old(Selected()) == {} || !old(Restorable(env)) ==>
        active == old(active) && live == old(live) && roots == old(roots) && committed == old(committed)
    {
      var selected := Selected();
      if selected != {} {
        r := Reactivate(selected, env);
        if r.Err? {
          return;
        }
      }
      if selected != saved {
        if !saveWorks {
          return Err("the active skills could not be saved");
        }
        saved := selected;
      }
      r := Ok(());
    }

    /** The part of `restore` that loads and commits: on an error nothing changes but the cache. */
    method Reactivate(selected: set<Name>, env: Env) returns (r: Result<()>)
      requires Valid() && selected == Selected()
      modifies this
      ensures Valid() && Extends(old(bundles)) && saved == old(saved)
      ensures r.Ok? <==> old(Restorable(env))
      ensures r.Ok? ==>
        && committed && active == old(Loads(env)).value.0 && Now() == old(Loads(env)).value.1
        && active == selected * bundles.Keys
      ensures r.Err? ==>
        active == old(active) && live == old(live) && roots == old(roots) && committed == old(committed)
    {
      var sorted := Sort(selected);
      RestorableMeans(sorted, env);
      ghost var before := bundles;
      var chosen := LoadSelected(sorted, env);
      CachingKeeps(before, active);
      if chosen.Err? {
        return Err(chosen.error);
      }
      r := CommitLoaded(chosen.value, env);
    }

    lemma RestorableMeans(sorted: seq<Name>, env: Env)
      requires sorted == SortedNames(Selected()) && AllDefined(Setting(), sorted)
      ensures Loads(env) == LoadEach(Setting(), sorted, Now(), env)
      ensures Loads(env).Ok? ==>
        var (chosen, after) := Loads(env).value;
        && chosen <= after.bundles.Keys && chosen == Selected() * after.bundles.Keys && chosen <= definitions.Keys
        && (Restorable(env) <==> Staged(Start(), chosen, after.bundles, prompts).Ok?)
    {
      if Loads(env).Ok? { LoadedAreChosen(Selected(), sorted, Now(), env); }
    }

    /** `_commit` for skills that are cached, without a save */
    method CommitLoaded(names: set<Name>, env: Env) returns (r: Result<()>)
      requires Valid() && names <= definitions.Keys && names <= bundles.Keys
      modifies this
      ensures Valid() && saved == old(saved) && Extends(old(bundles))
      ensures r.Ok? <==> Staged(Start(), names, old(bundles), prompts).Ok?
      ensures r.Ok? ==> committed && active == names && Now() == old(Now())
      ensures r.Err? ==>
        active == old(active) && live == old(live) && roots == old(roots) && committed == old(committed)
    {
      CachedAreReady(names, env);
      ghost var loaded := Now();
      r := Commit(names, false, env, true);
      if r.Ok? {
        StillCached(names, loaded, env);
      }
    }

    /** What is chosen is loaded, and is all of the selected skills that are. */
    lemma LoadedAreChosen(selected: set<Name>, sorted: seq<Name>, before: Cache, env: Env)
      requires sorted == SortedNames(selected) && AllDefined(Setting(), sorted)
      requires LoadEach(Setting(), sorted, before, env).Ok?
      ensures var (chosen, after) := LoadEach(Setting(), sorted, before, env).value;
              chosen <= after.bundles.Keys && chosen == selected * after.bundles.Keys
    {
      LoadMoreExact(Setting(), sorted, before, env, {});
      var (chosen, after) := LoadEach(Setting(), sorted, before, env).value;
      forall n ensures n in chosen <==> n in selected && n in after.bundles {
        assert n in sorted <==> n in selected;
      }
    }
  }

  lemma OneSorted(n: Name) returns (names: seq<Name>)
    ensures names == [n] == SortedNames({n})
  {
    names := [n];
    assert {n} - {n} == {};
    assert Least({n}) == n;
    assert SortedNames({}) == [];
  }

  lemma LongerList(a: seq<Declaration>, b: seq<Declaration>)
    ensures a + b == b <==> a == []
  {
    assert |a + b| == |a| + |b|;
    if a == [] { assert a + b == b; }
  }

  /** A merge loop that is stuck stays stuck. */
  lemma {:induction false} StageStuck(target: Tools, names: seq<Name>, k: nat, bundles: Bundles, prompts: Prompts)
    requires k <= |names| && forall i :: 0 <= i < |names| ==> names[i] in bundles
    requires Stage(target, names[..k], bundles, prompts).Err?
    ensures Stage(target, names, bundles, prompts).Err?
    decreases |names| - k
  {
    if k == |names| {
      assert names[..k] == names;
    } else {
      StageMore(target, map[], names[..k], names[k], bundles, prompts);
      assert names[..k + 1] == names[..k] + [names[k]];
      StageStuck(target, names, k + 1, bundles, prompts);
    }
  }

  lemma {:induction false} LookupConcat(a: seq<Declaration>, b: seq<Declaration>)
    ensures Lookup(a + b) == Lookup(a) + Lookup(b)
  {
    if b == [] {
      assert a + b == a;
    } else {
      var n := |b| - 1;
      assert a + b == (a + b[..n]) + [b[n]];
      LookupAppend(a + b[..n], b[n]);
      LookupConcat(a, b[..n]);
    }
  }

  /** The live tools and roots are a function of the base and the active skills: two runtimes that got to the
      same active set in different ways have the same, declarations and their order included. A runtime that
      has not committed anything is the one exception, unless there are no control tools to add. */
  lemma HistoryDoesNotMatter(a: Runtime, b: Runtime)
    requires a.Valid() && b.Valid()
    requires a.controls == b.controls && a.base == b.base && a.baseRoots == b.baseRoots && a.prompts == b.prompts
    requires a.active == b.active && forall n :: n in a.active ==> a.bundles[n] == b.bundles[n]
    ensures a.committed == b.committed ==> a.live == b.live && a.roots == b.roots
    ensures a.committed && !b.committed ==>
      && a.roots == b.roots
      && (a.live == b.live <==> a.controls.declarations == [] && a.controls.functions.Keys <= a.base.functions.Keys)
  {
    if a.committed && b.committed {
      var names := SortedNames(a.active);
      forall i | 0 <= i < |names| ensures names[i] in a.active { assert names[i] in names; }
      StageFrame(a.Start(), a.baseRoots, names, a.bundles, b.bundles, a.prompts);
    } else if a.committed {
      a.NothingActive();
    }
  }

  // ---------- A runtime that is not restored ----------

  /** A registry that holds one tool, as a new `BaseTool` holds the control tools */
  method OneTool(prompts: Prompts) returns (t: Tools)
    ensures Built(t, prompts) && |t.declarations| == 1
  {
    var none, d := Tools(map[], []), Declaration(Name("x"), "", "");
    assert ValidName(d.name);
    RegisterBuilt(none, d, 0, prompts);
    t := Register(none, d, 0, prompts).value;
  }

  /** An agent whose own tools are the control tools, with one skill that brings none */
  method FreshRuntime(skill: Name, controls: Tools, prompts: Prompts) returns (rt: Runtime)
    requires Built(controls, prompts)
    ensures fresh(rt) && rt.Valid() && !rt.committed && rt.active == {}
    ensures rt.live == controls == rt.controls == rt.base && skill in rt.definitions
    ensures forall env :: rt.Ready({skill}, env)
  {
    var bare := Definition([], [], [], map[], false);
    rt := new Runtime(map[skill := bare], prompts, controls, controls, map[], {});
    forall env ensures rt.Ready({skill}, env) { rt.BareIsReady(skill, env); }
  }

  /** A first activation that is not undone: the skill is activated and deactivated in a new runtime, and the
      one tool that the agent had is then declared twice. */
  method ControlsComeTwice(skill: Name, prompts: Prompts, env: Env) returns (rt: Runtime, before: seq<Declaration>)
    ensures fresh(rt) && |before| == 1 && rt.active == {} && rt.live.declarations == before + before
  {
    var controls := OneTool(prompts);
    rt := FreshRuntime(skill, controls, prompts);
    before := rt.live.declarations;
    assert rt.active + {skill} == {skill};
    var on, off := rt.ActivateThenDeactivate(skill, env, env, true, true);
  }
}
