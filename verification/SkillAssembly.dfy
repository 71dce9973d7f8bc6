/** What loading a skill gives (nodes/agent_skill_runtime.py, `_bundle`; `register_external_tool` of
    src/tool/base_tool.py): which tools are in its registry, with which functions and declarations, and
    exactly when it cannot be loaded. */
module SkillAssembly {
  import opened Results
  import opened Sequences
  import opened SkillLoading
  import opened SkillStaging
  import opened ToolRegistry

  // ---------- Registering entries ----------

  /** The functions that entries bring; the first of a name decides. */
  function EntryFunctions(entries: seq<Entry>): map<Name, Function> {
    if entries == [] then map[]
    else EntryFunctions(entries[1..]) + map[entries[0].declaration.name := entries[0].func]
  }

  /** Their declarations; again the first of a name decides. */
  function EntryDeclarations(entries: seq<Entry>, prompts: Prompts): map<Name, Declaration> {
    if entries == [] then map[]
    else EntryDeclarations(entries[1..], prompts)
         + map[entries[0].declaration.name := Prompted(entries[0].declaration, prompts)]
  }

  predicate Fits(functions: map<Name, Function>, e: Entry) {
    && ValidName(e.declaration.name)
    && (e.declaration.name in functions ==> functions[e.declaration.name] == e.func)
  }

  /** Every name is valid, and no name stands for two functions. */
  ghost predicate Consistent(functions: map<Name, Function>, entries: seq<Entry>) {
    && (forall i :: 0 <= i < |entries| ==> Fits(functions, entries[i]))
    && (forall i, j :: 0 <= i < j < |entries| && entries[i].declaration.name == entries[j].declaration.name ==>
        entries[i].func == entries[j].func)
  }

  lemma ConsistentCons(functions: map<Name, Function>, entries: seq<Entry>)
    requires entries != []
    ensures Consistent(functions, entries) <==>
            && Fits(functions, entries[0])
            && Consistent(functions[entries[0].declaration.name := entries[0].func], entries[1..])
  {
    var e, rest := entries[0], entries[1..];
    var functions' := functions[e.declaration.name := e.func];
    forall i | 0 <= i < |rest| ensures entries[i + 1] == rest[i] {}
    if Fits(functions, e) && Consistent(functions', rest) {
      forall i | 0 <= i < |entries| ensures Fits(functions, entries[i]) {
        if i > 0 { assert Fits(functions', rest[i - 1]); }
      }
      forall i, j | 0 <= i < j < |entries| && entries[i].declaration.name == entries[j].declaration.name
        ensures entries[i].func == entries[j].func
      {
        assert Fits(functions', rest[j - 1]);
        if i > 0 { assert entries[i] == rest[i - 1] && entries[j] == rest[j - 1]; }
      }
    }
    if Consistent(functions, entries) {
      forall i | 0 <= i < |rest| ensures Fits(functions', rest[i]) {
        assert Fits(functions, entries[i + 1]);
      }
      forall i, j | 0 <= i < j < |rest| && rest[i].declaration.name == rest[j].declaration.name
        ensures rest[i].func == rest[j].func
      {
        assert entries[i + 1] == rest[i] && entries[j + 1] == rest[j];
      }
    }
  }

  lemma RegisterExact(t: Tools, e: Entry, prompts: Prompts)
    requires InSync(t)
    ensures Register(t, e.declaration, e.func, prompts).Ok? <==> Fits(t.functions, e)
    ensures Register(t, e.declaration, e.func, prompts).Ok? ==>
      var t' := Register(t, e.declaration, e.func, prompts).value;
      && InSync(t') && t'.functions == t.functions[e.declaration.name := e.func]
      && Lookup(t'.declarations) ==
         map[e.declaration.name := Prompted(e.declaration, prompts)] + Lookup(t.declarations)
  {
    var n, p := e.declaration.name, Prompted(e.declaration, prompts);
    if Fits(t.functions, e) {
      FirstDecides(Lookup(t.declarations), n, p);
      if n in t.functions {
        SetAgain(t.functions, n, e.func);
      } else {
        LookupAppend(t.declarations, p);
      }
    }
  }

  lemma FirstDecides<V>(found: map<Name, V>, n: Name, v: V)
    ensures map[n := v] + found == if n in found then found else found[n := v]
  {
  }

  lemma SetAgain<V>(found: map<Name, V>, n: Name, v: V)
    requires n in found && found[n] == v
    ensures found[n := v] == found
  {
  }

  lemma AddFirst<V>(found: map<Name, V>, n: Name, v: V, more: map<Name, V>)
    ensures more + (map[n := v] + found) == (more + map[n := v]) + found
  {
  }

  lemma AddKnown<V>(found: map<Name, V>, n: Name, v: V, more: map<Name, V>)
    requires n in found ==> found[n] == v
    ensures more + found[n := v] == (more + map[n := v]) + found
  {
  }

  /** Registering entries succeeds exactly if they are consistent with each other and with what is registered;
      it then adds exactly them. */
  lemma {:induction false} RegisterAllExact(t: Tools, entries: seq<Entry>, prompts: Prompts)
    requires InSync(t)
    ensures RegisterAll(t, entries, prompts).Ok? <==> Consistent(t.functions, entries)
    ensures RegisterAll(t, entries, prompts).Ok? ==>
      var t' := RegisterAll(t, entries, prompts).value;
      && InSync(t') && t'.functions == EntryFunctions(entries) + t.functions
      && Lookup(t'.declarations) == EntryDeclarations(entries, prompts) + Lookup(t.declarations)
    decreases |entries|
  {
    if entries != [] {
      var e := entries[0];
      ConsistentCons(t.functions, entries);
      RegisterExact(t, e, prompts);
      var next := Register(t, e.declaration, e.func, prompts);
      if next.Ok? {
        RegisterAllExact(next.value, entries[1..], prompts);
        AddKnown(t.functions, e.declaration.name, e.func, EntryFunctions(entries[1..]));
        AddFirst(Lookup(t.declarations), e.declaration.name, Prompted(e.declaration, prompts),
                 EntryDeclarations(entries[1..], prompts));
      }
    }
  }

  lemma {:induction false} EntryNames(entries: seq<Entry>, prompts: Prompts, n: Name)
    ensures n in EntryFunctions(entries) <==> exists i :: 0 <= i < |entries| && entries[i].declaration.name == n
    ensures n in EntryDeclarations(entries, prompts) <==> n in EntryFunctions(entries)
  {
    if entries != [] {
      EntryNames(entries[1..], prompts, n);
      forall i | 0 <= i < |entries[1..]| ensures entries[1..][i] == entries[i + 1] {}
      if i :| 0 <= i < |entries| && entries[i].declaration.name == n {
        assert i > 0 ==> entries[1..][i - 1] == entries[i];
      }
    }
  }

  // ---------- Modules ----------

  predicate AllLoad(modules: seq<Name>, env: Env) { forall i :: 0 <= i < |modules| ==> modules[i] in env.modules }

  /** The entries of the modules, one module after another */
  function ModuleEntries(modules: seq<Name>, env: Env): seq<Entry>
    requires AllLoad(modules, env)
  {
    if modules == [] then [] else env.modules[modules[0]] + ModuleEntries(modules[1..], env)
  }

  lemma {:induction false} RegisterConcat(t: Tools, a: seq<Entry>, b: seq<Entry>, prompts: Prompts)
    ensures RegisterAll(t, a, prompts).Ok? ==>
      RegisterAll(t, a + b, prompts) == RegisterAll(RegisterAll(t, a, prompts).value, b, prompts)
    ensures RegisterAll(t, a, prompts).Err? ==> RegisterAll(t, a + b, prompts) == RegisterAll(t, a, prompts)
    decreases |a|
  {
    if a == [] {
      Alone(b);
    } else {
      assert (a + b)[0] == a[0] && (a + b)[1..] == a[1..] + b;
      var next := Register(t, a[0].declaration, a[0].func, prompts);
      if next.Ok? {
        RegisterConcat(next.value, a[1..], b, prompts);
      }
    }
  }

  /** Adding modules is registering their entries. */
  lemma {:induction false} AddModulesIs(t: Tools, modules: seq<Name>, env: Env, prompts: Prompts)
    ensures AddModules(t, modules, env, prompts).Ok? ==> AllLoad(modules, env)
    ensures AllLoad(modules, env) ==>
      AddModules(t, modules, env, prompts) == RegisterAll(t, ModuleEntries(modules, env), prompts)
    decreases |modules|
  {
    if modules != [] && modules[0] in env.modules {
      var entries, rest := env.modules[modules[0]], modules[1..];
      var next := RegisterAll(t, entries, prompts);
      forall i | 0 <= i < |rest| ensures modules[i + 1] == rest[i] {}
      if next.Ok? {
        AddModulesIs(next.value, rest, env, prompts);
      }
      if AllLoad(modules, env) {
        RegisterConcat(t, entries, ModuleEntries(rest, env), prompts);
      } else {
        assert !AllLoad(rest, env);
      }
    }
  }

  // ---------- Servers ----------

  ghost predicate ServersLoad(servers: seq<Name>, known: Servers, controls: Tools, env: Env, prompts: Prompts) {
    forall i :: 0 <= i < |servers| ==> ServerTools(servers[i], known, controls, env, prompts).Ok?
  }

  /** A server that was loaded is loaded as it would be. */
  lemma LoadedTheSame(server: Name, other: Name, known: Servers, controls: Tools, env: Env, prompts: Prompts)
    requires ServerTools(server, known, controls, env, prompts).Ok?
    ensures var known' := known[server := ServerTools(server, known, controls, env, prompts).value];
            ServerTools(other, known', controls, env, prompts) == ServerTools(other, known, controls, env, prompts)
  {
  }

  /** The registries of the servers, as bundles without roots */
  ghost function ServerBundles(servers: seq<Name>, known: Servers, controls: Tools, env: Env, prompts: Prompts): Bundles
    requires ServersLoad(servers, known, controls, env, prompts)
  {
    map n | n in servers && ServerTools(n, known, controls, env, prompts).Ok? ::
      Bundle(ServerTools(n, known, controls, env, prompts).value, map[])
  }

  /** The bundles hold what loading these servers gives. */
  ghost predicate HoldsServers(bundles: Bundles, servers: seq<Name>, known: Servers, controls: Tools, env: Env,
                               prompts: Prompts)
  {
    forall i :: 0 <= i < |servers| ==>
      servers[i] in bundles && ServerTools(servers[i], known, controls, env, prompts) == Ok(bundles[servers[i]].tools)
  }

  lemma HoldsRest(bundles: Bundles, servers: seq<Name>, known: Servers, controls: Tools, env: Env, prompts: Prompts)
    requires servers != [] && HoldsServers(bundles, servers, known, controls, env, prompts)
    ensures HoldsServers(bundles, servers[1..], known[servers[0] := bundles[servers[0]].tools], controls, env, prompts)
  {
    var known', rest := known[servers[0] := bundles[servers[0]].tools], servers[1..];
    assert servers[0] in bundles;
    forall i | 0 <= i < |rest|
      ensures rest[i] in bundles && ServerTools(rest[i], known', controls, env, prompts) == Ok(bundles[rest[i]].tools)
    {
      assert rest[i] == servers[i + 1];
      LoadedTheSame(servers[0], rest[i], known, controls, env, prompts);
    }
  }

  /** Adding servers that load is merging their registries one after another. */
  lemma {:induction false} AddServersIs(t: Tools, servers: seq<Name>, known: Servers, controls: Tools, env: Env,
                                        prompts: Prompts, bundles: Bundles)
    requires HoldsServers(bundles, servers, known, controls, env, prompts)
    ensures AddServers(t, servers, known, controls, env, prompts).0 == Stage(t, servers, bundles, prompts)
    decreases |servers|
  {
    if servers != [] {
      HoldsRest(bundles, servers, known, controls, env, prompts);
      var tools := bundles[servers[0]].tools;
      var next := Merge(t, tools, prompts);
      if next.Ok? {
        AddServersIs(next.value, servers[1..], known[servers[0] := tools], controls, env, prompts, bundles);
      }
    }
  }

  /** If one of them does not load, adding fails. */
  lemma {:induction false} AddServersFails(t: Tools, servers: seq<Name>, known: Servers, controls: Tools, env: Env,
                                           prompts: Prompts, k: nat)
    requires k < |servers| && ServerTools(servers[k], known, controls, env, prompts).Err?
    ensures AddServers(t, servers, known, controls, env, prompts).0.Err?
    decreases |servers|
  {
    var loaded := ServerTools(servers[0], known, controls, env, prompts);
    if k > 0 && loaded.Ok? {
      LoadedTheSame(servers[0], servers[k], known, controls, env, prompts);
      var next := Merge(t, loaded.value, prompts);
      if next.Ok? {
        assert servers[1..][k - 1] == servers[k];
        AddServersFails(next.value, servers[1..], known[servers[0] := loaded.value], controls, env, prompts, k - 1);
      }
    }
  }

  /** The functions of several registries; the first that has a name decides. */
  ghost function AllFunctions(names: seq<Name>, bundles: Bundles): map<Name, Function>
    requires forall i :: 0 <= i < |names| ==> names[i] in bundles
  {
    if names == [] then map[] else AllFunctions(names[1..], bundles) + bundles[names[0]].tools.functions
  }

  ghost function AllDeclarations(names: seq<Name>, bundles: Bundles): map<Name, Declaration>
    requires forall i :: 0 <= i < |names| ==> names[i] in bundles
  {
    if names == [] then map[] else AllDeclarations(names[1..], bundles) + Declared(bundles, names[0])
  }

  lemma ThreeMaps<V>(a: map<Name, V>, b: map<Name, V>, c: map<Name, V>)
    ensures a + (b + c) == (a + b) + c
  {
  }

  lemma AgreeingSwap(a: map<Name, Declaration>, b: map<Name, Declaration>)
    requires Agree(a, b)
    ensures a + b == b + a
  {
  }

  /** Whatever is staged has the functions and the declarations of the target, and besides them those of the
      first registry that has the name. */
  lemma {:induction false} StagedExactly(target: Tools, names: seq<Name>, bundles: Bundles, prompts: Prompts)
    requires InSync(target) && Loaded(names, bundles, prompts) && Stage(target, names, bundles, prompts).Ok?
    ensures var t := Stage(target, names, bundles, prompts).value;
            && InSync(t) && t.functions == AllFunctions(names, bundles) + target.functions
            && Lookup(t.declarations) == AllDeclarations(names, bundles) + Lookup(target.declarations)
    decreases |names|
  {
    if names != [] {
      var first := bundles[names[0]].tools;
      MergeExact(target, first, prompts);
      var next := Merge(target, first, prompts).value;
      StagedExactly(next, names[1..], bundles, prompts);
      ThreeMaps(AllFunctions(names[1..], bundles), first.functions, target.functions);
      AgreeingSwap(Lookup(target.declarations), Lookup(first.declarations));
      ThreeMaps(AllDeclarations(names[1..], bundles), Lookup(first.declarations), Lookup(target.declarations));
    }
  }

  // ---------- A skill ----------

  /** The registry of the controls with the entries of the modules */
  ghost function ModuleTools(d: Definition, controls: Tools, env: Env, prompts: Prompts): Result<Tools> {
    AddModules(controls, d.modules, env, prompts)
  }

  /** What the modules declare, over the controls */
  ghost function DeclaredByModules(d: Definition, controls: Tools, env: Env, prompts: Prompts): map<Name, Declaration>
    requires AllLoad(d.modules, env)
  {
    EntryDeclarations(ModuleEntries(d.modules, env), prompts) + Lookup(controls.declarations)
  }

  /** The functions there are before the scripts are registered */
  ghost function FunctionsBefore(d: Definition, known: Servers, controls: Tools, env: Env,
                                 prompts: Prompts): map<Name, Function>
    requires AllLoad(d.modules, env) && ServersLoad(d.servers, known, controls, env, prompts)
  {
    AllFunctions(d.servers, ServerBundles(d.servers, known, controls, env, prompts))
    + (EntryFunctions(ModuleEntries(d.modules, env)) + controls.functions)
  }

  /** When a skill can be loaded: its modules and servers load, no name is invalid or stands for two functions
      among the controls, the modules and the scripts, and no declaration of a server contradicts another. */
  ghost predicate Assemblable(d: Definition, known: Servers, controls: Tools, env: Env, prompts: Prompts) {
    && AllLoad(d.modules, env)
    && Consistent(controls.functions, ModuleEntries(d.modules, env))
    && ServersLoad(d.servers, known, controls, env, prompts)
    && AllAgree(DeclaredByModules(d, controls, env, prompts), d.servers,
                ServerBundles(d.servers, known, controls, env, prompts))
    && Consistent(FunctionsBefore(d, known, controls, env, prompts), d.scripts)
  }

  lemma ModulesExact(d: Definition, controls: Tools, env: Env, prompts: Prompts)
    requires InSync(controls)
    ensures AddModules(controls, d.modules, env, prompts).Ok? <==>
            AllLoad(d.modules, env) && Consistent(controls.functions, ModuleEntries(d.modules, env))
    ensures AddModules(controls, d.modules, env, prompts).Ok? ==>
      var t := AddModules(controls, d.modules, env, prompts).value;
      && InSync(t) && t.functions == EntryFunctions(ModuleEntries(d.modules, env)) + controls.functions
      && Lookup(t.declarations) == DeclaredByModules(d, controls, env, prompts)
  {
    AddModulesIs(controls, d.modules, env, prompts);
    if AllLoad(d.modules, env) {
      RegisterAllExact(controls, ModuleEntries(d.modules, env), prompts);
    }
  }

  lemma ServersHeld(servers: seq<Name>, known: Servers, controls: Tools, env: Env, prompts: Prompts)
    requires ServersLoad(servers, known, controls, env, prompts) && Built(controls, prompts)
            && ServersBuilt(known, prompts)
    ensures var bundles := ServerBundles(servers, known, controls, env, prompts);
            HoldsServers(bundles, servers, known, controls, env, prompts) && Loaded(servers, bundles, prompts)
  {
    forall i | 0 <= i < |servers|
      ensures Built(ServerTools(servers[i], known, controls, env, prompts).value, prompts)
    {
      ServerBuilt(servers[i], known, controls, env, prompts);
    }
  }

  lemma ServersExact(t: Tools, servers: seq<Name>, known: Servers, controls: Tools, env: Env, prompts: Prompts)
    requires InSync(t) && Built(controls, prompts) && ServersBuilt(known, prompts)
    ensures AddServers(t, servers, known, controls, env, prompts).0.Ok? <==>
            ServersLoad(servers, known, controls, env, prompts)
              && AllAgree(Lookup(t.declarations), servers, ServerBundles(servers, known, controls, env, prompts))
    ensures AddServers(t, servers, known, controls, env, prompts).0.Ok? ==>
      var t', bundles :=
        AddServers(t, servers, known, controls, env, prompts).0.value,
        ServerBundles(servers, known, controls, env, prompts);
      && InSync(t') && t'.functions == AllFunctions(servers, bundles) + t.functions
      && Lookup(t'.declarations) == AllDeclarations(servers, bundles) + Lookup(t.declarations)
  {
    if ServersLoad(servers, known, controls, env, prompts) {
      var bundles := ServerBundles(servers, known, controls, env, prompts);
      ServersHeld(servers, known, controls, env, prompts);
      AddServersIs(t, servers, known, controls, env, prompts, bundles);
      StageExact(t, servers, bundles, prompts);
      if Stage(t, servers, bundles, prompts).Ok? {
        StagedExactly(t, servers, bundles, prompts);
      }
    } else {
      var k: nat :| k < |servers| && ServerTools(servers[k], known, controls, env, prompts).Err?;
      AddServersFails(t, servers, known, controls, env, prompts, k);
    }
  }

  /** A skill that is not cached can be loaded exactly if it can be assembled. Its registry then has the functions
      and the declarations of the controls, of its modules, of its servers and of its scripts; where several have
      a name, the first of these does. */
  lemma AssembleExact(d: Definition, known: Servers, controls: Tools, env: Env, prompts: Prompts)
    requires Built(controls, prompts) && ServersBuilt(known, prompts)
    ensures Assemble(d, known, controls, env, prompts).0.Ok? <==> Assemblable(d, known, controls, env, prompts)
    ensures Assemble(d, known, controls, env, prompts).0.Ok? ==>
      var bundle := Assemble(d, known, controls, env, prompts).0.value;
      var bundles := ServerBundles(d.servers, known, controls, env, prompts);
      && bundle.roots == d.roots && InSync(bundle.tools)
      && bundle.tools.functions ==
         EntryFunctions(d.scripts) + FunctionsBefore(d, known, controls, env, prompts)
      && Lookup(bundle.tools.declarations) ==
         EntryDeclarations(d.scripts, prompts)
         + (AllDeclarations(d.servers, bundles) + DeclaredByModules(d, controls, env, prompts))
  {
    ModulesExact(d, controls, env, prompts);
    var modules := AddModules(controls, d.modules, env, prompts);
    if modules.Ok? {
      ServersExact(modules.value, d.servers, known, controls, env, prompts);
      var merged := AddServers(modules.value, d.servers, known, controls, env, prompts).0;
      if merged.Ok? {
        RegisterAllExact(merged.value, d.scripts, prompts);
      }
    }
  }

  /** The names in the registry of a skill: exactly those of the controls and of the entries of its modules, of
      the registries of its servers, and of its scripts. */
  lemma AssembledNames(d: Definition, known: Servers, controls: Tools, env: Env, prompts: Prompts, n: Name)
    requires Built(controls, prompts) && ServersBuilt(known, prompts)
            && Assemble(d, known, controls, env, prompts).0.Ok?
    ensures n in Assemble(d, known, controls, env, prompts).0.value.tools.functions <==>
            || n in controls.functions
            || (exists m :: m in d.modules && m in env.modules && Names(env.modules[m], n))
            || (exists s :: s in d.servers && Provides(s, known, controls, env, prompts, n))
            || Names(d.scripts, n)
  {
    AssembleExact(d, known, controls, env, prompts);
    EntryNames(d.scripts, prompts, n);
    EntryNames(ModuleEntries(d.modules, env), prompts, n);
    ModuleNames(d.modules, env, n);
    var bundles := ServerBundles(d.servers, known, controls, env, prompts);
    ServerNames(d.servers, bundles, n);
    forall s | s in d.servers
      ensures Provides(s, known, controls, env, prompts, n) <==> s in bundles && n in bundles[s].tools.functions
    {
    }
  }

  ghost predicate Names(entries: seq<Entry>, n: Name) {
    exists i :: 0 <= i < |entries| && entries[i].declaration.name == n
  }

  predicate Provides(server: Name, known: Servers, controls: Tools, env: Env, prompts: Prompts, n: Name) {
    var tools := ServerTools(server, known, controls, env, prompts);
    tools.Ok? && n in tools.value.functions
  }

  lemma {:induction false} ModuleNames(modules: seq<Name>, env: Env, n: Name)
    requires AllLoad(modules, env)
    ensures Names(ModuleEntries(modules, env), n) <==>
            exists m :: m in modules && m in env.modules && Names(env.modules[m], n)
  {
    if modules != [] {
      var first, rest := env.modules[modules[0]], ModuleEntries(modules[1..], env);
      forall i | 0 <= i < |modules[1..]| ensures modules[1..][i] == modules[i + 1] {}
      ModuleNames(modules[1..], env, n);
      NamesConcat(first, rest, n);
      HeadAndTail(modules);
    }
  }

  lemma NamesConcat(a: seq<Entry>, b: seq<Entry>, n: Name)
    ensures Names(a + b, n) <==> Names(a, n) || Names(b, n)
  {
    if i :| 0 <= i < |b| && b[i].declaration.name == n {
      assert (a + b)[|a| + i] == b[i];
    }
    if i :| 0 <= i < |a| && a[i].declaration.name == n {
      assert (a + b)[i] == a[i];
    }
  }

  lemma {:induction false} ServerNames(names: seq<Name>, bundles: Bundles, n: Name)
    requires forall i :: 0 <= i < |names| ==> names[i] in bundles
    ensures n in AllFunctions(names, bundles) <==>
            exists s :: s in names && s in bundles && n in bundles[s].tools.functions
  {
    if names != [] {
      ServerNames(names[1..], bundles, n);
      HeadAndTail(names);
    }
  }

  // ---------- The servers afterwards ----------

  /** Loading a skill caches servers of it, each as it loads, and all of them if it succeeds. */
  lemma {:induction false} ServersCached(t: Tools, servers: seq<Name>, known: Servers, controls: Tools, env: Env,
                                         prompts: Prompts)
    ensures var (r, known') := AddServers(t, servers, known, controls, env, prompts);
            && (forall s :: s in known' ==>
                (s in known || s in servers) && ServerTools(s, known, controls, env, prompts) == Ok(known'[s]))
            && (forall s :: s in known ==> s in known')
            && (r.Ok? ==> forall s :: s in servers ==> s in known')
    decreases |servers|
  {
    if servers != [] {
      HeadAndTail(servers);
      var loaded := ServerTools(servers[0], known, controls, env, prompts);
      if loaded.Ok? {
        forall s {
          LoadedTheSame(servers[0], s, known, controls, env, prompts);
        }
        var next := Merge(t, loaded.value, prompts);
        if next.Ok? {
          ServersCached(next.value, servers[1..], known[servers[0] := loaded.value], controls, env, prompts);
        }
      }
    }
  }

  /** So it is for the skill. */
  lemma AssembleCaches(d: Definition, known: Servers, controls: Tools, env: Env, prompts: Prompts)
    ensures var (r, known') := Assemble(d, known, controls, env, prompts);
            && (forall s :: s in known' ==>
                (s in known || s in d.servers) && ServerTools(s, known, controls, env, prompts) == Ok(known'[s]))
            && (forall s :: s in known ==> s in known')
            && (r.Ok? ==> forall s :: s in d.servers ==> s in known')
  {
    var modules := AddModules(controls, d.modules, env, prompts);
    if modules.Ok? {
      ServersCached(modules.value, d.servers, known, controls, env, prompts);
    }
  }

  // ---------- The failure of a server ----------

  predicate Missing(server: Name, known: Servers, env: Env) { server !in known && server !in env.servers }

  lemma {:induction false} RegisterAllError(t: Tools, entries: seq<Entry>, prompts: Prompts)
    ensures RegisterAll(t, entries, prompts).Err? ==> RegisterAll(t, entries, prompts).error != MCP_LOAD_ERROR
    decreases |entries|
  {
    if entries != [] {
      var next := Register(t, entries[0].declaration, entries[0].func, prompts);
      assert |MCP_LOAD_ERROR| == 3;
      if next.Ok? {
        RegisterAllError(next.value, entries[1..], prompts);
      }
    }
  }

  lemma {:induction false} MergeError(target: Tools, existing: map<Name, Declaration>, ds: seq<Declaration>,
                                      functions: map<Name, Function>, prompts: Prompts)
    ensures var r := MergeFrom(target, existing, ds, functions, prompts); r.Err? ==> r.error != MCP_LOAD_ERROR
    decreases |ds|
  {
    assert |MCP_LOAD_ERROR| == 3;
    if ds != [] {
      var d := ds[0];
      if d.name in existing {
        MergeError(target, existing, ds[1..], functions, prompts);
      } else if d.name in functions {
        var next := Register(target, d, functions[d.name], prompts);
        if next.Ok? {
          MergeError(next.value, existing[d.name := d], ds[1..], functions, prompts);
        }
      }
    }
  }

  /** The first k servers are added and the next is missing. */
  ghost predicate StopsAt(t: Tools, servers: seq<Name>, known: Servers, controls: Tools, env: Env, prompts: Prompts,
                          k: nat)
  {
    && k < |servers| && Missing(servers[k], known, env)
    && AddServers(t, servers[..k], known, controls, env, prompts).0.Ok?
  }

  ghost predicate Stops(t: Tools, servers: seq<Name>, known: Servers, controls: Tools, env: Env, prompts: Prompts) {
    exists k: nat :: StopsAt(t, servers, known, controls, env, prompts, k)
  }

  lemma StopsLater(t: Tools, servers: seq<Name>, known: Servers, controls: Tools, env: Env, prompts: Prompts, k: nat)
    requires servers != [] && ServerTools(servers[0], known, controls, env, prompts).Ok? && k < |servers[1..]|
    ensures var loaded := ServerTools(servers[0], known, controls, env, prompts).value;
            var next := Merge(t, loaded, prompts);
            StopsAt(t, servers, known, controls, env, prompts, k + 1) <==>
            next.Ok? && StopsAt(next.value, servers[1..], known[servers[0] := loaded], controls, env, prompts, k)
  {
    assert servers[..k + 1][1..] == servers[1..][..k] && servers[..k + 1][0] == servers[0];
    assert servers[1..][k] == servers[k + 1];
  }

  lemma {:induction false} AddServersError(t: Tools, servers: seq<Name>, known: Servers, controls: Tools, env: Env,
                                           prompts: Prompts)
    ensures AddServers(t, servers, known, controls, env, prompts).0 == Err(MCP_LOAD_ERROR) <==>
            Stops(t, servers, known, controls, env, prompts)
    decreases |servers|
  {
    if servers != [] {
      var server := servers[0];
      if Missing(server, known, env) {
        assert StopsAt(t, servers, known, controls, env, prompts, 0);
      } else {
        var loaded := ServerTools(server, known, controls, env, prompts);
        if server !in known {
          RegisterAllError(controls, env.servers[server], prompts);
        }
        forall k: nat | StopsAt(t, servers, known, controls, env, prompts, k) ensures k > 0 && loaded.Ok? {
          assert k > 0 ==> servers[..k][0] == server;
        }
        if loaded.Ok? {
          var next := Merge(t, loaded.value, prompts);
          MergeError(t, Lookup(t.declarations), loaded.value.declarations, loaded.value.functions, prompts);
          if next.Ok? {
            AddServersError(next.value, servers[1..], known[server := loaded.value], controls, env, prompts);
          }
          StopsRest(t, servers, known, controls, env, prompts, next);
        }
      }
    }
  }

  lemma StopsRest(t: Tools, servers: seq<Name>, known: Servers, controls: Tools, env: Env, prompts: Prompts,
                  next: Result<Tools>)
    requires servers != [] && !Missing(servers[0], known, env)
    requires ServerTools(servers[0], known, controls, env, prompts).Ok?
    requires next == Merge(t, ServerTools(servers[0], known, controls, env, prompts).value, prompts)
    ensures var known' := known[servers[0] := ServerTools(servers[0], known, controls, env, prompts).value];
            Stops(t, servers, known, controls, env, prompts) <==>
            next.Ok? && Stops(next.value, servers[1..], known', controls, env, prompts)
  {
    var known' := known[servers[0] := ServerTools(servers[0], known, controls, env, prompts).value];
    if Stops(t, servers, known, controls, env, prompts) {
      var k: nat :| StopsAt(t, servers, known, controls, env, prompts, k);
      StopsLater(t, servers, known, controls, env, prompts, k - 1);
    }
    if next.Ok? && Stops(next.value, servers[1..], known', controls, env, prompts) {
      var k: nat :| StopsAt(next.value, servers[1..], known', controls, env, prompts, k);
      StopsLater(t, servers, known, controls, env, prompts, k);
    }
  }

  /** Its modules are fine, the first k of its servers load and agree, and the next cannot be had. */
  ghost predicate FailsAtServer(d: Definition, known: Servers, controls: Tools, env: Env, prompts: Prompts, k: nat) {
    && AllLoad(d.modules, env)
    && Consistent(controls.functions, ModuleEntries(d.modules, env))
    && k < |d.servers| && Missing(d.servers[k], known, env)
    && ServersLoad(d.servers[..k], known, controls, env, prompts)
    && AllAgree(DeclaredByModules(d, controls, env, prompts), d.servers[..k],
                ServerBundles(d.servers[..k], known, controls, env, prompts))
  }

  /** Whether a skill is cached, and else can be assembled, fails at a server, or fails otherwise, decides what
      `restore` makes of it: chosen, passed over, or an error. */
  lemma TryLoadExact(s: Setup, name: Name, cache: Cache, env: Env)
    requires name in s.definitions && Built(s.controls, s.prompts) && ServersBuilt(cache.servers, s.prompts)
    ensures var d, r := s.definitions[name], TryLoad(s, name, cache, env);
            && ((r.Ok? && r.value.0) <==>
                name in cache.bundles || Assemblable(d, cache.servers, s.controls, env, s.prompts))
            && ((r.Ok? && !r.value.0) <==>
                name !in cache.bundles
                  && exists k: nat :: FailsAtServer(d, cache.servers, s.controls, env, s.prompts, k))
  {
    var d, known, controls, prompts := s.definitions[name], cache.servers, s.controls, s.prompts;
    AssembleExact(d, known, controls, env, prompts);
    AssembleError(d, known, controls, env, prompts);
  }

  lemma AssembleError(d: Definition, known: Servers, controls: Tools, env: Env, prompts: Prompts)
    requires Built(controls, prompts) && ServersBuilt(known, prompts)
    ensures Assemble(d, known, controls, env, prompts).0 == Err(MCP_LOAD_ERROR) <==>
            exists k: nat :: FailsAtServer(d, known, controls, env, prompts, k)
  {
    ModulesExact(d, controls, env, prompts);
    ModulesError(controls, d.modules, env, prompts);
    var modules := AddModules(controls, d.modules, env, prompts);
    if modules.Ok? {
      AddServersError(modules.value, d.servers, known, controls, env, prompts);
      forall k: nat | k < |d.servers|
        ensures StopsAt(modules.value, d.servers, known, controls, env, prompts, k) <==>
                FailsAtServer(d, known, controls, env, prompts, k)
      {
        ServersExact(modules.value, d.servers[..k], known, controls, env, prompts);
      }
      var merged := AddServers(modules.value, d.servers, known, controls, env, prompts).0;
      if merged.Ok? {
        RegisterAllError(merged.value, d.scripts, prompts);
      }
    }
  }

  lemma {:induction false} ModulesError(t: Tools, modules: seq<Name>, env: Env, prompts: Prompts)
    ensures AddModules(t, modules, env, prompts).Err? ==> AddModules(t, modules, env, prompts).error != MCP_LOAD_ERROR
    decreases |modules|
  {
    assert |MCP_LOAD_ERROR| == 3;
    if modules != [] && modules[0] in env.modules {
      RegisterAllError(t, env.modules[modules[0]], prompts);
      var next := RegisterAll(t, env.modules[modules[0]], prompts);
      if next.Ok? {
        ModulesError(next.value, modules[1..], env, prompts);
      }
    }
  }

  // ---------- Roots and the order of declarations ----------

  /** The last of the skills that has a root for a path. */
  ghost predicate LastWith(names: seq<Name>, bundles: Bundles, path: string, i: int)
    requires forall i :: 0 <= i < |names| ==> names[i] in bundles
  {
    && 0 <= i < |names| && path in bundles[names[i]].roots
    && forall j :: i < j < |names| ==> path !in bundles[names[j]].roots
  }

  /** The staged roots are those of the skills, of the last where several have one, and else those there were. */
  lemma {:induction false} StagedRootsExact(roots: Roots, names: seq<Name>, bundles: Bundles, path: string)
    requires forall i :: 0 <= i < |names| ==> names[i] in bundles
    ensures var staged := StageRoots(roots, names, bundles);
            && (forall i :: LastWith(names, bundles, path, i) ==>
                path in staged && staged[path] == bundles[names[i]].roots[path])
            && ((forall i :: 0 <= i < |names| ==> path !in bundles[names[i]].roots) ==>
                (path in staged <==> path in roots) && (path in staged ==> staged[path] == roots[path]))
    decreases |names|
  {
    if names != [] {
      var next, rest := roots + bundles[names[0]].roots, names[1..];
      StagedRootsExact(next, rest, bundles, path);
      forall j | 0 <= j < |rest| ensures rest[j] == names[j + 1] {}
      var staged := StageRoots(roots, names, bundles);
      forall i | LastWith(names, bundles, path, i)
        ensures path in staged && staged[path] == bundles[names[i]].roots[path]
      {
        if i > 0 {
          assert LastWith(rest, bundles, path, i - 1);
        }
      }
    }
  }

  /** Merging only adds declarations, after those there are, each from the source and of a name that was new. */
  lemma {:induction false} MergeAppends(target: Tools, existing: map<Name, Declaration>, ds: seq<Declaration>,
                                        functions: map<Name, Function>, prompts: Prompts)
    requires MergeFrom(target, existing, ds, functions, prompts).Ok?
    ensures var t := MergeFrom(target, existing, ds, functions, prompts).value;
            && target.declarations <= t.declarations
            && forall i :: |target.declarations| <= i < |t.declarations| ==>
                 IsNew(t.declarations[i], existing, ds, prompts)
    decreases |ds|
  {
    if ds != [] {
      var d, rest := ds[0], ds[1..];
      HeadAndTail(ds);
      if d.name in existing {
        MergeAppends(target, existing, rest, functions, prompts);
      } else {
        var next := Register(target, d, functions[d.name], prompts).value;
        MergeAppends(next, existing[d.name := d], rest, functions, prompts);
        var t := MergeFrom(target, existing, ds, functions, prompts).value;
        AppendedPrefix(target.declarations, next.declarations, t.declarations);
        forall i | |target.declarations| <= i < |t.declarations|
          ensures IsNew(t.declarations[i], existing, ds, prompts)
        {
          if i < |next.declarations| {
            assert t.declarations[i] == next.declarations[i] == Prompted(d, prompts);
          }
        }
      }
    }
  }

  ghost predicate IsNew(added: Declaration, existing: map<Name, Declaration>, ds: seq<Declaration>, prompts: Prompts) {
    exists d :: d in ds && d.name !in existing && added == Prompted(d, prompts)
  }

  lemma AppendedPrefix(a: seq<Declaration>, b: seq<Declaration>, c: seq<Declaration>)
    requires a <= b <= c
    ensures a <= c
  {
  }
}
