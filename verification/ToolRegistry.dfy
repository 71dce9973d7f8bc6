/** Tool registries (src/tool/base_tool.py) and their merging (nodes/agent_skill_runtime.py, `_merge`). */
module ToolRegistry {
  import opened Results

  datatype Name = Name(text: string)
  type Function = nat

  datatype Declaration = Declaration(name: Name, description: string, schema: string)

  /** A `BaseTool`: its function map and its list of declarations. */
  datatype Tools = Tools(functions: map<Name, Function>, declarations: seq<Declaration>)

  datatype Entry = Entry(declaration: Declaration, func: Function)

  /** Descriptions that replace those of the declarations, by tool name. */
  type Prompts = map<Name, string>

  /** `apply_tool_prompt` */
  function Prompted(d: Declaration, prompts: Prompts): Declaration {
    if d.name in prompts then d.(description := prompts[d.name]) else d
  }

  /** `^[a-zA-Z0-9_-]+$` */
  predicate ValidName(n: Name) {
    n.text != [] && forall i :: 0 <= i < |n.text| ==>
      var c := n.text[i]; 'a' <= c <= 'z' || 'A' <= c <= 'Z' || '0' <= c <= '9' || c == '_' || c == '-'
  }

  /** `register_external_tool` */
  function Register(t: Tools, d: Declaration, f: Function, prompts: Prompts): Result<Tools> {
    if !ValidName(d.name) then Err("invalid function name")
    else if d.name in t.functions && t.functions[d.name] != f then Err("declared by multiple callables")
    else Ok(Tools(t.functions[d.name := f],
                  if d.name in t.functions then t.declarations else t.declarations + [Prompted(d, prompts)]))
  }

  function RegisterAll(t: Tools, entries: seq<Entry>, prompts: Prompts): Result<Tools>
    decreases |entries|
  {
    if entries == [] then Ok(t) else
      var next :- Register(t, entries[0].declaration, entries[0].func, prompts);
      RegisterAll(next, entries[1..], prompts)
  }

  /** The declarations by name; a later one hides an earlier one of the same name. */
  function Lookup(ds: seq<Declaration>): map<Name, Declaration> {
    if ds == [] then map[] else Lookup(ds[..|ds| - 1])[ds[|ds| - 1].name := ds[|ds| - 1]]
  }

  /** The loop of `_merge`, with its `existing` dictionary */
  function MergeFrom(target: Tools, existing: map<Name, Declaration>, ds: seq<Declaration>,
                     functions: map<Name, Function>, prompts: Prompts): Result<Tools>
    decreases |ds|
  {
    if ds == [] then Ok(target) else
      var d := ds[0];
      if d.name in existing then
        if existing[d.name] != d then Err("Conflicting declarations for shared skill tool")
        else MergeFrom(target, existing, ds[1..], functions, prompts)
      else if d.name !in functions then Err("missing function")
      else
        var next :- Register(target, d, functions[d.name], prompts);
        MergeFrom(next, existing[d.name := d], ds[1..], functions, prompts)
  }

  /** `_merge` */
  function Merge(target: Tools, source: Tools, prompts: Prompts): Result<Tools> {
    MergeFrom(target, Lookup(target.declarations), source.declarations, source.functions, prompts)
  }

  // ---------- Registries built by registration ----------

  /** Exactly the declared tools have a function. */
  ghost predicate InSync(t: Tools) { t.functions.Keys == Lookup(t.declarations).Keys }

  /** Every declaration is the one its name finds, has a valid name and its prompt applied. */
  ghost predicate Built(t: Tools, prompts: Prompts) {
    && InSync(t)
    && (forall i :: 0 <= i < |t.declarations| ==>
          var d := t.declarations[i];
          d.name in t.functions && Lookup(t.declarations)[d.name] == d && ValidName(d.name)
            && Prompted(d, prompts) == d)
  }

  lemma LookupAppend(ds: seq<Declaration>, d: Declaration)
    ensures Lookup(ds + [d]) == Lookup(ds)[d.name := d]
  {
    assert (ds + [d])[..|ds|] == ds;
  }

  lemma {:induction false} LookupNamed(ds: seq<Declaration>)
    ensures forall n :: n in Lookup(ds) ==> Lookup(ds)[n].name == n && Lookup(ds)[n] in ds
    ensures forall i :: 0 <= i < |ds| ==> ds[i].name in Lookup(ds)
  {
    if ds != [] {
      LookupNamed(ds[..|ds| - 1]);
      assert ds == ds[..|ds| - 1] + [ds[|ds| - 1]];
    }
  }

  lemma RegisterBuilt(t: Tools, d: Declaration, f: Function, prompts: Prompts)
    requires Built(t, prompts) && Register(t, d, f, prompts).Ok?
    ensures Built(Register(t, d, f, prompts).value, prompts)
  {
    var t' := Register(t, d, f, prompts).value;
    if d.name !in t.functions {
      var p := Prompted(d, prompts);
      LookupAppend(t.declarations, p);
      forall i | 0 <= i < |t'.declarations|
        ensures var e := t'.declarations[i];
                e.name in t'.functions && Lookup(t'.declarations)[e.name] == e && ValidName(e.name)
                  && Prompted(e, prompts) == e
      {
        if i < |t.declarations| {
          assert t'.declarations[i] == t.declarations[i];
        }
      }
    }
  }

  lemma {:induction false} RegisterAllBuilt(t: Tools, entries: seq<Entry>, prompts: Prompts)
    requires Built(t, prompts) && RegisterAll(t, entries, prompts).Ok?
    ensures Built(RegisterAll(t, entries, prompts).value, prompts)
    decreases |entries|
  {
    if entries != [] {
      RegisterBuilt(t, entries[0].declaration, entries[0].func, prompts);
      RegisterAllBuilt(Register(t, entries[0].declaration, entries[0].func, prompts).value, entries[1..], prompts);
    }
  }

  // ---------- What merging does ----------

  /** Two sets of declarations that do not contradict each other. */
  ghost predicate Agree(a: map<Name, Declaration>, b: map<Name, Declaration>) {
    forall n :: n in a && n in b ==> a[n] == b[n]
  }

  ghost predicate NoConflict(found: map<Name, Declaration>, ds: seq<Declaration>) {
    forall i :: 0 <= i < |ds| && ds[i].name in found ==> found[ds[i].name] == ds[i]
  }

  ghost function FunctionsOf(ds: seq<Declaration>, functions: map<Name, Function>): map<Name, Function> {
    map n | n in Lookup(ds) && n in functions :: functions[n]
  }

  /** The target with the declarations added that it lacked, and their functions. */
  ghost predicate Merged(target: Tools, ds: seq<Declaration>, functions: map<Name, Function>, t: Tools) {
    && InSync(t)
    && Lookup(t.declarations) == Lookup(target.declarations) + Lookup(ds)
    && t.functions == FunctionsOf(ds, functions) + target.functions
  }

  ghost predicate PartOf(ds: seq<Declaration>, source: Tools) {
    forall i :: 0 <= i < |ds| ==> ds[i] in source.declarations
  }

  lemma {:induction false} MergeFromExact(target: Tools, ds: seq<Declaration>, source: Tools, prompts: Prompts)
    requires InSync(target) && Built(source, prompts) && PartOf(ds, source)
    ensures var r := MergeFrom(target, Lookup(target.declarations), ds, source.functions, prompts);
            && (r.Ok? <==> NoConflict(Lookup(target.declarations), ds))
            && (r.Ok? ==> Merged(target, ds, source.functions, r.value))
    decreases |ds|
  {
    if ds != [] {
      var d, rest := ds[0], ds[1..];
      assert ds == [d] + rest;
      SourceDistinct(source, prompts, d, rest);
      if d.name in Lookup(target.declarations) {
        if Lookup(target.declarations)[d.name] == d {
          MergeFromExact(target, rest, source, prompts);
          MergedKnown(target, d, rest, source.functions);
        }
      } else {
        var next := Tools(target.functions[d.name := source.functions[d.name]], target.declarations + [d]);
        LookupAppend(target.declarations, d);
        MergeFromExact(next, rest, source, prompts);
        NewConflicts(Lookup(target.declarations), d, rest);
        var r := MergeFrom(next, Lookup(next.declarations), rest, source.functions, prompts);
        if r.Ok? {
          MergedNew(target, d, rest, source.functions, next, r.value);
        }
      }
    }
  }

  lemma MergedKnown(target: Tools, d: Declaration, rest: seq<Declaration>, functions: map<Name, Function>)
    requires InSync(target) && d.name in Lookup(target.declarations) && Lookup(target.declarations)[d.name] == d
    ensures NoConflict(Lookup(target.declarations), [d] + rest) <==> NoConflict(Lookup(target.declarations), rest)
    ensures forall t :: Merged(target, rest, functions, t) ==> Merged(target, [d] + rest, functions, t)
  {
    LookupCons(d, rest);
    assert Lookup(target.declarations) + Lookup([d] + rest) == Lookup(target.declarations) + Lookup(rest);
    assert FunctionsOf([d] + rest, functions) + target.functions == FunctionsOf(rest, functions) + target.functions;
    NoConflictCons(Lookup(target.declarations), d, rest);
  }

  lemma NewConflicts(found: map<Name, Declaration>, d: Declaration, rest: seq<Declaration>)
    requires d.name !in found
    requires forall i :: 0 <= i < |rest| && rest[i].name == d.name ==> rest[i] == d
    ensures NoConflict(found, [d] + rest) <==> NoConflict(found[d.name := d], rest)
  {
    NoConflictCons(found, d, rest);
  }

  lemma NewFunctions(d: Declaration, rest: seq<Declaration>, functions: map<Name, Function>, known: map<Name, Function>)
    requires d.name in functions && d.name !in known
    ensures FunctionsOf([d] + rest, functions) + known ==
            FunctionsOf(rest, functions) + known[d.name := functions[d.name]]
  {
    LookupCons(d, rest);
  }

  lemma MergedNew(target: Tools, d: Declaration, rest: seq<Declaration>, functions: map<Name, Function>, next: Tools,
                  t: Tools)
    requires InSync(target) && d.name !in Lookup(target.declarations) && d.name in functions
    requires next == Tools(target.functions[d.name := functions[d.name]], target.declarations + [d])
    requires Merged(next, rest, functions, t)
    ensures Merged(target, [d] + rest, functions, t)
  {
    LookupCons(d, rest);
    LookupAppend(target.declarations, d);
    Shift(Lookup(target.declarations), d.name, d, Lookup(rest));
    NewFunctions(d, rest, functions, target.functions);
  }

  lemma Shift<K, V>(m: map<K, V>, k: K, v: V, r: map<K, V>)
    ensures m + (map[k := v] + r) == m[k := v] + r
  {
  }

  lemma NoConflictCons(found: map<Name, Declaration>, d: Declaration, rest: seq<Declaration>)
    ensures NoConflict(found, [d] + rest) <==> (d.name in found ==> found[d.name] == d) && NoConflict(found, rest)
  {
    var ds := [d] + rest;
    assert ds[0] == d;
    forall i | 0 <= i < |rest| ensures rest[i] == ds[i + 1] {}
  }

  /** A built registry declares no name in two ways. */
  lemma SourceDistinct(source: Tools, prompts: Prompts, d: Declaration, rest: seq<Declaration>)
    requires Built(source, prompts) && d in source.declarations
    requires forall i :: 0 <= i < |rest| ==> rest[i] in source.declarations
    ensures forall i :: 0 <= i < |rest| && rest[i].name == d.name ==> rest[i] == d
    ensures d.name in source.functions && ValidName(d.name) && Prompted(d, prompts) == d
  {
    var k :| 0 <= k < |source.declarations| && source.declarations[k] == d;
    forall i | 0 <= i < |rest| && rest[i].name == d.name ensures rest[i] == d {
      var j :| 0 <= j < |source.declarations| && source.declarations[j] == rest[i];
    }
  }

  lemma {:induction false} LookupCons(d: Declaration, rest: seq<Declaration>)
    ensures Lookup([d] + rest) == map[d.name := d] + Lookup(rest)
  {
    if rest != [] {
      var n := |rest| - 1;
      assert ([d] + rest)[..|rest|] == [d] + rest[..n];
      LookupCons(d, rest[..n]);
    }
  }

  /** Merging a built registry succeeds exactly when its declarations agree with the target's, and
      then adds exactly the tools the target lacks. */
  lemma MergeExact(target: Tools, source: Tools, prompts: Prompts)
    requires InSync(target) && Built(source, prompts)
    ensures Merge(target, source, prompts).Ok? <==> Agree(Lookup(target.declarations), Lookup(source.declarations))
    ensures Merge(target, source, prompts).Ok? ==>
      var t := Merge(target, source, prompts).value;
      && InSync(t)
      && Lookup(t.declarations) == Lookup(target.declarations) + Lookup(source.declarations)
      && t.functions == source.functions + target.functions
  {
    MergeFromExact(target, source.declarations, source, prompts);
    LookupNamed(source.declarations);
    assert FunctionsOf(source.declarations, source.functions) == source.functions;
    var found := Lookup(target.declarations);
    if NoConflict(found, source.declarations) {
      forall n | n in found && n in Lookup(source.declarations) ensures found[n] == Lookup(source.declarations)[n] {
        var i :| 0 <= i < |source.declarations| && source.declarations[i] == Lookup(source.declarations)[n];
      }
    }
  }

  lemma {:induction false} MergeFromBuilt(target: Tools, existing: map<Name, Declaration>, ds: seq<Declaration>,
                                          functions: map<Name, Function>, prompts: Prompts)
    requires Built(target, prompts) && MergeFrom(target, existing, ds, functions, prompts).Ok?
    ensures Built(MergeFrom(target, existing, ds, functions, prompts).value, prompts)
    decreases |ds|
  {
    if ds != [] {
      var d := ds[0];
      if d.name in existing {
        MergeFromBuilt(target, existing, ds[1..], functions, prompts);
      } else {
        RegisterBuilt(target, d, functions[d.name], prompts);
        MergeFromBuilt(Register(target, d, functions[d.name], prompts).value, existing[d.name := d], ds[1..], functions,
          prompts);
      }
    }
  }

  // ---------- The code ----------

  /** `existing` of `_merge` */
  method Index(ds: seq<Declaration>) returns (existing: map<Name, Declaration>)
    ensures existing == Lookup(ds)
  {
    existing := map[];
    for k := 0 to |ds|
      invariant existing == Lookup(ds[..k])
    {
      assert ds[..k + 1] == ds[..k] + [ds[k]];
      LookupAppend(ds[..k], ds[k]);
      existing := existing[ds[k].name := ds[k]];
    }
    assert ds[..|ds|] == ds;
  }

  /** `_merge` */
  method MergeInto(target: Tools, source: Tools, prompts: Prompts) returns (r: Result<Tools>)
    ensures r == Merge(target, source, prompts)
  {
    var existing := Index(target.declarations);
    var merged := target;
    ghost var left := source.declarations;
    for k := 0 to |source.declarations|
      invariant left == source.declarations[k..]
      invariant Merge(target, source, prompts) == MergeFrom(merged, existing, left, source.functions, prompts)
    {
      var d := source.declarations[k];
      assert left[0] == d;
      if d.name in existing {
        if existing[d.name] != d {
          return Err("Conflicting declarations for shared skill tool");
        }
      } else {
        if d.name !in source.functions {
          return Err("missing function");
        }
        var next := Register(merged, d, source.functions[d.name], prompts);
        if next.Err? {
          return Err(next.error);
        }
        merged, existing := next.value, existing[d.name := d];
      }
      left := left[1..];
    }
    r := Ok(merged);
  }

  /** Registering the entries of a tool module, a server or a skill's scripts */
  method RegisterEntries(t: Tools, entries: seq<Entry>, prompts: Prompts) returns (r: Result<Tools>)
    ensures r == RegisterAll(t, entries, prompts)
  {
    var tools := t;
    ghost var left := entries;
    for k := 0 to |entries|
      invariant left == entries[k..]
      invariant RegisterAll(t, entries, prompts) == RegisterAll(tools, left, prompts)
    {
      var next := Register(tools, entries[k].declaration, entries[k].func, prompts);
      if next.Err? {
        return Err(next.error);
      }
      tools, left := next.value, left[1..];
    }
    r := Ok(tools);
  }
}
