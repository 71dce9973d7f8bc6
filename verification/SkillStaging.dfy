/** Staging the tools of a set of active skills (nodes/agent_skill_runtime.py, `_bundle` and `_commit`). */
module SkillStaging {
  import opened Results
  import opened Text
  import opened ToolRegistry

  type Roots = map<string, string>

  datatype Bundle = Bundle(tools: Tools, roots: Roots)
  type Bundles = map<Name, Bundle>

  // ---------- sorted(names) ----------

  ghost predicate IsLeast(s: set<Name>, m: Name) { m in s && forall x :: x in s ==> Below(m.text, x.text) }

  lemma {:induction false} LeastExists(s: set<Name>)
    requires s != {}
    ensures exists m :: IsLeast(s, m)
    decreases s
  {
    var a :| a in s;
    var rest := s - {a};
    BelowTotal(a.text, a.text);
    if rest == {} {
      assert s == {a} && IsLeast(s, a);
    } else {
      LeastExists(rest);
      var m :| IsLeast(rest, m);
      BelowTotal(a.text, m.text);
      if Below(a.text, m.text) {
        forall x | x in s ensures Below(a.text, x.text) {
          if x != a { BelowTransitive(a.text, m.text, x.text); }
        }
        assert IsLeast(s, a);
      } else {
        assert IsLeast(s, m);
      }
    }
  }

  lemma LeastUnique(s: set<Name>, m: Name, m': Name)
    requires IsLeast(s, m) && IsLeast(s, m')
    ensures m == m'
  {
    BelowTotal(m.text, m'.text);
  }

  ghost function Least(s: set<Name>): (m: Name)
    requires s != {}
    ensures IsLeast(s, m)
  {
    LeastExists(s);
    var m :| IsLeast(s, m);
    m
  }

  /** `sorted(names)` */
  ghost function SortedNames(s: set<Name>): (names: seq<Name>)
    ensures forall n :: n in names <==> n in s
    decreases s
  {
    if s == {} then [] else [Least(s)] + SortedNames(s - {Least(s)})
  }

  ghost predicate InOrder(names: seq<Name>) {
    forall i, j :: 0 <= i < j < |names| ==> Below(names[i].text, names[j].text) && names[i] != names[j]
  }

  /** They are in code point order, each once. */
  lemma {:induction false} SortedInOrder(s: set<Name>)
    ensures InOrder(SortedNames(s))
    decreases s
  {
    if s != {} {
      var first, rest := Least(s), SortedNames(s - {Least(s)});
      SortedInOrder(s - {first});
      forall j | 0 <= j < |rest| ensures Below(first.text, rest[j].text) && first != rest[j] {
        assert rest[j] in rest;
      }
      FirstInOrder(first, rest);
    }
  }

  lemma FirstInOrder(first: Name, rest: seq<Name>)
    requires InOrder(rest) && forall j :: 0 <= j < |rest| ==> Below(first.text, rest[j].text) && first != rest[j]
    ensures InOrder([first] + rest)
  {
    var names := [first] + rest;
    forall i, j | 0 <= i < j < |names| ensures Below(names[i].text, names[j].text) && names[i] != names[j] {
      assert names[j] == rest[j - 1] && (i > 0 ==> names[i] == rest[i - 1]);
    }
  }

  method FindLeast(s: set<Name>) returns (m: Name)
    requires s != {}
    ensures IsLeast(s, m)
  {
    m :| m in s;
    var others := s - {m};
    BelowTotal(m.text, m.text);
    while others != {}
      invariant others <= s && m in s
      invariant forall x :: x in s && x !in others ==> Below(m.text, x.text)
      decreases others
    {
      var x :| x in others;
      BelowTotal(m.text, x.text);
      if !Below(m.text, x.text) {
        forall y | y in s && y !in others ensures Below(x.text, y.text) {
          BelowTransitive(x.text, m.text, y.text);
        }
        m := x;
        BelowTotal(x.text, x.text);
      }
      others := others - {x};
    }
  }

  method Sort(s: set<Name>) returns (names: seq<Name>)
    ensures names == SortedNames(s)
    ensures forall i :: 0 <= i < |names| ==> names[i] in s
  {
    var left := s;
    ghost var goal := SortedNames(s);
    names := [];
    while left != {}
      invariant names + SortedNames(left) == goal
      decreases left
    {
      var m := FindLeast(left);
      SortStep(names, left, m);
      names := names + [m];
      left := left - {m};
    }
    assert names + [] == names;
    assert forall i :: 0 <= i < |names| ==> names[i] in names;
  }

  lemma SortStep(names: seq<Name>, left: set<Name>, m: Name)
    requires IsLeast(left, m)
    ensures names + SortedNames(left) == names + [m] + SortedNames(left - {m})
  {
    LeastUnique(left, m, Least(left));
    assert names + ([m] + SortedNames(left - {m})) == names + [m] + SortedNames(left - {m});
  }

  // ---------- Staging ----------

  ghost predicate Loaded(names: seq<Name>, bundles: Bundles, prompts: Prompts) {
    forall i :: 0 <= i < |names| ==> names[i] in bundles && Built(bundles[names[i]].tools, prompts)
  }

  /** The merge loop of `_commit` */
  function Stage(target: Tools, names: seq<Name>, bundles: Bundles, prompts: Prompts): Result<Tools>
    requires forall i :: 0 <= i < |names| ==> names[i] in bundles
    decreases |names|
  {
    if names == [] then Ok(target) else
      var next :- Merge(target, bundles[names[0]].tools, prompts);
      Stage(next, names[1..], bundles, prompts)
  }

  function StageRoots(roots: Roots, names: seq<Name>, bundles: Bundles): Roots
    requires forall i :: 0 <= i < |names| ==> names[i] in bundles
    decreases |names|
  {
    if names == [] then roots else StageRoots(roots + bundles[names[0]].roots, names[1..], bundles)
  }

  ghost function Declared(bundles: Bundles, n: Name): map<Name, Declaration>
    requires n in bundles
  {
    Lookup(bundles[n].tools.declarations)
  }

  ghost predicate AllAgree(found: map<Name, Declaration>, names: seq<Name>, bundles: Bundles)
    requires forall i :: 0 <= i < |names| ==> names[i] in bundles
  {
    && (forall i :: 0 <= i < |names| ==> Agree(found, Declared(bundles, names[i])))
    && (forall i, j :: 0 <= i < |names| && 0 <= j < |names| ==>
        Agree(Declared(bundles, names[i]), Declared(bundles, names[j])))
  }

  lemma AgreeUnion(a: map<Name, Declaration>, b: map<Name, Declaration>, c: map<Name, Declaration>)
    requires Agree(a, b)
    ensures Agree(a + b, c) <==> Agree(a, c) && Agree(b, c)
  {
    if Agree(a + b, c) {
      forall n | n in a && n in c ensures a[n] == c[n] { assert n in a + b; }
      forall n | n in b && n in c ensures b[n] == c[n] { assert n in a + b; }
    }
  }

  lemma AllAgreeCons(found: map<Name, Declaration>, names: seq<Name>, bundles: Bundles)
    requires names != [] && forall i :: 0 <= i < |names| ==> names[i] in bundles
    ensures AllAgree(found, names, bundles) <==>
            Agree(found, Declared(bundles, names[0]))
              && AllAgree(found + Declared(bundles, names[0]), names[1..], bundles)
  {
    var first, rest := Declared(bundles, names[0]), names[1..];
    assert names == [names[0]] + rest;
    if Agree(found, first) {
      forall i | 0 <= i < |rest|
        ensures Agree(found + first, Declared(bundles, rest[i])) <==>
                Agree(found, Declared(bundles, rest[i])) && Agree(first, Declared(bundles, rest[i]))
      {
        AgreeUnion(found, first, Declared(bundles, rest[i]));
      }
      if AllAgree(found + first, rest, bundles) {
        forall i, j | 0 <= i < |names| && 0 <= j < |names|
          ensures Agree(Declared(bundles, names[i]), Declared(bundles, names[j]))
        {
          if i > 0 { assert names[i] == rest[i - 1]; }
          if j > 0 { assert names[j] == rest[j - 1]; }
        }
        forall i | 0 <= i < |names| ensures Agree(found, Declared(bundles, names[i])) {
          if i > 0 { assert names[i] == rest[i - 1]; }
        }
      }
      if AllAgree(found, names, bundles) {
        forall i | 0 <= i < |rest| ensures Agree(found + first, Declared(bundles, rest[i])) {
          assert rest[i] == names[i + 1];
          assert Agree(Declared(bundles, names[0]), Declared(bundles, names[i + 1]));
        }
        forall i, j | 0 <= i < |rest| && 0 <= j < |rest|
          ensures Agree(Declared(bundles, rest[i]), Declared(bundles, rest[j])) {
          assert rest[i] == names[i + 1] && rest[j] == names[j + 1];
        }
      }
    } else {
      assert !AllAgree(found, names, bundles) by { assert names[0] == names[0]; }
    }
  }

  ghost predicate InSome(n: Name, names: seq<Name>, bundles: Bundles)
    requires forall i :: 0 <= i < |names| ==> names[i] in bundles
  {
    exists i :: 0 <= i < |names| && n in bundles[names[i]].tools.functions
  }

  /** Staging succeeds exactly when no two of the registries involved contradict each other, and then
      it has exactly the tools of the target and of the bundles. */
  lemma {:induction false} StageExact(target: Tools, names: seq<Name>, bundles: Bundles, prompts: Prompts)
    requires InSync(target) && Loaded(names, bundles, prompts)
    ensures Stage(target, names, bundles, prompts).Ok? <==> AllAgree(Lookup(target.declarations), names, bundles)
    ensures Stage(target, names, bundles, prompts).Ok? ==>
      var t := Stage(target, names, bundles, prompts).value;
      InSync(t) && forall n :: n in t.functions <==> n in target.functions || InSome(n, names, bundles)
    decreases |names|
  {
    if names != [] {
      var first := bundles[names[0]].tools;
      MergeExact(target, first, prompts);
      AllAgreeCons(Lookup(target.declarations), names, bundles);
      var next := Merge(target, first, prompts);
      if next.Ok? {
        StageExact(next.value, names[1..], bundles, prompts);
        forall n ensures InSome(n, names, bundles) <==> n in first.functions || InSome(n, names[1..], bundles) {
          InSomeCons(n, names, bundles);
        }
      }
    }
  }

  lemma InSomeCons(n: Name, names: seq<Name>, bundles: Bundles)
    requires names != [] && forall i :: 0 <= i < |names| ==> names[i] in bundles
    ensures InSome(n, names, bundles) <==> n in bundles[names[0]].tools.functions || InSome(n, names[1..], bundles)
  {
    var rest := names[1..];
    if InSome(n, names, bundles) {
      var i :| 0 <= i < |names| && n in bundles[names[i]].tools.functions;
      if i > 0 { assert names[i] == rest[i - 1]; }
    }
    if InSome(n, rest, bundles) {
      var i :| 0 <= i < |rest| && n in bundles[rest[i]].tools.functions;
      assert rest[i] == names[i + 1];
    }
  }

  /** Fewer skills cannot bring a conflict. */
  lemma FewerAgree(found: map<Name, Declaration>, names: seq<Name>, fewer: seq<Name>, bundles: Bundles)
    requires forall i :: 0 <= i < |names| ==> names[i] in bundles
    requires forall i :: 0 <= i < |fewer| ==> fewer[i] in bundles && fewer[i] in names
    requires AllAgree(found, names, bundles)
    ensures AllAgree(found, fewer, bundles)
  {
    forall i | 0 <= i < |fewer| ensures Agree(found, Declared(bundles, fewer[i])) {
      var k :| 0 <= k < |names| && names[k] == fewer[i];
    }
    forall i, j | 0 <= i < |fewer| && 0 <= j < |fewer|
      ensures Agree(Declared(bundles, fewer[i]), Declared(bundles, fewer[j])) {
      var k :| 0 <= k < |names| && names[k] == fewer[i];
      var l :| 0 <= l < |names| && names[l] == fewer[j];
      assert Agree(Declared(bundles, names[k]), Declared(bundles, names[l]));
    }
  }

  /** The staged registry of a set of skills; it does not depend on how the set came about. */
  ghost function Staged(start: Tools, active: set<Name>, bundles: Bundles, prompts: Prompts): Result<Tools>
    requires active <= bundles.Keys
  {
    Stage(start, SortedNames(active), bundles, prompts)
  }

  ghost function StagedRoots(roots: Roots, active: set<Name>, bundles: Bundles): Roots
    requires active <= bundles.Keys
  {
    StageRoots(roots, SortedNames(active), bundles)
  }

  ghost predicate AllBuilt(bundles: Bundles, prompts: Prompts) {
    forall n :: n in bundles ==> Built(bundles[n].tools, prompts)
  }

  /** Once a set of skills could be staged, every subset can. */
  lemma SubsetStages(start: Tools, active: set<Name>, fewer: set<Name>, bundles: Bundles, prompts: Prompts)
    requires InSync(start) && fewer <= active <= bundles.Keys && AllBuilt(bundles, prompts)
    requires Staged(start, active, bundles, prompts).Ok?
    ensures Staged(start, fewer, bundles, prompts).Ok?
  {
    StageExact(start, SortedNames(active), bundles, prompts);
    StageExact(start, SortedNames(fewer), bundles, prompts);
    FewerAgree(Lookup(start.declarations), SortedNames(active), SortedNames(fewer), bundles);
  }

  /** The tools a staged registry has. */
  lemma StagedTools(start: Tools, active: set<Name>, bundles: Bundles, prompts: Prompts)
    requires InSync(start) && active <= bundles.Keys && AllBuilt(bundles, prompts)
    requires Staged(start, active, bundles, prompts).Ok?
    ensures forall n :: n in Staged(start, active, bundles, prompts).value.functions <==>
      n in start.functions || exists skill :: skill in active && n in bundles[skill].tools.functions
  {
    StageExact(start, SortedNames(active), bundles, prompts);
    forall n
      ensures InSome(n, SortedNames(active), bundles) <==>
              exists skill :: skill in active && n in bundles[skill].tools.functions {
      InSomeMeans(n, active, SortedNames(active), bundles);
    }
  }

  lemma InSomeMeans(n: Name, active: set<Name>, names: seq<Name>, bundles: Bundles)
    requires active <= bundles.Keys && (forall skill :: skill in names <==> skill in active)
    ensures InSome(n, names, bundles) <==> exists skill :: skill in active && n in bundles[skill].tools.functions
  {
    if InSome(n, names, bundles) {
      var i :| 0 <= i < |names| && n in bundles[names[i]].tools.functions;
      assert names[i] in names;
    }
    if skill :| skill in active && n in bundles[skill].tools.functions {
      assert skill in names;
      var i :| 0 <= i < |names| && names[i] == skill;
    }
  }

  /** Only the bundles of the staged skills matter. */
  lemma {:induction false} StageFrame(target: Tools, roots: Roots, names: seq<Name>, bundles: Bundles, more: Bundles,
                                      prompts: Prompts)
    requires forall i :: 0 <= i < |names| ==>
            names[i] in bundles && names[i] in more && more[names[i]] == bundles[names[i]]
    ensures Stage(target, names, more, prompts) == Stage(target, names, bundles, prompts)
    ensures StageRoots(roots, names, more) == StageRoots(roots, names, bundles)
    decreases |names|
  {
    if names != [] {
      StageFrame(target, roots + bundles[names[0]].roots, names[1..], bundles, more, prompts);
      var next := Merge(target, bundles[names[0]].tools, prompts);
      if next.Ok? {
        StageFrame(next.value, roots, names[1..], bundles, more, prompts);
      }
    }
  }

  /** One more skill at the end of the merge loop. */
  lemma {:induction false} StageMore(target: Tools, roots: Roots, names: seq<Name>, last: Name, bundles: Bundles,
                                     prompts: Prompts)
    requires last in bundles && forall i :: 0 <= i < |names| ==> names[i] in bundles
    ensures Stage(target, names, bundles, prompts).Ok? ==>
      Stage(target, names + [last], bundles, prompts) ==
        Merge(Stage(target, names, bundles, prompts).value, bundles[last].tools, prompts)
    ensures Stage(target, names, bundles, prompts).Err? ==> Stage(target, names + [last], bundles, prompts).Err?
    ensures StageRoots(roots, names + [last], bundles) == StageRoots(roots, names, bundles) + bundles[last].roots
    decreases |names|
  {
    if names == [] {
      var one := names + [last];
      assert one[0] == last && one[1..] == [];
      assert Stage(target, one, bundles, prompts) == Merge(target, bundles[last].tools, prompts);
    } else {
      assert (names + [last])[1..] == names[1..] + [last];
      StageMore(target, roots + bundles[names[0]].roots, names[1..], last, bundles, prompts);
      var next := Merge(target, bundles[names[0]].tools, prompts);
      if next.Ok? {
        StageMore(next.value, roots, names[1..], last, bundles, prompts);
      }
    }
  }
}
