/** What the loader of src/js/loader.js guarantees, and what it does not,
    proved about the functions of `LoadModel`. */
module LoadProperties {
  import opened Js
  import opened Dom
  import opened Registry
  import opened DataStore
  import opened LoadModel

  /** The two record shapes the loader writes: `{loadedComponents: []}` and
      `{component: obj}`. */
  predicate Shaped(r: Record)
  {
    r == EmptyLoaded || (r.loadedComponents.None? && r.component.Some?)
  }

  /** A call made for one of the names the element's attribute requests. */
  predicate Requested(c: Call)
  {
    c.el.component.Some? && c.name in Split(c.el.component.value)
  }

  /** The element identities of `scope`. */
  function Refs(scope: seq<Node>): set<nat>
  {
    set n | n in scope :: n.ref
  }

  /** `ref` has the same record, or none, in both maps. */
  predicate Unchanged(r0: map<nat, Record>, r1: map<nat, Record>, ref: nat)
  {
    (ref in r0 <==> ref in r1) && (ref in r0 ==> r0[ref] == r1[ref])
  }

  /** The element of the last call still has its `{loadedComponents: ...}`
      record: the constructor did not return, so no `{component: obj}` was
      stored. */
  predicate LastCallUnfinished(w: World)
  {
    && |w.trace| > 0
    && GetData(w.records, w.trace[|w.trace| - 1].el.ref).Some?
    && GetData(w.records, w.trace[|w.trace| - 1].el.ref).value.loadedComponents.Some?
  }

  /** What a load confined to `scope` may do to the world: append calls made
      on elements of `scope` for names they request, rewrite records of
      elements of `scope` only and only into the two loader shapes, and, when
      a constructor threw, stop right after that call with the element's
      record still a `loadedComponents` one. */
  ghost predicate Effect(scope: seq<Node>, w: World, o: Outcome)
  {
    CallsWithin(scope, w.trace, o.world.trace) && RecordsWithin(scope, w.records, o.world.records)
    && (o.threw ==> |o.world.trace| > |w.trace| && LastCallUnfinished(o.world))
  }

  /** `t` extends `t0` with calls on elements of `scope` only. */
  predicate CallsWithin(scope: seq<Node>, t0: seq<Call>, t: seq<Call>)
  {
    && t0 <= t
    && forall k :: |t0| <= k < |t| ==> t[k].el in scope && Requested(t[k])
  }

  /** `r` differs from `r0` only on elements of `scope`, each rewritten into
      one of the loader shapes. */
  ghost predicate RecordsWithin(scope: seq<Node>, r0: map<nat, Record>, r: map<nat, Record>)
  {
    forall ref :: ref in r0 || ref in r ==>
      Unchanged(r0, r, ref) || (ref in Refs(scope) && ref in r && Shaped(r[ref]))
  }

  lemma EffectRefl(scope: seq<Node>, w: World)
    ensures Effect(scope, w, Outcome(w, false))
  {
  }

  lemma EffectTrans(scope: seq<Node>, w: World, o1: Outcome, o2: Outcome)
    requires Effect(scope, w, o1) && !o1.threw && Effect(scope, o1.world, o2)
    ensures Effect(scope, w, o2)
  {
    var t0, t1, t2 := w.trace, o1.world.trace, o2.world.trace;
    forall k | |t0| <= k < |t2|
      ensures t2[k].el in scope && Requested(t2[k])
    {
      if k < |t1| {
        assert t2[k] == t1[k];
      }
    }
    var r0, r1, r2 := w.records, o1.world.records, o2.world.records;
    forall ref | ref in r0 || ref in r2
      ensures Unchanged(r0, r2, ref) || (ref in Refs(scope) && ref in r2 && Shaped(r2[ref]))
    {
      if ref in r0 || ref in r1 {
        assert Unchanged(r0, r1, ref) || (ref in Refs(scope) && ref in r1 && Shaped(r1[ref]));
        assert Unchanged(r1, r2, ref) || (ref in Refs(scope) && ref in r2 && Shaped(r2[ref]));
      } else {
        assert Unchanged(r1, r2, ref) || (ref in Refs(scope) && ref in r2 && Shaped(r2[ref]));
      }
    }
  }

  lemma EffectWiden(small: seq<Node>, big: seq<Node>, w: World, o: Outcome)
    requires Effect(small, w, o)
    requires forall x :: x in small ==> x in big
    ensures Effect(big, w, o)
  {
    assert Refs(small) <= Refs(big);
  }

  /** The record-and-constructor step touches only `el`. */
  lemma InstantiateEffect(el: Node, name: string, throws: (Node, Value) -> bool, w: World, env: Env)
    requires el.component.Some? && name in Split(el.component.value)
    ensures Effect([el], w, Instantiate(el, name, throws, w, env))
    ensures |Instantiate(el, name, throws, w, env).world.trace| <= |w.trace| + 1
  {
    var o := Instantiate(el, name, throws, w, env);
    assert Refs([el]) == {el.ref};
    forall ref | ref in w.records || ref in o.world.records
      ensures || Unchanged(w.records, o.world.records, ref)
              || (ref in Refs([el]) && ref in o.world.records && Shaped(o.world.records[ref]))
    {
      if ref != el.ref {
        assert Unchanged(w.records, o.world.records, ref);
      }
    }
  }

  lemma {:induction false} LoadSpecEffect(root: Node, list: seq<Definition>, w: World, env: Env, U: set<Definition>)
    requires Closed(U) && Within(list, U)
    ensures Effect(Scan(root), w, LoadSpec(root, list, w, env, U))
    decreases Size(root), 2, 0
  {
    LoadNodesEffect(root, 0, list, w, env, U);
  }

  lemma {:induction false} LoadNodesEffect(
    root: Node, i: nat, list: seq<Definition>, w: World, env: Env, U: set<Definition>)
    requires Closed(U) && Within(list, U) && i <= |Scan(root)|
    ensures Effect(Scan(root), w, LoadNodes(root, i, list, w, env, U))
    decreases Size(root), 1, 2 * (|Scan(root)| - i) + 1
  {
    if i == |Scan(root)| {
      EffectRefl(Scan(root), w);
    } else {
      var el := Scan(root)[i];
      ScanSmaller(root);
      var o := LoadNames(root, el, 0, list, w, env, U);
      LoadNamesEffect(root, el, 0, list, w, env, U);
      if !o.threw {
        LoadNodesEffect(root, i + 1, list, o.world, env, U);
        EffectTrans(Scan(root), w, o, LoadNodes(root, i + 1, list, o.world, env, U));
      }
    }
  }

  lemma {:induction false} LoadNamesEffect(
    root: Node, el: Node, j: nat, list: seq<Definition>, w: World, env: Env, U: set<Definition>)
    requires Closed(U) && Within(list, U) && Size(el) < Size(root)
    requires el in Scan(root) && el.component.Some? && j <= |Split(el.component.value)|
    ensures Effect(Scan(root), w, LoadNames(root, el, j, list, w, env, U))
    decreases Size(root), 0, |Split(el.component.value)| - j + 2
  {
    var names := Split(el.component.value);
    if j == |names| {
      EffectRefl(Scan(root), w);
    } else {
      var o := LoadName(root, el, names[j], list, w, env, U);
      LoadNameEffect(root, el, names[j], list, w, env, U);
      if !o.threw {
        LoadNamesEffect(root, el, j + 1, list, o.world, env, U);
        EffectTrans(Scan(root), w, o, LoadNames(root, el, j + 1, list, o.world, env, U));
      }
    }
  }

  lemma {:induction false} LoadNameEffect(
    root: Node, el: Node, name: string, list: seq<Definition>, w: World, env: Env, U: set<Definition>)
    requires Closed(U) && Within(list, U) && Size(el) < Size(root)
    requires el in Scan(root) && el.component.Some? && name in Split(el.component.value)
    ensures Effect(Scan(root), w, LoadName(root, el, name, list, w, env, U))
    decreases Size(root), 0, 1
  {
    match FindIndex(list, name)
    case None =>
      EffectRefl(Scan(root), w);
    case Some(k) =>
      var d := list[k];
      var o := DependencyPass(root, el, d, w, env, U);
      if HasDependencies(d) {
        LoadSpecEffect(el, d.dependencies.value, w, env, U);
        ScanTransitive(root, el);
        EffectWiden(Scan(el), Scan(root), w, o);
      } else {
        EffectRefl(Scan(root), w);
      }
      if !o.threw {
        var o2 := Instantiate(el, name, d.throws, o.world, env);
        InstantiateEffect(el, name, d.throws, o.world, env);
        EffectWiden([el], Scan(root), o.world, o2);
        EffectTrans(Scan(root), w, o, o2);
      }
  }

  /** A whole `load(root, list)`: every constructor call it makes is on a
      proper descendant of `root` carrying `data-component`, never on `root`
      itself, and for a name that element requests; it rewrites only those
      elements' records, each into `{loadedComponents: []}` or
      `{component: obj}`; earlier calls stay as they were; and when a
      constructor exception escapes, the load stops right after that call,
      leaving that element without a `{component: obj}` record. */
  lemma LoadEffect(root: Node, list: seq<Definition>, w: World, env: Env, U: set<Definition>)
    requires Closed(U) && Within(list, U)
    ensures var o := LoadSpec(root, list, w, env, U);
      && w.trace <= o.world.trace
      && (forall k :: |w.trace| <= k < |o.world.trace| ==>
            && o.world.trace[k].el in Descendants(root)
            && o.world.trace[k].el != root
            && Requested(o.world.trace[k]))
      && (forall ref :: ref in w.records || ref in o.world.records ==>
            || Unchanged(w.records, o.world.records, ref)
            || (ref in Refs(Scan(root)) && ref in o.world.records && Shaped(o.world.records[ref])))
      && (o.threw ==> LastCallUnfinished(o.world))
  {
    LoadSpecEffect(root, list, w, env, U);
    ScanSmaller(root);
  }

  /** Every record holds an empty `loadedComponents` array, if any. */
  predicate LoadedEmpty(records: map<nat, Record>)
  {
    forall ref :: ref in records && records[ref].loadedComponents.Some? ==> records[ref].loadedComponents.value == []
  }

  /** Starting from a store whose recorded arrays are all empty (a fresh
      store in particular), a load leaves them all empty: the loader never
      stores a non-empty `loadedComponents`, although the source pushes the
      name onto its local copy. With `LoadEffect`, the element whose
      constructor threw is left with `{loadedComponents: []}`. */
  lemma LoadKeepsLoadedEmpty(root: Node, list: seq<Definition>, w: World, env: Env, U: set<Definition>)
    requires Closed(U) && Within(list, U)
    requires LoadedEmpty(w.records)
    ensures LoadedEmpty(LoadSpec(root, list, w, env, U).world.records)
  {
    var o := LoadSpec(root, list, w, env, U);
    LoadSpecEffect(root, list, w, env, U);
    ShapesKeepLoadedEmpty(Scan(root), w.records, o.world.records);
  }

  lemma ShapesKeepLoadedEmpty(scope: seq<Node>, r0: map<nat, Record>, r: map<nat, Record>)
    requires RecordsWithin(scope, r0, r) && LoadedEmpty(r0)
    ensures LoadedEmpty(r)
  {
    forall ref | ref in r && r[ref].loadedComponents.Some?
      ensures r[ref].loadedComponents.value == []
    {
      assert Unchanged(r0, r, ref) || Shaped(r[ref]);
    }
  }

  /** With only empty arrays recorded, the "already loaded" branch is taken
      exactly for the keys every array has: "length" and the inherited
      ones. For any other name the constructor is invoked, once, with the
      options evaluated afresh. */
  lemma SkipOnlyOnArrayKeys(el: Node, name: string, throws: (Node, Value) -> bool, w: World, env: Env)
    requires LoadedEmpty(w.records)
    ensures var o := Instantiate(el, name, throws, w, env);
      && (o.world.trace == w.trace <==> name == "length" || name in env.inherited)
      && (o.world.trace != w.trace ==> o.world.trace == w.trace + [Call(el, name, Options(el.options, env.eval))])
  {
    if el.ref in w.records && w.records[el.ref].loadedComponents.Some? {
      assert w.records[el.ref].loadedComponents.value == [];
    }
  }

  /** After a construction that did not throw, the element's record is
      `{component: obj}` with `obj` the result of that very call, and
      `loadedComponents` is gone: nothing remembers that `name` was
      loaded. */
  lemma ConstructionReplacesRecord(el: Node, name: string, throws: (Node, Value) -> bool, w: World, env: Env)
    requires Instantiate(el, name, throws, w, env).world.trace != w.trace
    requires !Instantiate(el, name, throws, w, env).threw
    ensures var o := Instantiate(el, name, throws, w, env);
      && GetData(o.world.records, el.ref) == Some(Record(None, Some(Instance(|w.trace|))))
      && o.world.trace[|w.trace|].el == el && o.world.trace[|w.trace|].name == name
  {
  }

  /** A node handled twice for the same component is constructed twice, for
      any name that is not a key of an array: the guard of the source does
      not give at-most-once construction. */
  lemma {:induction false} ConstructedTwice(el: Node, name: string, throws: (Node, Value) -> bool, w: World, env: Env)
    requires name != "length" && name !in env.inherited && !IsIndex(name)
    requires !throws(el, Options(el.options, env.eval))
    ensures var o1 := Instantiate(el, name, throws, w, env);
      var o2 := Instantiate(el, name, throws, o1.world, env);
      var c := Call(el, name, Options(el.options, env.eval));
      && !o1.threw && !o2.threw
      && o2.world.trace == w.trace + [c, c]
  {
    var o1 := Instantiate(el, name, throws, w, env);
    assert o1.world.trace == w.trace + [Call(el, name, Options(el.options, env.eval))];
    assert GetData(o1.world.records, el.ref) == Some(Record(None, Some(Instance(|w.trace|))));
  }

  /** No constructor call and no record change when no name requested under
      `root` has a definition in `list`. */
  lemma UnresolvedNamesNoEffect(root: Node, list: seq<Definition>, w: World, env: Env, U: set<Definition>)
    requires Closed(U) && Within(list, U)
    requires forall n :: n in Scan(root) ==> (n.component.Some? &&
      forall k :: 0 <= k < |Split(n.component.value)| ==> FindIndex(list, Split(n.component.value)[k]).None?)
    ensures LoadSpec(root, list, w, env, U) == Outcome(w, false)
  {
    UnresolvedNodes(root, 0, list, w, env, U);
  }

  lemma {:induction false} UnresolvedNodes(
    root: Node, i: nat, list: seq<Definition>, w: World, env: Env, U: set<Definition>)
    requires Closed(U) && Within(list, U) && i <= |Scan(root)|
    requires forall n :: n in Scan(root) ==> (n.component.Some? &&
      forall k :: 0 <= k < |Split(n.component.value)| ==> FindIndex(list, Split(n.component.value)[k]).None?)
    ensures LoadNodes(root, i, list, w, env, U) == Outcome(w, false)
    decreases |Scan(root)| - i
  {
    if i < |Scan(root)| {
      ScanSmaller(root);
      UnresolvedNames(root, Scan(root)[i], 0, list, w, env, U);
      UnresolvedNodes(root, i + 1, list, w, env, U);
    }
  }

  lemma {:induction false} UnresolvedNames(
    root: Node, el: Node, j: nat, list: seq<Definition>, w: World, env: Env, U: set<Definition>)
    requires Closed(U) && Within(list, U) && Size(el) < Size(root)
    requires el.component.Some? && j <= |Split(el.component.value)|
    requires forall k :: 0 <= k < |Split(el.component.value)| ==> FindIndex(list, Split(el.component.value)[k]).None?
    ensures LoadNames(root, el, j, list, w, env, U) == Outcome(w, false)
    decreases |Split(el.component.value)| - j
  {
    if j < |Split(el.component.value)| {
      UnresolvedNames(root, el, j + 1, list, w, env, U);
    }
  }

  /** Dependencies before the dependent: of the calls handling `name` on
      `el` makes, all but the last are on descendants of `el` (the
      dependency pass); a call on `el` itself can only be the last one, and
      it is for `name`. Without a non-empty dependency list there is no
      recursion, hence at most that one call. */
  lemma DependenciesFirst(
    root: Node, el: Node, name: string, list: seq<Definition>, w: World, env: Env, U: set<Definition>)
    requires Closed(U) && Within(list, U) && Size(el) < Size(root)
    requires el.component.Some? && name in Split(el.component.value)
    ensures var t := LoadName(root, el, name, list, w, env, U).world.trace;
      && w.trace <= t
      && (forall k :: |w.trace| <= k < |t| ==>
            if t[k].el == el then k == |t| - 1 && t[k].name == name else t[k].el in Descendants(el))
      && ((FindIndex(list, name).None? || !HasDependencies(list[FindIndex(list, name).value]))
            ==> |t| <= |w.trace| + 1)
  {
    match FindIndex(list, name)
    case None =>
    case Some(i) =>
      var d := list[i];
      if HasDependencies(d) {
        LoadSpecEffect(el, d.dependencies.value, w, env, U);
      } else {
        EffectRefl(Scan(el), w);
      }
      ThenInstantiate(el, name, d.throws, w, DependencyPass(root, el, d, w, env, U), env);
  }

  /** After a dependency pass confined to the scan of `el`, instantiating
      `name` on `el` adds at most one call, on `el`, at the end. */
  lemma ThenInstantiate(el: Node, name: string, throws: (Node, Value) -> bool, w: World, o: Outcome, env: Env)
    requires Effect(Scan(el), w, o)
    ensures var t := (if o.threw then o else Instantiate(el, name, throws, o.world, env)).world.trace;
      && w.trace <= t
      && (forall k :: |w.trace| <= k < |t| ==>
            if t[k].el == el then k == |t| - 1 && t[k].name == name else t[k].el in Descendants(el))
      && (o == Outcome(w, false) ==> |t| <= |w.trace| + 1)
  {
    ScanSmaller(el);
    var t := (if o.threw then o else Instantiate(el, name, throws, o.world, env)).world.trace;
    if !o.threw {
      assert o.world.trace <= t && |t| <= |o.world.trace| + 1;
      assert forall k :: |o.world.trace| <= k < |t| ==> t[k].el == el && t[k].name == name;
    }
    forall k | |w.trace| <= k < |t| && k < |o.world.trace|
      ensures t[k].el != el && t[k].el in Descendants(el)
    {
      assert t[k] == o.world.trace[k];
    }
  }

  /** A record without `loadedComponents` (or no record at all) is replaced
      by `{loadedComponents: []}`, so a component stored there is dropped
      whatever happens next: the element ends with the empty record when
      the name is skipped or the constructor throws, and with the new
      instance otherwise. */
  lemma RecordWithoutLoadedIsReset(el: Node, name: string, throws: (Node, Value) -> bool, w: World, env: Env)
    requires GetData(w.records, el.ref).None? || GetData(w.records, el.ref).value.loadedComponents.None?
    ensures var o := Instantiate(el, name, throws, w, env);
      && el.ref in o.world.records
      && o.world.records[el.ref]
        == if o.world.trace == w.trace || o.threw then EmptyLoaded else Record(None, Some(Instance(|w.trace|)))
  {
  }

  /** Every list definition has no dependencies. */
  ghost predicate NoDependencies(list: seq<Definition>)
    reads set k | 0 <= k < |list| :: list[k]
  {
    forall k :: 0 <= k < |list| ==> !HasDependencies(list[k])
  }

  /** Without dependency passes, handling the names of `el` calls
      constructors on `el` only. */
  lemma {:induction false} NamesCallOnEl(
    root: Node, el: Node, j: nat, list: seq<Definition>, w: World, env: Env, U: set<Definition>)
    requires Closed(U) && Within(list, U) && Size(el) < Size(root) && NoDependencies(list)
    requires el.component.Some? && j <= |Split(el.component.value)|
    ensures var t := LoadNames(root, el, j, list, w, env, U).world.trace;
      w.trace <= t && forall k :: |w.trace| <= k < |t| ==> t[k].el == el
    decreases |Split(el.component.value)| - j
  {
    var names := Split(el.component.value);
    if j < |names| {
      var o := LoadName(root, el, names[j], list, w, env, U);
      assert w.trace <= o.world.trace && forall k :: |w.trace| <= k < |o.world.trace| ==> o.world.trace[k].el == el by {
        match FindIndex(list, names[j])
        case None =>
        case Some(i) =>
          assert DependencyPass(root, el, list[i], w, env, U) == Outcome(w, false);
      }
      if !o.threw {
        NamesCallOnEl(root, el, j + 1, list, o.world, env, U);
      }
    }
  }

  /** Without dependency passes the constructor calls follow the scan, that
      is tree order: `pos` gives, for each new call, the position in
      `Scan(root)` of its element, and the positions never decrease. */
  lemma {:induction false} NodesInScanOrder(
    root: Node, i: nat, list: seq<Definition>, w: World, env: Env, U: set<Definition>)
    returns (pos: seq<nat>)
    requires Closed(U) && Within(list, U) && i <= |Scan(root)| && NoDependencies(list)
    ensures var t := LoadNodes(root, i, list, w, env, U).world.trace;
      && w.trace <= t
      && |pos| == |t| - |w.trace|
      && (forall k :: 0 <= k < |pos| ==> i <= pos[k] < |Scan(root)| && Scan(root)[pos[k]] == t[|w.trace| + k].el)
      && (forall k1, k2 :: 0 <= k1 <= k2 < |pos| ==> pos[k1] <= pos[k2])
    decreases |Scan(root)| - i
  {
    if i == |Scan(root)| {
      pos := [];
    } else {
      var el := Scan(root)[i];
      ScanSmaller(root);
      var o := LoadNames(root, el, 0, list, w, env, U);
      NamesCallOnEl(root, el, 0, list, w, env, U);
      var here := seq(|o.world.trace| - |w.trace|, _ => i);
      if o.threw {
        pos := here;
      } else {
        var rest := NodesInScanOrder(root, i + 1, list, o.world, env, U);
        pos := here + rest;
        var t := LoadNodes(root, i + 1, list, o.world, env, U).world.trace;
        forall k | |here| <= k < |pos|
          ensures Scan(root)[pos[k]] == t[|w.trace| + k].el
        {
          assert pos[k] == rest[k - |here|];
        }
        forall k | 0 <= k < |here|
          ensures Scan(root)[pos[k]] == t[|w.trace| + k].el
        {
          assert t[|w.trace| + k] == o.world.trace[|w.trace| + k];
        }
      }
    }
  }

  /** `load(root, list)` with definitions that have no dependencies calls
      the constructors in tree order. */
  lemma LoadInTreeOrder(root: Node, list: seq<Definition>, w: World, env: Env, U: set<Definition>)
    returns (pos: seq<nat>)
    requires Closed(U) && Within(list, U) && NoDependencies(list)
    ensures var t := LoadSpec(root, list, w, env, U).world.trace;
      && w.trace <= t
      && |pos| == |t| - |w.trace|
      && (forall k :: 0 <= k < |pos| ==> pos[k] < |Scan(root)| && Scan(root)[pos[k]] == t[|w.trace| + k].el)
      && (forall k1, k2 :: 0 <= k1 <= k2 < |pos| ==> pos[k1] <= pos[k2])
  {
    pos := NodesInScanOrder(root, 0, list, w, env, U);
  }
}
