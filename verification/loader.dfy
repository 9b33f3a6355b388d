/** The component loader of src/js/loader.js. A `Loader` owns the node
    store the loader writes through `setData` and the trace of constructor
    calls; `Load` walks the tree with the source's two nested loops and is
    proved to produce exactly the outcome `LoadModel.LoadSpec` describes. */
module ComponentLoader {
  import opened Js
  import opened Dom
  import opened Registry
  import opened DataStore
  import opened LoadModel

  class Loader {
    const store: NodeStore
    const env: Env
    var trace: seq<Call>

    ghost function State(): World
      reads this, store
    {
      World(store.records, trace)
    }

    constructor (store: NodeStore, env: Env)
      ensures this.store == store && this.env == env && trace == []
    {
      this.store := store;
      this.env := env;
      trace := [];
    }

    /** `load(root, componentsList, isDependency)`. Returns false when a
        constructor exception escaped, which in the source ends the whole
        call (and every enclosing one). `isDependency` only chooses the
        debug message. `U` is every definition the load can reach. */
    method Load(root: Node, componentsList: seq<Definition>, isDependency: bool, ghost U: set<Definition>)
      returns (ok: bool)
      requires Closed(U) && Within(componentsList, U)
      modifies this, store
      ensures Outcome(State(), !ok) == LoadSpec(root, componentsList, old(State()), env, U)
      decreases Size(root), 2
    {
      ghost var goal := LoadSpec(root, componentsList, State(), env, U);
      var nodes := Scan(root);
      ScanSmaller(root);
      var i := 0;
      while i < |nodes|
        invariant 0 <= i <= |nodes|
        invariant LoadNodes(root, i, componentsList, State(), env, U) == goal
      {
        var threw := LoadElement(root, nodes[i], componentsList, U);
        if threw {
          return false;
        }
        i := i + 1;
      }
      return true;
    }

    /** The callback of the outer `forEach`: every name of one element, left
        to right. Returns true when a constructor exception escaped. */
    method LoadElement(ghost root: Node, el: Node, componentsList: seq<Definition>, ghost U: set<Definition>)
      returns (threw: bool)
      requires Closed(U) && Within(componentsList, U) && Size(el) < Size(root) && el.component.Some?
      modifies this, store
      ensures Outcome(State(), threw)
           == LoadNames(root, el, 0, componentsList, old(State()), env, U)
      decreases Size(root), 1
    {
      var names := Split(el.component.value);
      ghost var goal := LoadNames(root, el, 0, componentsList, State(), env, U);
      var j := 0;
      while j < |names|
        invariant 0 <= j <= |names|
        invariant LoadNames(root, el, j, componentsList, State(), env, U) == goal
      {
        ghost var before := State();
        threw := LoadName(root, el, names[j], componentsList, U);
        assert LoadNames(root, el, j, componentsList, before, env, U)
            == if threw then Outcome(State(), true) else LoadNames(root, el, j + 1, componentsList, State(), env, U);
        if threw {
          return;
        }
        j := j + 1;
      }
      return false;
    }

    /** The callback of the inner `forEach`: one name on one element.
        Returns true when a constructor exception escaped. */
    method LoadName(ghost root: Node, el: Node, name: string, componentsList: seq<Definition>, ghost U: set<Definition>)
      returns (threw: bool)
      requires Closed(U) && Within(componentsList, U) && Size(el) < Size(root)
      modifies this, store
      ensures Outcome(State(), threw) == LoadModel.LoadName(root, el, name, componentsList, old(State()), env, U)
      decreases Size(root), 0
    {
      ghost var before := State();
      var found := FindIndex(componentsList, name);
      if found.None? {
        return false;
      }
      var component := componentsList[found.value];
      if component.dependencies.Some? && |component.dependencies.value| > 0 {
        var depsOk := Load(el, component.dependencies.value, true, U);
        if !depsOk {
          return true;
        }
      }
      assert DependencyPass(root, el, component, before, env, U) == Outcome(State(), false);
      threw := Instantiate(el, name, component.throws);
    }

    /** Lines 15-40 of the source for one resolved name: fetch the record,
        or replace it by `{loadedComponents: []}`; unless `name` is a key of
        the recorded array, evaluate the options, invoke the constructor and
        replace the record by `{component: obj}`. Returns true when the
        constructor threw. */
    method Instantiate(el: Node, name: string, throws: (Node, Value) -> bool) returns (threw: bool)
      modifies this, store
      ensures Outcome(State(), threw) == LoadModel.Instantiate(el, name, throws, old(State()), env)
    {
      var existing: seq<string>;
      var record := GetData(store.records, el.ref);
      if record.Some? && record.value.loadedComponents.Some? {
        existing := record.value.loadedComponents.value;
      } else {
        existing := [];
        store.Set(el.ref, Record(Some(existing), None));
      }
      var loaded := GetData(store.records, el.ref).value.loadedComponents.value;
      if IsArrayKey(name, |loaded|, env.inherited) {
        return false;
      }
      var options := Options(el.options, env.eval);
      trace := trace + [Call(el, name, options)];
      if throws(el, options) {
        return true;
      }
      var obj := Instance(|trace| - 1);
      // The push onto the local array; the record replacement below
      // leaves that array reachable from nowhere.
      existing := existing + [name];
      store.Set(el.ref, Record(None, Some(obj)));
      return false;
    }
  }
}
