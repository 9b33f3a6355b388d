/** Two runs of the loader on small documents: the application entry point
    of src/js/app.js, and a component that lists itself as its own
    dependency. */
module LoaderScenarios {
  import opened Js
  import opened Dom
  import opened Registry
  import opened DataStore
  import opened LoadModel
  import opened ComponentLoader

  /** An element with a `data-component` attribute and no other. */
  function Tagged(ref: nat, names: string, children: seq<Node>): Node
  {
    Node(ref, Some(names), None, None, children)
  }

  /** The document: a root without attributes. */
  function Document(children: seq<Node>): Node
  {
    Node(0, None, None, None, children)
  }

  const Fresh: World := World(map[], [])

  /** `Loader.load(document, [Body])` on a page whose only component element
      is `<body data-component="body">`: one construction, with `{}` as
      options, and the body's record holds the instance. */
  lemma AppLoad(body: Definition, env: Env)
    requires body.componentName == Some("body") && body.dependencies == None
    requires !body.throws(Tagged(1, "body", []), EmptyObject)
    requires "body" !in env.inherited
    ensures var o := LoadSpec(Document([Tagged(1, "body", [])]), [body], Fresh, env, {body});
      && !o.threw
      && o.world.trace == [Call(Tagged(1, "body", []), "body", EmptyObject)]
      && o.world.records == map[1 := Record(None, Some(Instance(0)))]
  {
    var el := Tagged(1, "body", []);
    var doc := Document([el]);
    assert Preorder([el]) == [el] by {
      assert [el][1..] == [];
    }
    assert Scan(doc) == [el];
    SplitSingle("body");
    assert !IsIndex("body") by {
      assert !IsDigits("body") by { assert !('0' <= "body"[0] <= '9'); }
    }
    assert FindIndex([body], "body") == Some(0);
    var o := Instantiate(el, "body", body.throws, Fresh, env);
    assert o.world.trace == [Call(el, "body", EmptyObject)];
    assert LoadName(doc, el, "body", [body], Fresh, env, {body}) == o;
    assert LoadNames(doc, el, 1, [body], o.world, env, {body}) == o;
    assert LoadNames(doc, el, 0, [body], Fresh, env, {body}) == o;
    assert LoadNodes(doc, 1, [body], o.world, env, {body}) == o;
    assert LoadNodes(doc, 0, [body], Fresh, env, {body}) == o;
  }

  /** Building the page of `AppLoad` with the real objects: the decorator
      names the class, the loader runs on a fresh store. */
  method AppScenario() returns (ok: bool, trace: seq<Call>, records: map<nat, Record>)
    ensures ok
    ensures trace == [Call(Tagged(1, "body", []), "body", EmptyObject)]
    ensures records == map[1 := Record(None, Some(Instance(0)))]
  {
    var body := new Definition((el: Node, options: Value) => false);
    Component("body", body);
    var store := new NodeStore();
    var env := Env((text: string) => None, {"constructor", "push"});
    var loader := new Loader(store, env);
    AppLoad(body, env);
    ok := loader.Load(Document([Tagged(1, "body", [])]), [body], false, {body});
    trace := loader.trace;
    records := store.records;
  }

  /** The name "a" resolves to `a`, and it is no key of an empty array. */
  lemma NameA(a: Definition, env: Env)
    requires a.componentName == Some("a") && "a" !in env.inherited
    ensures Split("a") == ["a"]
    ensures FindIndex([a], "a") == Some(0)
    ensures !IsArrayKey("a", 0, env.inherited)
  {
    SplitSingle("a");
    assert !IsIndex("a") by {
      assert !IsDigits("a") by { assert !('0' <= "a"[0] <= '9'); }
    }
  }

  const Span: Node := Tagged(2, "a", [])
  const Div: Node := Tagged(1, "a", [Span])

  /** The dependency pass of the div: it scans only the span, whose own
      dependency pass finds nothing below it, and constructs the span. */
  lemma DivDependencies(a: Definition, env: Env)
    requires a.componentName == Some("a") && a.dependencies == Some([a])
    requires forall el: Node, v: Value :: !a.throws(el, v)
    requires "a" !in env.inherited
    ensures LoadSpec(Div, [a], Fresh, env, {a})
      == Outcome(World(map[2 := Record(None, Some(Instance(0)))], [Call(Span, "a", EmptyObject)]), false)
  {
    var U := {a};
    NameA(a, env);
    assert Preorder([Span]) == [Span] by {
      assert [Span][1..] == [];
    }
    assert Scan(Span) == [];
    assert Scan(Div) == [Span];
    assert LoadSpec(Span, [a], Fresh, env, U) == Outcome(Fresh, false) by {
      assert LoadNodes(Span, 0, [a], Fresh, env, U) == Outcome(Fresh, false);
    }
    var o1 := Instantiate(Span, "a", a.throws, Fresh, env);
    assert o1 == Outcome(World(map[2 := Record(None, Some(Instance(0)))], [Call(Span, "a", EmptyObject)]), false);
    assert DependencyPass(Div, Span, a, Fresh, env, U) == Outcome(Fresh, false);
    assert LoadName(Div, Span, "a", [a], Fresh, env, U) == o1;
    assert LoadNames(Div, Span, 1, [a], o1.world, env, U) == o1;
    assert LoadNodes(Div, 1, [a], o1.world, env, U) == o1;
    assert LoadNodes(Div, 0, [a], Fresh, env, U) == o1;
  }

  /** `<div data-component="a"><span data-component="a"></span></div>` with
      a component "a" that depends on itself. The load terminates; the span
      is constructed in the dependency pass of the div, then the div, then
      the span again when the outer scan reaches it: the div's pass left
      the span's record as `{component: obj}`, which the second visit
      replaces by `{loadedComponents: []}`. */
  lemma SelfDependentLoad(a: Definition, env: Env)
    requires a.componentName == Some("a") && a.dependencies == Some([a])
    requires forall el: Node, v: Value :: !a.throws(el, v)
    requires "a" !in env.inherited
    ensures var o := LoadSpec(Document([Div]), [a], Fresh, env, {a});
      && !o.threw
      && o.world.trace == [Call(Span, "a", EmptyObject), Call(Div, "a", EmptyObject), Call(Span, "a", EmptyObject)]
      && o.world.records == map[1 := Record(None, Some(Instance(1))), 2 := Record(None, Some(Instance(2)))]
  {
    var doc := Document([Div]);
    var U := {a};
    NameA(a, env);
    DivDependencies(a, env);
    assert Preorder([Div]) == [Div, Span] by {
      assert [Div][1..] == [];
      assert Preorder([Span]) == [Span] by {
        assert [Span][1..] == [];
      }
    }
    assert Scan(doc) == [Div, Span] by {
      assert Select([Div, Span], HasComponent) == [Div] + Select([Span], HasComponent) by {
        assert [Div, Span][1..] == [Span];
      }
      assert Select([Span], HasComponent) == [Span] by {
        assert [Span][1..] == [];
      }
    }
    var o1 := LoadSpec(Div, [a], Fresh, env, U);
    var o2 := Instantiate(Div, "a", a.throws, o1.world, env);
    assert o2 == Outcome(World(map[2 := Record(None, Some(Instance(0))), 1 := Record(None, Some(Instance(1)))],
      [Call(Span, "a", EmptyObject), Call(Div, "a", EmptyObject)]), false);
    assert DependencyPass(doc, Div, a, Fresh, env, U) == o1;
    assert LoadName(doc, Div, "a", [a], Fresh, env, U) == o2;
    assert LoadNames(doc, Div, 0, [a], Fresh, env, U) == o2 by {
      assert LoadNames(doc, Div, 1, [a], o2.world, env, U) == o2;
    }
    SpanRevisited(a, env, doc, o2.world);
    assert LoadNodes(doc, 0, [a], Fresh, env, U) == LoadNodes(doc, 1, [a], o2.world, env, U);
  }

  /** The outer scan reaching the span after the div: its record holds a
      component but no `loadedComponents`, so it is constructed again. */
  lemma SpanRevisited(a: Definition, env: Env, doc: Node, w: World)
    requires a.componentName == Some("a") && a.dependencies == Some([a])
    requires forall el: Node, v: Value :: !a.throws(el, v)
    requires "a" !in env.inherited
    requires doc == Document([Div]) && Scan(doc) == [Div, Span]
    requires w == World(map[2 := Record(None, Some(Instance(0))), 1 := Record(None, Some(Instance(1)))],
      [Call(Span, "a", EmptyObject), Call(Div, "a", EmptyObject)])
    ensures var o := LoadNodes(doc, 1, [a], w, env, {a});
      && !o.threw
      && o.world.trace == [Call(Span, "a", EmptyObject), Call(Div, "a", EmptyObject), Call(Span, "a", EmptyObject)]
      && o.world.records == map[1 := Record(None, Some(Instance(1))), 2 := Record(None, Some(Instance(2)))]
  {
    var U := {a};
    NameA(a, env);
    assert Preorder([Span]) == [Span] by {
      assert [Span][1..] == [];
    }
    assert Scan(Span) == [];
    assert LoadSpec(Span, [a], w, env, U) == Outcome(w, false) by {
      assert LoadNodes(Span, 0, [a], w, env, U) == Outcome(w, false);
    }
    var o3 := Instantiate(Span, "a", a.throws, w, env);
    assert o3.world.trace == [Call(Span, "a", EmptyObject), Call(Div, "a", EmptyObject), Call(Span, "a", EmptyObject)];
    assert o3.world.records == map[1 := Record(None, Some(Instance(1))), 2 := Record(None, Some(Instance(2)))];
    assert DependencyPass(doc, Span, a, w, env, U) == Outcome(w, false);
    assert LoadName(doc, Span, "a", [a], w, env, U) == o3;
    assert LoadNames(doc, Span, 0, [a], w, env, U) == o3 by {
      assert LoadNames(doc, Span, 1, [a], o3.world, env, U) == o3;
    }
    assert LoadNodes(doc, 2, [a], o3.world, env, U) == o3;
  }

  /** The self-dependent component built with the decorators and loaded. */
  method SelfDependentScenario() returns (ok: bool, trace: seq<Call>)
    ensures ok
    ensures |trace| == 3 && trace[0].el == trace[2].el && trace[0].el.ref == 2 && trace[1].el.ref == 1
  {
    var a := new Definition((el: Node, options: Value) => false);
    Component("a", a);
    Dependencies([a], a);
    var store := new NodeStore();
    var env := Env((text: string) => None, {"constructor", "push"});
    var loader := new Loader(store, env);
    SelfDependentLoad(a, env);
    ok := loader.Load(Document([Div]), [a], false, {a});
    trace := loader.trace;
  }
}
