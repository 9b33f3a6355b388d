/** What one call of `load(root, componentsList, isDependency)` in
    src/js/loader.js does, as functions from the world before the call to
    the outcome after it. `ComponentLoader.Loader.Load` is proved to do
    exactly this; `LoadProperties` proves what it implies. */
module LoadModel {
  import opened Js
  import opened Dom
  import opened Registry
  import opened DataStore

  /** One constructor invocation `new Constructor(el, options)` for the
      component named `name`. */
  datatype Call = Call(el: Node, name: string, options: Value)

  /** What loading reads and changes: the records of the WeakMap store and
      the constructor calls made so far. */
  datatype World = World(records: map<nat, Record>, trace: seq<Call>)

  /** The world after a load, and whether the load ended with an exception
      escaping a constructor. */
  datatype Outcome = Outcome(world: World, threw: bool)

  /** What the model leaves abstract: the evaluation of an options
      expression (None when evaluation throws), and the property keys every
      array inherits from its prototypes. */
  datatype Env = Env(eval: string -> Option<Value>, inherited: set<string>)

  /** The record `{loadedComponents: []}`. */
  const EmptyLoaded: Record := Record(Some([]), None)

  /** A set of definitions that contains the dependencies of each of its
      members: every definition a load can reach. */
  ghost predicate Closed(defs: set<Definition>)
    reads defs
  {
    forall d :: d in defs && d.dependencies.Some? ==>
      forall k :: 0 <= k < |d.dependencies.value| ==> d.dependencies.value[k] in defs
  }

  predicate Within(list: seq<Definition>, defs: set<Definition>)
  {
    forall k :: 0 <= k < |list| ==> list[k] in defs
  }

  predicate IsDigits(s: string)
  {
    forall k :: 0 <= k < |s| ==> '0' <= s[k] <= '9'
  }

  function DecimalValue(s: string): nat
    requires IsDigits(s)
  {
    if s == [] then 0 else 10 * DecimalValue(s[..|s| - 1]) + (s[|s| - 1] as int - '0' as int)
  }

  /** A canonical array index: decimal digits without a leading zero, below
      2^32 - 1. */
  predicate IsIndex(s: string)
  {
    && |s| >= 1
    && IsDigits(s)
    && (s[0] == '0' ==> |s| == 1)
    && DecimalValue(s) < 0xFFFF_FFFF
  }

  /** `name in array` for an array of length `length`: whether `name` is a
      property key of the array (an index below the length, "length", or an
      inherited key), not whether the array holds `name`. */
  predicate IsArrayKey(name: string, length: nat, inherited: set<string>)
    ensures length == 0 ==> (IsArrayKey(name, length, inherited) <==> name == "length" || name in inherited)
    ensures IsArrayKey(name, length, inherited) && name != "length" && name !in inherited
      ==> IsDigits(name) && DecimalValue(name) < length
  {
    name == "length" || name in inherited || (IsIndex(name) && DecimalValue(name) < length)
  }

  /** The options passed to a constructor: `eval('(' + attr + ')') || {}`,
      and `{}` when evaluation throws. A missing attribute reads as `null`,
      whose evaluation is `null`, which is falsy. */
  function Options(attr: Option<string>, eval: string -> Option<Value>): (v: Value)
    ensures !Falsy(v)
    ensures attr.None? ==> v == EmptyObject
    ensures v == EmptyObject || (attr.Some? && eval("(" + attr.value + ")") == Some(v))
    ensures attr.Some? && eval("(" + attr.value + ")").Some? && !Falsy(eval("(" + attr.value + ")").value)
      ==> v == eval("(" + attr.value + ")").value
  {
    match attr
    case None => EmptyObject
    case Some(text) =>
      match eval("(" + text + ")")
      case None => EmptyObject
      case Some(x) => if Falsy(x) then EmptyObject else x
  }

  /** The part of handling `name` on `el` after its dependencies are loaded:
      fetch the record or replace it by `{loadedComponents: []}`, consult
      the key test, and when it fails evaluate the options, invoke the
      constructor and replace the record by `{component: obj}`. */
  function Instantiate(el: Node, name: string, throws: (Node, Value) -> bool, w: World, env: Env): Outcome
  {
    var existing :=
      match GetData(w.records, el.ref)
      case Some(Record(Some(names), _)) => Some(names)
      case _ => None;
    var w1 := if existing.Some? then w else w.(records := w.records[el.ref := EmptyLoaded]);
    var loaded := if existing.Some? then existing.value else [];
    if IsArrayKey(name, |loaded|, env.inherited) then Outcome(w1, false)
    else
      var call := Call(el, name, Options(el.options, env.eval));
      if throws(el, call.options) then Outcome(w1.(trace := w1.trace + [call]), true)
      else Outcome(World(w1.records[el.ref := Record(None, Some(Instance(|w1.trace|)))], w1.trace + [call]), false)
  }

  /** `load(root, list, _)`: every element under `root` carrying
      `data-component`, in tree order. */
  ghost function LoadSpec(root: Node, list: seq<Definition>, w: World, env: Env, U: set<Definition>): Outcome
    requires Closed(U) && Within(list, U)
    reads U
    decreases Size(root), 2, 0
  {
    LoadNodes(root, 0, list, w, env, U)
  }

  /** The outer `forEach`, from the `i`-th scanned element on. */
  ghost function LoadNodes(root: Node, i: nat, list: seq<Definition>, w: World, env: Env, U: set<Definition>)
    : Outcome
    requires Closed(U) && Within(list, U) && i <= |Scan(root)|
    reads U
    decreases Size(root), 1, 2 * (|Scan(root)| - i) + 1
  {
    if i == |Scan(root)| then Outcome(w, false)
    else
      var el := Scan(root)[i];
      ScanSmaller(root);
      var o := LoadNames(root, el, 0, list, w, env, U);
      AfterNode(root, o, i + 1, list, env, U)
  }

  /** Continue with the remaining elements unless an exception escaped. */
  ghost function AfterNode(root: Node, o: Outcome, i: nat, list: seq<Definition>, env: Env, U: set<Definition>)
    : Outcome
    requires Closed(U) && Within(list, U) && i <= |Scan(root)|
    reads U
    decreases Size(root), 1, 2 * (|Scan(root)| - i) + 2
  {
    if o.threw then o else LoadNodes(root, i, list, o.world, env, U)
  }

  /** The inner `forEach`, from the `j`-th name of `el`'s attribute on. */
  ghost function LoadNames(root: Node, el: Node, j: nat, list: seq<Definition>, w: World, env: Env, U: set<Definition>)
    : Outcome
    requires Closed(U) && Within(list, U) && Size(el) < Size(root)
    requires el.component.Some? && j <= |Split(el.component.value)|
    reads U
    decreases Size(root), 0, |Split(el.component.value)| - j + 2
  {
    var names := Split(el.component.value);
    if j == |names| then Outcome(w, false)
    else
      var o := LoadName(root, el, names[j], list, w, env, U);
      if o.threw then o else LoadNames(root, el, j + 1, list, o.world, env, U)
  }

  /** One name on one element: skip it when no definition carries it;
      otherwise load the definition's dependencies on `el`'s descendants
      first (only when the list is non-empty), then instantiate. */
  ghost function LoadName(root: Node, el: Node, name: string, list: seq<Definition>, w: World, env: Env, U: set<Definition>)
    : Outcome
    requires Closed(U) && Within(list, U) && Size(el) < Size(root)
    reads U
    decreases Size(root), 0, 1
  {
    match FindIndex(list, name)
    case None => Outcome(w, false)
    case Some(k) =>
      var d := list[k];
      var o := DependencyPass(root, el, d, w, env, U);
      if o.threw then o else Instantiate(el, name, d.throws, o.world, env)
  }

  /** `load(el, d.dependencies, true)` when `d` has a non-empty dependency
      list; nothing otherwise. */
  ghost function DependencyPass(root: Node, el: Node, d: Definition, w: World, env: Env, U: set<Definition>): Outcome
    requires Closed(U) && d in U && Size(el) < Size(root)
    reads U
    decreases Size(root), 0, 0
  {
    if HasDependencies(d) then LoadSpec(el, d.dependencies.value, w, env, U) else Outcome(w, false)
  }

  /** `component.dependencies && component.dependencies.length` */
  predicate HasDependencies(d: Definition)
    reads d
  {
    d.dependencies.Some? && |d.dependencies.value| > 0
  }
}
