/** Component definitions and the two decorators that attach registry
    metadata to them (src/js/decorators.js). A definition is an object the
    decorators update in place; the loader reads its fields. */
module Registry {
  import opened Js
  import opened Dom

  /** A component class. `componentName` and `dependencies` are the two
      fields the decorators write (None while unset, that is `undefined`);
      `throws` says on which element and options the constructor raises an
      exception. What a constructor does besides is left to the trace the
      loader keeps. */
  class Definition {
    var componentName: Option<string>
    var dependencies: Option<seq<Definition>>
    const throws: (Node, Value) -> bool

    /** A freshly declared class: no metadata yet. */
    constructor (throws: (Node, Value) -> bool)
      ensures componentName == None && dependencies == None
      ensures this.throws == throws
    {
      componentName := None;
      dependencies := None;
      this.throws := throws;
    }
  }

  /** `@component(name)` applied to `target`: sets its public name. Applied
      again, the last name wins; no other field changes. */
  method Component(name: string, target: Definition)
    modifies target`componentName
    ensures target.componentName == Some(name)
    ensures target.dependencies == old(target.dependencies)
  {
    target.componentName := Some(name);
  }

  /** `@dependencies(list)` applied to `target`: stores the very list of
      definitions, order kept. Applied again, the last list wins; no other
      field changes. */
  method Dependencies(list: seq<Definition>, target: Definition)
    modifies target`dependencies
    ensures target.dependencies == Some(list)
    ensures target.componentName == old(target.componentName)
  {
    target.dependencies := Some(list);
  }

  /** `componentsList.find((c) => c.componentName === name)`: the index of
      the first definition whose name is exactly `name`. A definition
      without a name never matches. */
  function FindIndex(list: seq<Definition>, name: string): (r: Option<nat>)
    reads list
    ensures r.Some? ==> r.value < |list| && list[r.value].componentName == Some(name)
    ensures r.Some? ==> forall k :: 0 <= k < r.value ==> list[k].componentName != Some(name)
    ensures r.None? ==> forall k :: 0 <= k < |list| ==> list[k].componentName != Some(name)
  {
    if list == [] then None
    else if list[0].componentName == Some(name) then Some(0)
    else match FindIndex(list[1..], name)
      case None => None
      case Some(i) => Some(i + 1)
  }
}
