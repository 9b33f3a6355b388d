/** The per-element record store of src/js/utils.js and the lookups built on
    it. The store is a WeakMap when the platform has one (`NodeStore`), and
    otherwise a counter-and-tag table (`TaggedStore`). */
module DataStore {
  import opened Js
  import opened Dom
  import opened Registry

  /** The object a constructor returned; `serial` numbers the constructor
      call that created it. */
  datatype Instance = Instance(serial: nat)

  /** A node record. The loader writes only two shapes:
      `{loadedComponents: names}` is Record(Some(names), None) and
      `{component: obj}` is Record(None, Some(obj)). */
  datatype Record = Record(loadedComponents: Option<seq<string>>, component: Option<Instance>)

  /** `data.get(el)` on the WeakMap path, with records keyed by element
      identity; None is `undefined`. */
  function GetData(records: map<nat, Record>, ref: nat): (r: Option<Record>)
    ensures r.Some? <==> ref in records
    ensures r.Some? ==> r.value == records[ref]
  {
    if ref in records then Some(records[ref]) else None
  }

  /** The WeakMap path of the store. The map is keyed by element identity and
      holds no other state; that a WeakMap does not keep its keys alive has
      no counterpart here. */
  class NodeStore {
    var records: map<nat, Record>

    constructor ()
      ensures records == map[]
    {
      records := map[];
    }

    /** `setData(el, obj)`: the whole record is replaced, not merged. */
    method Set(ref: nat, info: Record)
      modifies this
      ensures records == old(records)[ref := info]
      ensures GetData(records, ref) == Some(info)
      ensures forall other :: other != ref ==> GetData(records, other) == old(GetData(records, other))
    {
      records := records[ref := info];
    }
  }

  /** A key of the fallback's `store` object: a number, or `undefined`. */
  datatype Slot = Tag(id: nat) | UndefinedSlot

  /** The fallback path of the store: `lastId` counts the tags handed out,
      `tags` holds each element's `myCustomDataTag` (by element identity) and
      `table` is the `store` object. */
  class TaggedStore {
    var lastId: nat
    var tags: map<nat, nat>
    var table: map<Slot, Record>

    /** Every tag was handed out by the counter, and no two elements share
        one. */
    ghost predicate Valid()
      reads this
    {
      && (forall r :: r in tags ==> tags[r] < lastId)
      && (forall r, s :: r in tags && s in tags && r != s ==> tags[r] != tags[s])
    }

    constructor ()
      ensures Valid()
      ensures lastId == 0 && tags == map[] && table == map[]
    {
      lastId := 0;
      tags := map[];
      table := map[];
    }

    /** `store[element.myCustomDataTag]`: an untagged element reads the
        `undefined` key. */
    function Get(ref: nat): (r: Option<Record>)
      reads this
      ensures r.Some? ==> r.value in table.Values
      ensures ref in tags ==> r == if Tag(tags[ref]) in table then Some(table[Tag(tags[ref])]) else None
      ensures ref !in tags ==> r == if UndefinedSlot in table then Some(table[UndefinedSlot]) else None
    {
      var slot := if ref in tags then Tag(tags[ref]) else UndefinedSlot;
      if slot in table then Some(table[slot]) else None
    }

    /** `data.set(element, info)`. The first call on an element tags it with
        the next counter value and stores under that tag; a later call finds
        the local `id` unassigned and writes under the `undefined` key, so the
        element keeps reading its first record, while every untagged element
        now reads `info`. */
    method Set(ref: nat, info: Record)
      requires Valid()
      modifies this
      ensures Valid()
      ensures ref !in old(tags) ==>
        && tags == old(tags)[ref := old(lastId)]
        && lastId == old(lastId) + 1
        && table == old(table)[Tag(old(lastId)) := info]
        && Get(ref) == Some(info)
      ensures ref in old(tags) ==>
        && tags == old(tags)
        && lastId == old(lastId)
        && table == old(table)[UndefinedSlot := info]
        && Get(ref) == old(Get(ref))
        && forall other :: other !in tags ==> Get(other) == Some(info)
    {
      if ref !in tags {
        var id := lastId;
        lastId := lastId + 1;
        tags := tags[ref := id];
        table := table[Tag(id) := info];
      } else {
        table := table[UndefinedSlot := info];
      }
    }
  }

  /** The two `setData` calls the loader makes on one element (the reset
      to `{loadedComponents: []}`, then `{component: obj}`), on the
      fallback store. The element keeps reading its first record, so its
      component stays `undefined`; an element never set reads the instance
      from the `undefined` key. */
  method FallbackLoadScenario() returns (loaded: Option<Record>, untouched: Option<Record>)
    ensures loaded == Some(Record(Some([]), None))
    ensures untouched == Some(Record(None, Some(Instance(0))))
  {
    var store := new TaggedStore();
    store.Set(1, Record(Some([]), None));
    store.Set(1, Record(None, Some(Instance(0))));
    loaded := store.Get(1);
    untouched := store.Get(7);
  }

  /** `getData(el).component`: a TypeError when the element has no record,
      `undefined` (None) when its record holds no component. */
  function GetComponent(records: map<nat, Record>, el: Node): (r: Result<Option<Instance>>)
    ensures r.Ok? <==> el.ref in records
    ensures r.Ok? ==> r.value == records[el.ref].component
  {
    match GetData(records, el.ref)
    case None => TypeError
    case Some(rec) => Ok(rec.component)
  }

  /** The text the selector template makes of `componentClass.componentName`
      (an unset name prints as "undefined"). */
  function SelectorName(componentClass: Definition): string
    reads componentClass
  {
    match componentClass.componentName
    case None => "undefined"
    case Some(name) => name
  }

  /** The stored components of `els`, in order; a TypeError as soon as one of
      them has no record. */
  function ComponentsOf(records: map<nat, Record>, els: seq<Node>): (r: Result<seq<Option<Instance>>>)
    ensures r.Ok? <==> forall k :: 0 <= k < |els| ==> els[k].ref in records
    ensures r.Ok? ==> |r.value| == |els|
    ensures r.Ok? ==> forall k :: 0 <= k < |els| ==> r.value[k] == records[els[k].ref].component
  {
    if els == [] then Ok([])
    else match (GetComponent(records, els[0]), ComponentsOf(records, els[1..]))
      case (Ok(c), Ok(cs)) => Ok([c] + cs)
      case _ => TypeError
  }

  /** `findComponent(componentClass, parent)`: the component stored on the
      first element under `parent` (the document when absent) whose
      `data-component` is exactly the class name. With no such element, or
      none recorded, it throws. */
  function FindComponent(doc: Node, records: map<nat, Record>, componentClass: Definition, parent: Option<Node>)
    : (r: Result<Option<Instance>>)
    reads componentClass
    ensures var found := QueryAll(if parent.Some? then parent.value else doc, ComponentIs(SelectorName(componentClass)));
      && (r.Ok? <==> found != [] && found[0].ref in records)
      && (r.Ok? ==> r.value == records[found[0].ref].component)
  {
    var context := if parent.Some? then parent.value else doc;
    var sel := ComponentIs(SelectorName(componentClass));
    QueryIsHeadOfQueryAll(context, sel);
    match Query(context, sel)
    case None => TypeError
    case Some(el) => GetComponent(records, el)
  }

  /** `findComponents(componentClass)`: the components stored on every
      element of the document whose `data-component` is exactly the class
      name, in tree order; one entry per element. */
  function FindComponents(doc: Node, records: map<nat, Record>, componentClass: Definition)
    : (r: Result<seq<Option<Instance>>>)
    reads componentClass
    ensures var found := QueryAll(doc, ComponentIs(SelectorName(componentClass)));
      && (r.Ok? <==> forall k :: 0 <= k < |found| ==> found[k].ref in records)
      && (r.Ok? ==> |r.value| == |found|)
      && (r.Ok? ==> forall k :: 0 <= k < |found| ==> r.value[k] == records[found[k].ref].component)
  {
    ComponentsOf(records, QueryAll(doc, ComponentIs(SelectorName(componentClass))))
  }

  /** `findComponentWithId(componentClass, id)`: like `findComponent` on the
      document, and the element must also carry the id: the component of
      the first such element in tree order, and a TypeError exactly when
      there is none or it has no record. That element is also one of the
      elements `findComponents` looks at. */
  function FindComponentWithId(doc: Node, records: map<nat, Record>, componentClass: Definition, id: string)
    : (r: Result<Option<Instance>>)
    reads componentClass
    ensures var found := QueryAll(doc, ComponentIsWithId(SelectorName(componentClass), id));
      && (r.Ok? <==> found != [] && found[0].ref in records)
      && (r.Ok? ==> r.value == records[found[0].ref].component)
    ensures r.Ok? ==> exists el ::
      && el in QueryAll(doc, ComponentIs(SelectorName(componentClass)))
      && el.elementId == Some(id)
      && el.ref in records
      && r.value == records[el.ref].component
  {
    QueryIsHeadOfQueryAll(doc, ComponentIsWithId(SelectorName(componentClass), id));
    match Query(doc, ComponentIsWithId(SelectorName(componentClass), id))
    case None => TypeError
    case Some(el) =>
      assert el in QueryAll(doc, ComponentIs(SelectorName(componentClass)));
      GetComponent(records, el)
  }

  /** `findComponent` on the document returns the first entry of what
      `findComponents` returns, and throws exactly when nothing matches or
      the first match has no record. */
  lemma FindComponentIsFirstOfFindComponents(doc: Node, records: map<nat, Record>, componentClass: Definition)
    ensures var all := FindComponents(doc, records, componentClass);
      all.Ok? && all.value != [] ==> FindComponent(doc, records, componentClass, None) == Ok(all.value[0])
    ensures var all := FindComponents(doc, records, componentClass);
      all == Ok([]) ==> FindComponent(doc, records, componentClass, None) == TypeError
  {
  }
}
