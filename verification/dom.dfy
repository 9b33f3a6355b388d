/** The document as the loader and the lookups see it: a finite tree of
    elements with optional attributes, the tree-order searches that
    `querySelectorAll` and `querySelector` perform, and the comma split of
    the `data-component` attribute. */
module Dom {
  import opened Js

  /** An element. `ref` stands for the element's object identity (the key
      the node store uses); `component`, `options` and `elementId` are the
      attributes `data-component`, `data-component-options` and `id`, None
      when absent. The document itself is a root whose descendants are all
      the elements. */
  datatype Node = Node(
    ref: nat,
    component: Option<string>,
    options: Option<string>,
    elementId: Option<string>,
    children: seq<Node>)

  function Size(n: Node): (s: nat)
    ensures s >= 1
  {
    1 + ForestSize(n.children)
  }

  function ForestSize(ns: seq<Node>): nat
  {
    if ns == [] then 0 else Size(ns[0]) + ForestSize(ns[1..])
  }

  /** Every node of a forest, in tree (document) order. */
  function Preorder(ns: seq<Node>): seq<Node>
  {
    if ns == [] then [] else [ns[0]] + Preorder(ns[0].children) + Preorder(ns[1..])
  }

  /** The proper descendants of `n` in tree order: what a query on `n`
      searches. `n` itself is not among them. */
  function Descendants(n: Node): seq<Node>
  {
    Preorder(n.children)
  }

  /** The three selectors the source builds: `[data-component]`,
      `[data-component="name"]` and `[data-component="name"]#id`. */
  datatype Selector =
    | HasComponent
    | ComponentIs(name: string)
    | ComponentIsWithId(name: string, id: string)

  predicate Matches(n: Node, sel: Selector)
  {
    match sel
    case HasComponent => n.component.Some?
    case ComponentIs(name) => n.component == Some(name)
    case ComponentIsWithId(name, id) => n.component == Some(name) && n.elementId == Some(id)
  }

  /** The nodes of `ns` that match `sel`, order kept. */
  function Select(ns: seq<Node>, sel: Selector): (r: seq<Node>)
    ensures |r| <= |ns|
    ensures forall x :: x in r <==> x in ns && Matches(x, sel)
  {
    if ns == [] then []
    else (if Matches(ns[0], sel) then [ns[0]] else []) + Select(ns[1..], sel)
  }

  /** The index of the first node of `ns` that matches `sel`. */
  function FirstMatch(ns: seq<Node>, sel: Selector): (r: Option<nat>)
    ensures r.Some? ==> r.value < |ns| && Matches(ns[r.value], sel)
    ensures r.Some? ==> forall j :: 0 <= j < r.value ==> !Matches(ns[j], sel)
    ensures r.None? ==> forall j :: 0 <= j < |ns| ==> !Matches(ns[j], sel)
  {
    if ns == [] then None
    else if Matches(ns[0], sel) then Some(0)
    else match FirstMatch(ns[1..], sel)
      case None => None
      case Some(i) => Some(i + 1)
  }

  /** `n.querySelectorAll(sel)`: a snapshot of the matching descendants in
      tree order. */
  function QueryAll(n: Node, sel: Selector): (r: seq<Node>)
    ensures forall x :: x in r <==> x in Descendants(n) && Matches(x, sel)
    ensures |r| <= |Descendants(n)|
  {
    Select(Descendants(n), sel)
  }

  /** `n.querySelector(sel)`: the first matching descendant in tree order,
      None for `null`. */
  function Query(n: Node, sel: Selector): (r: Option<Node>)
    ensures r.Some? ==> r.value in Descendants(n) && Matches(r.value, sel)
    ensures r.None? <==> forall x :: x in Descendants(n) ==> !Matches(x, sel)
  {
    match FirstMatch(Descendants(n), sel)
    case None => None
    case Some(i) => Some(Descendants(n)[i])
  }

  /** The elements the loader visits from `n`:
      `n.querySelectorAll('[data-component]')`. */
  function Scan(n: Node): seq<Node>
  {
    QueryAll(n, HasComponent)
  }

  /** Selecting from a concatenation selects from each part in turn: the
      matches keep the order of the nodes searched. */
  lemma {:induction false} SelectAppend(xs: seq<Node>, ys: seq<Node>, sel: Selector)
    ensures Select(xs + ys, sel) == Select(xs, sel) + Select(ys, sel)
  {
    if xs == [] {
      assert xs + ys == ys;
    } else {
      var zs := xs + ys;
      assert zs != [] && zs[0] == xs[0] && zs[1..] == xs[1..] + ys by {
        assert |zs| == |xs| + |ys|;
      }
      SelectAppend(xs[1..], ys, sel);
      SelectCons(zs, sel);
      SelectCons(xs, sel);
    }
  }

  /** `Select` on a non-empty sequence, one step. */
  lemma SelectCons(ns: seq<Node>, sel: Selector)
    requires ns != []
    ensures Select(ns, sel) == (if Matches(ns[0], sel) then [ns[0]] else []) + Select(ns[1..], sel)
  {
  }

  /** One node gives one entry when it matches and none otherwise; with
      `SelectAppend` this fixes `Select` on every sequence. */
  lemma SelectOne(x: Node, sel: Selector)
    ensures Select([x], sel) == if Matches(x, sel) then [x] else []
  {
    assert [x][1..] == [];
  }

  /** `querySelector` returns the head of what `querySelectorAll` returns. */
  lemma {:induction false} SelectHeadIsFirstMatch(ns: seq<Node>, sel: Selector)
    ensures FirstMatch(ns, sel).None? <==> Select(ns, sel) == []
    ensures FirstMatch(ns, sel).Some? ==> Select(ns, sel)[0] == ns[FirstMatch(ns, sel).value]
  {
    if ns != [] && !Matches(ns[0], sel) {
      SelectHeadIsFirstMatch(ns[1..], sel);
      assert Select(ns, sel) == Select(ns[1..], sel);
    }
  }

  lemma QueryIsHeadOfQueryAll(n: Node, sel: Selector)
    ensures Query(n, sel) == if QueryAll(n, sel) == [] then None else Some(QueryAll(n, sel)[0])
  {
    SelectHeadIsFirstMatch(Descendants(n), sel);
  }

  lemma {:induction false} PreorderSize(ns: seq<Node>, x: Node)
    requires x in Preorder(ns)
    ensures Size(x) <= ForestSize(ns)
  {
    if x != ns[0] {
      if x in Preorder(ns[0].children) {
        PreorderSize(ns[0].children, x);
      } else {
        PreorderSize(ns[1..], x);
      }
    }
  }

  lemma {:induction false} PreorderClosed(ns: seq<Node>, m: Node, x: Node)
    requires m in Preorder(ns) && x in Preorder(m.children)
    ensures x in Preorder(ns)
  {
    if m != ns[0] {
      if m in Preorder(ns[0].children) {
        PreorderClosed(ns[0].children, m, x);
      } else {
        PreorderClosed(ns[1..], m, x);
      }
    }
  }

  /** Every descendant is a strictly smaller tree; in particular no node is
      its own descendant. */
  lemma DescendantSmaller(n: Node, x: Node)
    requires x in Descendants(n)
    ensures Size(x) < Size(n)
  {
    PreorderSize(n.children, x);
  }

  /** A descendant of a descendant is a descendant. */
  lemma DescendantTransitive(n: Node, m: Node, x: Node)
    requires m in Descendants(n) && x in Descendants(m)
    ensures x in Descendants(n)
  {
    PreorderClosed(n.children, m, x);
  }

  /** Every element a scan of `n` visits is a strictly smaller tree, so a
      scan never visits `n` itself. */
  lemma ScanSmaller(n: Node)
    ensures forall x :: x in Scan(n) ==> Size(x) < Size(n) && x.component.Some?
    ensures n !in Scan(n)
  {
    forall x | x in Scan(n)
      ensures Size(x) < Size(n)
    {
      DescendantSmaller(n, x);
    }
  }

  /** A scan of a scanned element visits only elements the outer scan
      visits too. */
  lemma ScanTransitive(n: Node, m: Node)
    requires m in Scan(n)
    ensures forall x :: x in Scan(m) ==> x in Scan(n)
  {
    forall x | x in Scan(m)
      ensures x in Scan(n)
    {
      DescendantTransitive(n, m, x);
    }
  }

  /** `s.split(',')`: the pieces between commas, no trimming; the empty
      string gives one empty piece. */
  function Split(s: string): (parts: seq<string>)
    ensures |parts| >= 1
    ensures forall k :: 0 <= k < |parts| ==> ',' !in parts[k]
  {
    if s == [] then [""]
    else
      var rest := Split(s[1..]);
      if s[0] == ',' then [""] + rest
      else [[s[0]] + rest[0]] + rest[1..]
  }

  /** `parts.join(',')` */
  function Join(parts: seq<string>): string
    requires |parts| >= 1
  {
    if |parts| == 1 then parts[0] else parts[0] + "," + Join(parts[1..])
  }

  lemma {:induction false} JoinSplit(s: string)
    ensures Join(Split(s)) == s
  {
    if s != [] {
      JoinSplit(s[1..]);
      var rest := Split(s[1..]);
      if s[0] != ',' {
        if |rest| == 1 {
          assert s == [s[0]] + s[1..];
        } else {
          assert Join(rest) == rest[0] + "," + Join(rest[1..]);
          assert s == [s[0]] + s[1..];
        }
      }
    }
  }

  lemma {:induction false} SplitPrefix(p: string, t: string)
    requires ',' !in p
    ensures Split(p + t) == [p + Split(t)[0]] + Split(t)[1..]
  {
    if p != [] {
      SplitPrefix(p[1..], t);
      assert (p + t)[0] == p[0] && (p + t)[1..] == p[1..] + t;
      var rest := Split(p[1..] + t);
      assert rest[0] == p[1..] + Split(t)[0] && rest[1..] == Split(t)[1..];
      assert [p[0]] + rest[0] == p + Split(t)[0];
    } else {
      assert p + t == t;
      assert p + Split(t)[0] == Split(t)[0];
      assert Split(t) == [Split(t)[0]] + Split(t)[1..];
    }
  }

  lemma {:induction false} SplitJoin(parts: seq<string>)
    requires |parts| >= 1
    requires forall k :: 0 <= k < |parts| ==> ',' !in parts[k]
    ensures Split(Join(parts)) == parts
  {
    if |parts| == 1 {
      SplitPrefix(parts[0], "");
      assert parts[0] + "" == parts[0];
    } else {
      SplitJoin(parts[1..]);
      var tail := "," + Join(parts[1..]);
      assert Join(parts) == parts[0] + tail;
      SplitPrefix(parts[0], tail);
      assert tail[0] == ',' && tail[1..] == Join(parts[1..]);
      assert Split(tail) == [""] + parts[1..];
      assert parts[0] + "" == parts[0];
      assert parts == [parts[0]] + parts[1..];
    }
  }

  /** An attribute without a comma names one component: itself. */
  lemma {:induction false} SplitSingle(s: string)
    requires ',' !in s
    ensures Split(s) == [s]
  {
    if s != [] {
      assert ',' !in s[1..] by {
        forall k | 0 <= k < |s[1..]| ensures s[1..][k] != ',' { assert s[1..][k] == s[k + 1]; }
      }
      SplitSingle(s[1..]);
      assert [s[0]] + s[1..] == s;
    }
  }
}
