/** The host's timeout queue as the two utilities of src/js/utils.js use it:
    `setTimeout` arms a countdown with a fresh id, `clearTimeout` drops the
    countdown with a given id (ignoring ids that are no longer pending), and
    the event loop runs a countdown once its due time has come. */
module Timeouts {

  /** A pending callback: the id `setTimeout` returned and the time at which
      it becomes due, in milliseconds. */
  datatype Countdown = Countdown(id: nat, due: int)

  /** The delay `setTimeout` uses for a requested `ms` before any clamping
      for nested timers: the value is converted to a signed 32-bit integer
      (wrapping modulo 2^32), and a negative result counts as 0. */
  function TimeoutDelay(ms: int): (d: nat)
    ensures d < 0x8000_0000
    ensures 0 <= ms < 0x8000_0000 ==> d == ms
    ensures -0x8000_0000 <= ms < 0 ==> d == 0
    ensures (d - ms) % 0x1_0000_0000 == 0 || (ms % 0x1_0000_0000 >= 0x8000_0000 && d == 0)
  {
    var m := ms % 0x1_0000_0000;
    var long := if m >= 0x8000_0000 then m - 0x1_0000_0000 else m;
    if long < 0 then 0 else long
  }

  /** Ids were handed out in increasing order. */
  predicate IdsIncreasing(q: seq<Countdown>)
  {
    forall i, j :: 0 <= i < j < |q| ==> q[i].id < q[j].id
  }

  /** `clearTimeout(id)`: the countdown carrying `id`, if still pending, is
      dropped; every other countdown stays. */
  function Cancel(q: seq<Countdown>, id: nat): (r: seq<Countdown>)
    ensures forall c :: c in r <==> c in q && c.id != id
    ensures |r| <= |q|
  {
    if q == [] then []
    else if q[0].id == id then Cancel(q[1..], id)
    else [q[0]] + Cancel(q[1..], id)
  }

  /** Clearing an id that is not pending changes nothing. */
  lemma {:induction false} CancelAbsent(q: seq<Countdown>, id: nat)
    requires forall c :: c in q ==> c.id != id
    ensures Cancel(q, id) == q
  {
    if q != [] {
      assert q[0] in q;
      CancelAbsent(q[1..], id);
      assert q == [q[0]] + q[1..];
    }
  }

  /** Clearing keeps the remaining countdowns in their order. */
  lemma {:induction false} CancelKeepsIncreasing(q: seq<Countdown>, id: nat)
    requires IdsIncreasing(q)
    ensures IdsIncreasing(Cancel(q, id))
  {
    if q != [] {
      CancelKeepsIncreasing(q[1..], id);
      var rest := Cancel(q[1..], id);
      if q[0].id != id {
        forall c | c in rest
          ensures q[0].id < c.id
        {
          var i :| 0 <= i < |q[1..]| && q[1..][i] == c;
          assert q[i + 1] == c;
        }
        assert Cancel(q, id) == [q[0]] + rest;
      }
    }
  }

  /** The queue after the countdown at position `k` has run. */
  function RemoveAt(q: seq<Countdown>, k: nat): (r: seq<Countdown>)
    requires k < |q|
    ensures |r| == |q| - 1
    ensures forall c :: c in q && c != q[k] ==> c in r
    ensures forall c :: c in r ==> c in q
    ensures IdsIncreasing(q) ==> IdsIncreasing(r) && q[k] !in r
  {
    var r := q[..k] + q[k + 1..];
    assert forall i :: 0 <= i < |r| ==> r[i] == if i < k then q[i] else q[i + 1];
    r
  }
}
