/** `Timer` of src/js/utils.js: a repeating callback every `delay`
    milliseconds that can be paused and resumed. The closure variables
    `remaining`, `start` and `timerId` are fields; the host's timeout queue
    for this timer is `pending`, with `nextId` the next id `setTimeout`
    hands out; `fired` lists the times at which the callback ran. Every
    operation takes the current time `now` (`new Date()`) as a parameter. */
module Timers {
  import opened Timeouts

  class Timer {
    const delay: int
    var remaining: int
    var start: int
    var timerId: nat
    var pending: seq<Countdown>
    var nextId: nat
    var fired: seq<int>

    /** The queue holds countdowns armed by this timer, oldest first, and the
        latest id is one that was handed out. */
    ghost predicate Valid()
      reads this
    {
      && IdsIncreasing(pending)
      && (forall k :: 0 <= k < |pending| ==> pending[k].id < nextId)
      && timerId < nextId
    }

    /** `new Timer(callback, delay)`: `remaining` starts at `delay` and the
        constructor resumes, arming the first countdown. */
    constructor (delay: int, now: int)
      ensures Valid()
      ensures this.delay == delay && remaining == delay && start == now
      ensures pending == [Countdown(1, now + TimeoutDelay(delay))]
      ensures timerId == 1 && nextId == 2 && fired == []
    {
      this.delay := delay;
      remaining := delay;
      start := now;
      timerId := 0;
      pending := [];
      nextId := 1;
      fired := [];
      new;
      Resume(now);
    }

    /** `pause`: clear the latest countdown and subtract the time elapsed
        since the last resume. `start` is left as it is, so a second pause
        subtracts the same stretch again. */
    method Pause(now: int)
      requires Valid()
      modifies this
      ensures Valid()
      ensures pending == Cancel(old(pending), timerId)
      ensures forall c :: c in pending <==> c in old(pending) && c.id != timerId
      ensures remaining == old(remaining) - (now - start)
      ensures start == old(start) && timerId == old(timerId) && nextId == old(nextId) && fired == old(fired)
    {
      CancelKeepsIncreasing(pending, timerId);
      pending := Cancel(pending, timerId);
      remaining := remaining - (now - start);
    }

    /** `resume`: restart the clock and arm a countdown of `remaining`. A
        countdown armed earlier is not cleared and stays pending. */
    method Resume(now: int)
      requires Valid()
      modifies this
      ensures Valid()
      ensures start == now && timerId == old(nextId) && nextId == old(nextId) + 1
      ensures pending == old(pending) + [Countdown(old(nextId), now + TimeoutDelay(remaining))]
      ensures remaining == old(remaining) && fired == old(fired)
    {
      start := now;
      timerId := nextId;
      pending := pending + [Countdown(nextId, now + TimeoutDelay(remaining))];
      nextId := nextId + 1;
    }

    /** `reset`: only `remaining` goes back to `delay`; whatever is pending
        stays pending, with its old due time. */
    method Reset()
      requires Valid()
      modifies this
      ensures Valid()
      ensures remaining == delay
      ensures start == old(start) && timerId == old(timerId) && nextId == old(nextId)
      ensures pending == old(pending) && fired == old(fired)
    {
      remaining := delay;
    }

    /** The event loop runs the countdown at position `k`, due by `now`:
        `remaining` goes back to `delay`, a full-`delay` countdown is armed,
        and then the callback runs. */
    method Fire(k: nat, now: int)
      requires Valid() && k < |pending| && pending[k].due <= now
      modifies this
      ensures Valid()
      ensures remaining == delay && start == now
      ensures timerId == old(nextId) && nextId == old(nextId) + 1
      ensures pending == RemoveAt(old(pending), k) + [Countdown(old(nextId), now + TimeoutDelay(delay))]
      ensures fired == old(fired) + [now]
    {
      pending := RemoveAt(pending, k);
      remaining := delay;
      Resume(now);
      fired := fired + [now];
    }
  }

  /** A timer of 1000 ms created at `t0`, paused 400 ms later and resumed at
      `r`: the first callback is due 600 ms after the resume, and each later
      one a full 1000 ms after the previous. */
  method PauseResumeScenario(t0: int, r: int) returns (remainingAtPause: int, dues: seq<int>, fired: seq<int>)
    requires t0 + 400 <= r
    ensures remainingAtPause == 600
    ensures dues == [r + 600, r + 1600, r + 2600]
    ensures fired == [r + 600, r + 1600]
  {
    var t := new Timer(1000, t0);
    t.Pause(t0 + 400);
    assert t.pending == [];
    remainingAtPause := t.remaining;
    t.Resume(r);
    var first := t.pending[0].due;
    t.Fire(0, first);
    var second := t.pending[0].due;
    t.Fire(0, second);
    dues := [first, second, t.pending[0].due];
    fired := t.fired;
  }

  /** The quirks of the closure: resuming a running timer leaves two
      countdowns pending, and pausing twice subtracts the elapsed time
      twice. */
  method QuirksScenario(t0: int) returns (dues: seq<int>, remainingAfterTwoPauses: int)
    ensures dues == [t0 + 1000, t0 + 1100]
    ensures remainingAfterTwoPauses == 200
  {
    var t := new Timer(1000, t0);
    t.Resume(t0 + 100);
    dues := [t.pending[0].due, t.pending[1].due];
    var u := new Timer(1000, t0);
    u.Pause(t0 + 400);
    u.Pause(t0 + 400);
    remainingAfterTwoPauses := u.remaining;
  }
}
