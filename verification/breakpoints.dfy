/** `BreakpointListener` of src/js/utils.js: names the bucket the viewport
    width falls in, from a table of (name, minimum width) pairs, and
    reports each check with whether the bucket changed. The viewport width
    `window.innerWidth` and the current time are parameters; the debounce
    timeout is a pending countdown. */
module Breakpoints {
  import opened Js
  import opened Timeouts

  /** The value of `screenSize`: `null` before the first check, `undefined`
      when the table is empty, otherwise a bucket name. */
  datatype ScreenSize = NullSize | UndefinedSize | Named(name: string)

  /** The breakpoint table in `Object.keys` order: (name, width) pairs. */
  type Table = seq<(string, int)>

  /** What the callback receives: `{screenSize, hasChanged}`. */
  datatype Report = Report(screenSize: ScreenSize, hasChanged: bool)

  /** The quiet period of the resize debounce, in milliseconds. */
  const DebounceDelay: int := 250

  /** The first position from `lo` on whose width exceeds `width`. */
  function FirstAbove(bp: Table, width: int, lo: nat): (r: Option<nat>)
    requires lo <= |bp|
    ensures r.Some? ==> lo <= r.value < |bp| && width < bp[r.value].1
    ensures r.Some? ==> forall i :: lo <= i < r.value ==> bp[i].1 <= width
    ensures r.None? ==> forall i :: lo <= i < |bp| ==> bp[i].1 <= width
    decreases |bp| - lo
  {
    if lo == |bp| then None
    else if width < bp[lo].1 then Some(lo)
    else FirstAbove(bp, width, lo + 1)
  }

  /** `keys.slice(-1)[0]`: the last name, `undefined` for an empty table. */
  function LastName(bp: Table): ScreenSize
  {
    if bp == [] then UndefinedSize else Named(bp[|bp| - 1].0)
  }

  /** `keys[j - 1] || 'xs'`: the name before position `j`, with "xs" when
      there is none (j = 0) or it is the empty string. */
  function NameBefore(bp: Table, j: nat): ScreenSize
    requires j < |bp|
  {
    if j == 0 || bp[j - 1].0 == "" then Named("xs") else Named(bp[j - 1].0)
  }

  /** The bucket `checkView` settles on: the name before the first width
      that exceeds `width`, or the last name when none does. */
  function BucketFor(bp: Table, width: int): (r: ScreenSize)
    ensures r != NullSize
    ensures r == UndefinedSize <==> bp == []
  {
    BucketFrom(bp, width, 0)
  }

  /** The same choice among the positions from `lo` on: what the downward
      loop holds once it has looked at them. */
  function BucketFrom(bp: Table, width: int, lo: nat): ScreenSize
    requires lo <= |bp|
  {
    match FirstAbove(bp, width, lo)
    case None => LastName(bp)
    case Some(j) => NameBefore(bp, j)
  }

  /** The downward loop of `checkView`: start from the last name and, for
      every position from the last to the first whose width exceeds the
      viewport width, take the name before it. */
  method Bucket(bp: Table, width: int) returns (size: ScreenSize)
    ensures size == BucketFor(bp, width)
    ensures size != NullSize
    ensures size == UndefinedSize <==> bp == []
  {
    size := LastName(bp);
    var i := |bp| - 1;
    while i >= 0
      invariant -1 <= i < |bp|
      invariant size == BucketFrom(bp, width, i + 1)
    {
      if width < bp[i].1 {
        size := NameBefore(bp, i);
      }
      i := i - 1;
    }
  }

  /** Widths in ascending order and non-empty names, as a breakpoint table
      is meant to be. */
  predicate WellFormed(bp: Table)
  {
    && (forall i, j :: 0 <= i < j < |bp| ==> bp[i].1 <= bp[j].1)
    && (forall i :: 0 <= i < |bp| ==> bp[i].0 != "")
  }

  /** For a well-formed table the bucket is the name of the last breakpoint
      the width has reached, and "xs" below the first one. */
  lemma BucketIsLastReached(bp: Table, width: int, m: nat)
    requires WellFormed(bp)
    requires m < |bp| && bp[m].1 <= width && (m + 1 < |bp| ==> width < bp[m + 1].1)
    ensures BucketFor(bp, width) == Named(bp[m].0)
  {
    match FirstAbove(bp, width, 0)
    case None =>
      assert m == |bp| - 1;
    case Some(j) =>
      assert j == m + 1;
  }

  lemma BucketBelowFirst(bp: Table, width: int)
    requires bp != [] && width < bp[0].1
    ensures BucketFor(bp, width) == Named("xs")
  {
  }

  /** The table of the usual four buckets. */
  const Usual: Table := [("xs", 0), ("sm", 640), ("md", 768), ("lg", 1024)]

  lemma UsualBuckets()
    ensures BucketFor(Usual, 700) == Named("sm")
    ensures BucketFor(Usual, 701) == Named("sm")
    ensures BucketFor(Usual, 800) == Named("md")
    ensures BucketFor(Usual, 1024) == Named("lg")
    ensures BucketFor(Usual, 20) == Named("xs")
    ensures BucketFor(Usual, -5) == Named("xs")
  {
    BucketIsLastReached(Usual, 700, 1);
    BucketIsLastReached(Usual, 701, 1);
    BucketIsLastReached(Usual, 800, 2);
    BucketIsLastReached(Usual, 1024, 3);
    BucketIsLastReached(Usual, 20, 0);
    BucketBelowFirst(Usual, -5);
  }

  class BreakpointListener {
    const breakpoints: Table
    var screenSize: ScreenSize
    var windowWidth: int
    var timeout: Option<nat>
    var pending: seq<Countdown>
    var nextId: nat
    var reports: seq<Report>

    /** At most one check is pending, and it is the one `timeout` names. */
    ghost predicate Valid()
      reads this
    {
      && |pending| <= 1
      && (|pending| == 1 ==> timeout == Some(pending[0].id))
      && (timeout.Some? ==> timeout.value < nextId)
    }

    /** `new BreakpointListener(callback, breakpoints)` with the viewport
        `innerWidth` wide: the first check runs at once, from `null`, so it
        always reports a change. */
    constructor (breakpoints: Table, innerWidth: int)
      ensures Valid()
      ensures this.breakpoints == breakpoints && windowWidth == innerWidth
      ensures timeout == None && pending == [] && nextId == 1
      ensures screenSize == BucketFor(breakpoints, innerWidth)
      ensures reports == [Report(BucketFor(breakpoints, innerWidth), true)]
    {
      this.breakpoints := breakpoints;
      screenSize := NullSize;
      windowWidth := innerWidth;
      timeout := None;
      pending := [];
      nextId := 1;
      reports := [];
      new;
      CheckView();
    }

    /** `checkView`: compute the bucket of `windowWidth`, store it and report
        it with whether it differs from the one stored before. */
    method CheckView()
      modifies this
      ensures screenSize == BucketFor(breakpoints, windowWidth)
      ensures reports == old(reports) + [Report(screenSize, screenSize != old(screenSize))]
      ensures windowWidth == old(windowWidth) && timeout == old(timeout)
      ensures pending == old(pending) && nextId == old(nextId)
    {
      var size := Bucket(breakpoints, windowWidth);
      var hasChanged := screenSize != size;
      screenSize := size;
      reports := reports + [Report(screenSize, hasChanged)];
    }

    /** The `resize` listener, with the viewport now `innerWidth` wide. An
        unchanged width does nothing; otherwise the width is stored, the
        pending check (if any) is cleared and a new one is armed
        `DebounceDelay` ms from `now`. */
    method Listener(innerWidth: int, now: int)
      requires Valid()
      modifies this
      ensures Valid()
      ensures old(windowWidth) == innerWidth ==>
        && windowWidth == old(windowWidth) && timeout == old(timeout)
        && pending == old(pending) && nextId == old(nextId)
      ensures old(windowWidth) != innerWidth ==>
        && windowWidth == innerWidth && timeout == Some(old(nextId))
        && pending == [Countdown(old(nextId), now + DebounceDelay)]
        && nextId == old(nextId) + 1
      ensures screenSize == old(screenSize) && reports == old(reports)
    {
      if windowWidth != innerWidth {
        windowWidth := innerWidth;
        if timeout.Some? {
          pending := Cancel(pending, timeout.value);
        }
        assert pending == [];
        timeout := Some(nextId);
        pending := pending + [Countdown(nextId, now + TimeoutDelay(DebounceDelay))];
        nextId := nextId + 1;
      }
    }

    /** The event loop runs the pending check, due by `now`. `timeout` keeps
        naming it. */
    method FireCheck(now: int)
      requires Valid() && |pending| == 1 && pending[0].due <= now
      modifies this
      ensures Valid()
      ensures pending == [] && timeout == old(timeout) && nextId == old(nextId)
      ensures windowWidth == old(windowWidth)
      ensures screenSize == BucketFor(breakpoints, windowWidth)
      ensures reports == old(reports) + [Report(screenSize, screenSize != old(screenSize))]
    {
      pending := RemoveAt(pending, 0);
      CheckView();
    }
  }

  /** Resizing with the usual table from 700 px: 701 px keeps the bucket,
      and two quick resizes towards 800 px coalesce into one check, which
      reports the move to "md". */
  method ResizeScenario(now: int) returns (reports: seq<Report>, due: int)
    ensures reports == [Report(Named("sm"), true), Report(Named("sm"), false), Report(Named("md"), true)]
    ensures due == now + 650
  {
    UsualBuckets();
    var l := new BreakpointListener(Usual, 700);
    l.Listener(701, now);
    l.FireCheck(now + 250);
    l.Listener(790, now + 300);
    l.Listener(800, now + 400);
    due := l.pending[0].due;
    l.FireCheck(due);
    reports := l.reports;
    assert BucketFor(Usual, 800) == Named("md");
  }
}
