/**
 * The full-screen story viewer (`StoryView`): a slide index over the items,
 * stepped by next and previous, with a progress segment per slide and a
 * finish button on the last one. Closing is reported to the caller as a
 * flag standing in for `onClose`.
 */
module Story {
  import opened Text

  /** `currentIndex < items.length - 1` */
  predicate HasNext(current: int, count: nat) {
    current < count - 1
  }

  /** `handleNext`: the new index, and whether `onClose` was called. */
  function NextStep(current: int, count: nat): (int, bool) {
    if HasNext(current, count) then (current + 1, false) else (current, true)
  }

  /** `handlePrev` */
  function PrevStep(current: int): int {
    if current > 0 then current - 1 else current
  }

  /** The auto-advance timer firing: like next, but never closing. */
  function TimerStep(current: int, count: nat, paused: bool): int {
    if !paused && HasNext(current, count) then current + 1 else current
  }

  /** The index points at a slide, or is 0 when there are none. */
  predicate InRange(current: int, count: nat) {
    0 <= current && (current < count || current == 0)
  }

  /** Next moves one slide forward unless on the last (or only) slide, where
      it closes and keeps the index. */
  lemma NextSpec(current: int, count: nat)
    requires InRange(current, count)
    ensures var (i, closed) := NextStep(current, count);
      (closed <==> count == 0 || current == count - 1) &&
      (closed ==> i == current) && (!closed ==> i == current + 1)
  {
  }

  /** Prev moves one slide back, and does nothing on the first. It never
      leaves the slides, never moves forward, and next undoes it: from any
      slide but the first, prev then next returns to that slide without
      closing. */
  lemma PrevSpec(current: int, count: nat)
    ensures current > 0 ==> PrevStep(current) == current - 1
    ensures current <= 0 ==> PrevStep(current) == current
    ensures PrevStep(current) <= current
    ensures InRange(current, count) ==> InRange(PrevStep(current), count)
    ensures InRange(current, count) && current > 0 ==> NextStep(PrevStep(current), count) == (current, false)
  {
  }

  /** Next then prev returns to the slide unless next closed the story. */
  lemma NextThenPrev(current: int, count: nat)
    requires InRange(current, count)
    ensures var (i, closed) := NextStep(current, count);
      !closed ==> PrevStep(i) == current
  {
  }

  datatype Step = Next | Prev | Timer

  /** Applies the steps in order; the flag tells whether any step closed. */
  function Run(current: int, count: nat, paused: bool, steps: seq<Step>): (int, bool)
    decreases |steps|
  {
    if |steps| == 0 then (current, false)
    else
      var (i, closed) := match steps[0]
        case Next => NextStep(current, count)
        case Prev => (PrevStep(current), false)
        case Timer => (TimerStep(current, count, paused), false);
      var (j, later) := Run(i, count, paused, steps[1..]);
      (j, closed || later)
  }

  /** From the first slide, any sequence of steps keeps the index within
      [0, max(count - 1, 0)]. */
  lemma {:induction false} RunInRange(current: int, count: nat, paused: bool, steps: seq<Step>)
    requires InRange(current, count)
    ensures InRange(Run(current, count, paused, steps).0, count)
    decreases |steps|
  {
    if |steps| > 0 {
      var i := match steps[0]
        case Next => NextStep(current, count).0
        case Prev => PrevStep(current)
        case Timer => TimerStep(current, count, paused);
      assert InRange(i, count);
      RunInRange(i, count, paused, steps[1..]);
    }
  }

  lemma StartInRange(count: nat)
    ensures InRange(0, count)
  {
  }

  /** The progress bar: the segments up to and including the current one are
      full, the rest empty. */
  function SegmentFull(idx: nat, current: int): (r: bool)
    ensures r <==> idx <= current
  {
    idx < current || idx == current
  }

  /** How many of the first `n` segments are full. */
  function FullSegments(n: nat, current: int): nat {
    if n == 0 then 0 else FullSegments(n - 1, current) + (if SegmentFull(n - 1, current) then 1 else 0)
  }

  /** The bar fills from the left: a full segment has only full segments
      before it, moving forward never empties one, and on slide `current`
      exactly `current + 1` of the `count` segments are full. */
  lemma {:induction false} SegmentsFilled(n: nat, current: int, count: nat)
    ensures forall i: nat, j: nat :: j <= i && SegmentFull(i, current) ==> SegmentFull(j, current)
    ensures forall i: nat :: SegmentFull(i, current) ==> SegmentFull(i, NextStep(current, count).0)
    ensures 0 <= current < n ==> FullSegments(n, current) == current + 1
  {
    if 0 <= current < n {
      if n - 1 == current {
        FullSegmentsBelow(n - 1, current);
      } else {
        SegmentsFilled(n - 1, current, count);
      }
    }
  }

  /** With the current slide at or past them, all of the first `n` segments
      are full. */
  lemma {:induction false} FullSegmentsBelow(n: nat, current: int)
    requires n <= current + 1
    ensures FullSegments(n, current) == n
  {
    if n > 0 {
      FullSegmentsBelow(n - 1, current);
    }
  }

  /** `currentIndex === items.length - 1` */
  predicate FinishShown(current: int, count: nat) {
    current == count - 1
  }

  /** The counter's two numbers. */
  function Counter(current: int, count: nat): (int, nat) {
    (current + 1, count)
  }

  /** On a slide, the finish button is shown exactly where next would close,
      and the counter reads a position from 1 to the count. */
  lemma FinishWhereNextCloses(current: int, count: nat)
    requires InRange(current, count) && count > 0
    ensures FinishShown(current, count) <==> NextStep(current, count).1
    ensures 1 <= Counter(current, count).0 <= Counter(current, count).1
  {
  }

  /** With no items, next closes at once, no finish button is shown and the
      counter reads "1 / 0". */
  lemma EmptyStory()
    ensures NextStep(0, 0) == (0, true)
    ensures !FinishShown(0, 0)
    ensures Counter(0, 0) == (1, 0)
  {
  }

  /** One open story. `isPaused` starts false and no handler sets it. */
  class StoryView {
    const items: seq<string>
    var currentIndex: int
    var isPaused: bool

    ghost predicate Valid()
      reads this
    {
      InRange(currentIndex, |items|)
    }

    constructor (items: seq<string>)
      ensures this.items == items && currentIndex == 0 && !isPaused
      ensures Valid()
    {
      this.items := items;
      currentIndex := 0;
      isPaused := false;
    }

    method HandleNext() returns (closed: bool)
      requires Valid()
      modifies this
      ensures Valid()
      ensures (currentIndex, closed) == NextStep(old(currentIndex), |items|)
      ensures isPaused == old(isPaused)
    {
      closed := false;
      if currentIndex < |items| - 1 {
        currentIndex := currentIndex + 1;
      } else {
        closed := true;
      }
    }

    method HandlePrev()
      requires Valid()
      modifies this
      ensures Valid()
      ensures currentIndex == PrevStep(old(currentIndex)) && isPaused == old(isPaused)
    {
      if currentIndex > 0 {
        currentIndex := currentIndex - 1;
      }
    }

    /** The auto-advance timeout elapsing. */
    method TimerFired()
      requires Valid()
      modifies this
      ensures Valid()
      ensures currentIndex == TimerStep(old(currentIndex), |items|, isPaused) && isPaused == old(isPaused)
    {
      if !isPaused && currentIndex < |items| - 1 {
        currentIndex := currentIndex + 1;
      }
    }

    /** The slide on show, `items[currentIndex]`, which is `undefined` past
        the end. The index invariant rules that out while there are items,
        so the viewer always shows one of them. */
    function CurrentContent(): (r: Option<string>)
      requires Valid()
      reads this
      ensures r.None? <==> |items| == 0
      ensures r.Some? ==> r.value in items && r.value == items[currentIndex]
    {
      if 0 <= currentIndex < |items| then Some(items[currentIndex]) else None
    }
  }
}
