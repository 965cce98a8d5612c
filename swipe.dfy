/**
 * The swipe gesture of a list row: which drags the row claims, how a release
 * is classified, and the row's offset, which is driven to one side, fires
 * that side's callback and comes back to rest.
 */
module Swipe {
  import opened Counting

  /** A release must pass this distance, strictly, to commit. */
  const SwipeThreshold: int := 100
  /** A move must pass this horizontal distance, strictly, to be claimed. */
  const ClaimSlop: int := 10
  /** Where a committing row is driven before its callback fires. */
  const OffScreen: int := 400

  function Abs(n: int): (r: nat)
    ensures r == n || r == -n
  {
    if n < 0 then -n else n
  }

  /** `onMoveShouldSetPanResponder`: a drag is claimed when it is more horizontal than vertical and past the slop. */
  function ShouldClaimMove(dx: int, dy: int): (r: bool)
    ensures r <==> (dx > ClaimSlop && -dx < dy < dx) || (dx < -ClaimSlop && dx < dy < -dx)
  {
    Abs(dx) > Abs(dy) && Abs(dx) > ClaimSlop
  }

  /** A drag at least as vertical as it is horizontal, or within the slop, is left to the list. */
  lemma VerticalDragNotClaimed(dx: int, dy: int)
    requires Abs(dy) >= Abs(dx) || Abs(dx) <= ClaimSlop
    ensures !ShouldClaimMove(dx, dy)
  {
  }

  datatype Release = CommitRight | CommitLeft | SnapBack

  /** `onPanResponderRelease`: the right branch is tested first, then the left, otherwise the row snaps back. */
  function ClassifyRelease(dx: int, hasSwipeRight: bool, hasSwipeLeft: bool): (r: Release)
    ensures r == CommitRight <==> dx > SwipeThreshold && hasSwipeRight
    ensures r == CommitLeft <==> dx < -SwipeThreshold && hasSwipeLeft
    ensures r == SnapBack <==> !(dx > SwipeThreshold && hasSwipeRight) && !(dx < -SwipeThreshold && hasSwipeLeft)
  {
    if dx > SwipeThreshold && hasSwipeRight then CommitRight
    else if dx < -SwipeThreshold && hasSwipeLeft then CommitLeft
    else SnapBack
  }

  /** The thresholds are strict, and a side without a callback never commits. */
  lemma ThresholdIsStrict(hasSwipeRight: bool, hasSwipeLeft: bool, dx: int)
    requires dx == SwipeThreshold || dx == -SwipeThreshold || (dx > SwipeThreshold && !hasSwipeRight)
      || (dx < -SwipeThreshold && !hasSwipeLeft)
    ensures ClassifyRelease(dx, hasSwipeRight, hasSwipeLeft) == SnapBack
  {
  }

  /** What the row shows and does, in order: the offset reaching a target, or a callback firing. */
  datatype Event = OffsetTo(x: int, y: int) | FiredRight | FiredLeft

  /** The events of one release: a commit animates off screen, fires its callback, then resets. */
  function ReleaseEvents(outcome: Release): (r: seq<Event>)
    ensures |r| > 0 && r[|r| - 1] == OffsetTo(0, 0)
    ensures forall i :: 0 <= i < |r| && r[i].OffsetTo? ==> r[i].y == 0
  {
    match outcome
    case CommitRight => [OffsetTo(OffScreen, 0), FiredRight, OffsetTo(0, 0)]
    case CommitLeft => [OffsetTo(-OffScreen, 0), FiredLeft, OffsetTo(0, 0)]
    case SnapBack => [OffsetTo(0, 0)]
  }

  /**
   * A commit fires its own callback exactly once and the other not at all,
   * after the offset has reached the edge and before it is reset; a snap-back
   * fires nothing.
   */
  lemma ReleaseFiresOnce(outcome: Release)
    ensures Count(ReleaseEvents(outcome), FiredRight) == (if outcome == CommitRight then 1 else 0)
    ensures Count(ReleaseEvents(outcome), FiredLeft) == (if outcome == CommitLeft then 1 else 0)
    ensures outcome == CommitRight ==> ReleaseEvents(outcome)[0] == OffsetTo(OffScreen, 0) && ReleaseEvents(outcome)[1] == FiredRight
    ensures outcome == CommitLeft ==> ReleaseEvents(outcome)[0] == OffsetTo(-OffScreen, 0) && ReleaseEvents(outcome)[1] == FiredLeft
  {
    var r := ReleaseEvents(outcome);
    if outcome != SnapBack {
      assert r == [r[0]] + [r[1]] + [r[2]];
      CountAppend([r[0]] + [r[1]], [r[2]], FiredRight);
      CountAppend([r[0]], [r[1]], FiredRight);
      CountAppend([r[0]] + [r[1]], [r[2]], FiredLeft);
      CountAppend([r[0]], [r[1]], FiredLeft);
    }
  }

  /**
   * One row: its `pan` offset, whether it holds the gesture, and the events
   * it has produced. The callbacks are fixed props.
   */
  class SwipeableItem {
    const hasSwipeRight: bool
    const hasSwipeLeft: bool
    var x: int
    var y: int
    var claimed: bool
    var trace: seq<Event>

    /**
     * `y` is never moved, and a side without a callback has never fired. A row
     * that does not hold the gesture need not be at 0: one whose gesture was
     * taken over stays where the last move left it.
     */
    ghost predicate Valid()
      reads this
    {
      && y == 0
      && (!hasSwipeRight ==> Count(trace, FiredRight) == 0)
      && (!hasSwipeLeft ==> Count(trace, FiredLeft) == 0)
    }

    constructor (onSwipeRight: bool, onSwipeLeft: bool)
      ensures Valid()
      ensures hasSwipeRight == onSwipeRight && hasSwipeLeft == onSwipeLeft
      ensures x == 0 && y == 0 && !claimed && trace == []
    {
      hasSwipeRight, hasSwipeLeft := onSwipeRight, onSwipeLeft;
      x, y, claimed, trace := 0, 0, false, [];
    }

    /**
     * A move event with the gesture's total displacement. An unclaimed row
     * asks `ShouldClaimMove`; a claimed row follows `dx` with its offset, and
     * a row that stays unclaimed is not moved.
     */
    method Move(dx: int, dy: int)
      requires Valid()
      modifies this
      ensures Valid()
      ensures claimed == (old(claimed) || ShouldClaimMove(dx, dy))
      ensures x == (if claimed then dx else old(x))
      ensures y == 0 && trace == old(trace)
    {
      if !claimed && ShouldClaimMove(dx, dy) {
        claimed := true;
      }
      if claimed {
        x := dx;
      }
    }

    /**
     * The end of a claimed gesture. Each animation is one step to its target;
     * a commit's callback fires when its animation completes, then the offset
     * is reset. An unclaimed row receives no release.
     */
    method Release(dx: int)
      requires Valid()
      modifies this
      ensures Valid()
      ensures y == 0 && !claimed
      ensures old(claimed) ==> x == 0
      ensures !old(claimed) ==> x == old(x)
      ensures old(claimed) ==> trace == old(trace) + ReleaseEvents(ClassifyRelease(dx, hasSwipeRight, hasSwipeLeft))
      ensures !old(claimed) ==> trace == old(trace)
      ensures Count(trace, FiredRight) == Count(old(trace), FiredRight)
        + (if old(claimed) && ClassifyRelease(dx, hasSwipeRight, hasSwipeLeft) == CommitRight then 1 else 0)
      ensures Count(trace, FiredLeft) == Count(old(trace), FiredLeft)
        + (if old(claimed) && ClassifyRelease(dx, hasSwipeRight, hasSwipeLeft) == CommitLeft then 1 else 0)
    {
      if !claimed {
        return;
      }
      ghost var before := trace;
      if dx > SwipeThreshold && hasSwipeRight {
        x, y := OffScreen, 0;
        trace := trace + [OffsetTo(x, y)];
        trace := trace + [FiredRight];
        x, y := 0, 0;
        trace := trace + [OffsetTo(x, y)];
      } else if dx < -SwipeThreshold && hasSwipeLeft {
        x, y := -OffScreen, 0;
        trace := trace + [OffsetTo(x, y)];
        trace := trace + [FiredLeft];
        x, y := 0, 0;
        trace := trace + [OffsetTo(x, y)];
      } else {
        x, y := 0, 0;
        trace := trace + [OffsetTo(x, y)];
      }
      claimed := false;
      var outcome := ClassifyRelease(dx, hasSwipeRight, hasSwipeLeft);
      assert trace == before + ReleaseEvents(outcome);
      CountAppend(before, ReleaseEvents(outcome), FiredRight);
      CountAppend(before, ReleaseEvents(outcome), FiredLeft);
      ReleaseFiresOnce(outcome);
    }

    /**
     * Another responder (the list's scroll view) takes the gesture over. The
     * row sets no termination handler and does not refuse the request, so it
     * lets go without an animation: the offset stays where it was.
     */
    method Terminate()
      requires Valid()
      modifies this
      ensures Valid()
      ensures !claimed && x == old(x) && y == 0 && trace == old(trace)
    {
      claimed := false;
    }
  }

  /** A drag that is taken over after the row followed it leaves the row displaced, with no callback fired. */
  method TakenOverDragLeavesRowDisplaced(dx: int) returns (offset: int, claimed: bool, trace: seq<Event>)
    requires dx > ClaimSlop
    ensures offset == dx && !claimed && trace == []
  {
    var row := new SwipeableItem(true, true);
    row.Move(dx, 0);
    row.Terminate();
    offset, claimed, trace := row.x, row.claimed, row.trace;
  }
}
