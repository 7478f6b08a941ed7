/** The generic swipeable card: a wrapper that lets its content be dragged
    horizontally and, on release, flings it off screen and reports the swipe
    at once, or springs it back. Unlike the event card it has no guards, it
    decides from the offset it last displayed, it compares strictly against
    the threshold, and it reports a swipe without waiting for the animation. */
module SwipeableCard {
  import opened Swipe
  import EventCardSpec

  /** The three ways a release can end. */
  datatype Outcome = FlungLeft | FlungRight | SprungBack

  /** A host callback, recorded when the card invokes it. */
  datatype Callback = SwipedLeft | SwipedRight

  /** The release decision taken from the offset `x`: fling left strictly
      beyond the threshold to the left, fling right strictly beyond it to the
      right, spring back otherwise. */
  function Decide(x: real, width: Width): (o: Outcome)
    ensures o == FlungLeft <==> x < -Threshold(width)
    ensures o == FlungRight <==> x > Threshold(width)
    ensures o == SprungBack <==> -Threshold(width) <= x <= Threshold(width)
  {
    if x < -Threshold(width) then FlungLeft
    else if x > Threshold(width) then FlungRight
    else SprungBack
  }

  /** Where the spring started by a release takes the card. */
  function Rest(o: Outcome, width: Width): (x: real)
    ensures o == SprungBack <==> x == 0.0
    ensures o == FlungLeft <==> x < 0.0
    ensures o == FlungRight <==> x > 0.0
    ensures o == FlungLeft ==> x == -(width as real)
    ensures o == FlungRight ==> x == width as real
  {
    match o
    case FlungLeft => OffScreen(Left, width)
    case FlungRight => OffScreen(Right, width)
    case SprungBack => 0.0
  }

  /** The callbacks a release invokes, `?.()` skipping a missing one. */
  function Report(o: Outcome, hasOnSwipeLeft: bool, hasOnSwipeRight: bool): (e: seq<Callback>)
    ensures |e| <= 1
    ensures e == [SwipedLeft] <==> o == FlungLeft && hasOnSwipeLeft
    ensures e == [SwipedRight] <==> o == FlungRight && hasOnSwipeRight
    ensures o == SprungBack ==> e == []
  {
    match o
    case FlungLeft => if hasOnSwipeLeft then [SwipedLeft] else []
    case FlungRight => if hasOnSwipeRight then [SwipedRight] else []
    case SprungBack => []
  }

  class Card {
    const width: Width
    const hasOnSwipeLeft: bool
    const hasOnSwipeRight: bool
    var translateX: real
    var log: seq<Callback>

    constructor (width: Width, hasOnSwipeLeft: bool, hasOnSwipeRight: bool)
      ensures this.width == width
      ensures this.hasOnSwipeLeft == hasOnSwipeLeft && this.hasOnSwipeRight == hasOnSwipeRight
      ensures translateX == 0.0 && log == []
    {
      this.width := width;
      this.hasOnSwipeLeft := hasOnSwipeLeft;
      this.hasOnSwipeRight := hasOnSwipeRight;
      translateX := 0.0;
      log := [];
    }

    /** panGesture.onActive: the offset follows the pointer, unguarded and
        unclamped. */
    method DragMove(t: real)
      modifies this
      ensures translateX == t && log == old(log)
    {
      translateX := t;
    }

    /** panGesture.onEnd: fling or spring back as Decide says, invoking the
        matching callback immediately. */
    method DragEnd()
      modifies this
      ensures translateX == Rest(Decide(old(translateX), width), width)
      ensures log == old(log) + Report(Decide(old(translateX), width), hasOnSwipeLeft, hasOnSwipeRight)
    {
      var shouldSwipeLeft := translateX < -Threshold(width);
      var shouldSwipeRight := translateX > Threshold(width);
      if shouldSwipeLeft {
        translateX := -(width as real);
        if hasOnSwipeLeft {
          log := log + [SwipedLeft];
        }
      } else if shouldSwipeRight {
        translateX := width as real;
        if hasOnSwipeRight {
          log := log + [SwipedRight];
        }
      } else {
        translateX := 0.0;
      }
    }
  }

  /** The two fling conditions never hold together, because the threshold is
      positive; so each release has exactly one outcome. */
  lemma OutcomesExclusive(x: real, width: Width)
    ensures !(x < -Threshold(width) && x > Threshold(width))
  {
  }

  /** An offset of exactly plus or minus the threshold springs back and
      reports nothing, the comparisons being strict. */
  lemma ThresholdSpringsBack(width: Width, x: real)
    requires x == Threshold(width) || x == -Threshold(width)
    ensures Decide(x, width) == SprungBack
    ensures Rest(Decide(x, width), width) == 0.0
    ensures Report(Decide(x, width), true, true) == []
  {
  }

  /** The two cards take the same release decision except at exactly the
      threshold, where the event card commits and this card springs back. */
  lemma AgreesWithEventCardOffThreshold(x: real, width: Width)
    ensures Abs(x) != Threshold(width) ==>
      (Decide(x, width) == SprungBack <==> EventCardSpec.ReleaseDecision(x, width) == EventCardSpec.None) &&
      (Decide(x, width) == FlungLeft <==> EventCardSpec.ReleaseDecision(x, width) == EventCardSpec.Some(Left)) &&
      (Decide(x, width) == FlungRight <==> EventCardSpec.ReleaseDecision(x, width) == EventCardSpec.Some(Right))
    ensures Abs(x) == Threshold(width) ==>
      Decide(x, width) == SprungBack && EventCardSpec.ReleaseDecision(x, width).Some?
  {
  }

  /** A host's view of one full gesture: the card ends at rest where the
      release decision says, and at most one callback has been invoked. */
  method DragAndRelease(width: Width, t: real) returns (log: seq<Callback>, offset: real)
    ensures |log| <= 1
    ensures offset == Rest(Decide(t, width), width)
    ensures log == Report(Decide(t, width), true, true)
  {
    var card := new Card(width, true, true);
    card.DragMove(t);
    card.DragEnd();
    log, offset := card.log, card.translateX;
  }
}
