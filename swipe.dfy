/** Geometry shared by both swipeable cards: the window width, the swipe
    threshold derived from it, and the off-screen positions a swipe ends at. */
module Swipe {

  /** The window width read once at start-up; a real window is never empty. */
  type Width = w: real | w > 0.0 witness 1.0

  /** The two ways a card can leave the screen. */
  datatype Direction = Left | Right

  /** SWIPE_THRESHOLD: 30% of the window width. */
  function Threshold(width: Width): (t: real)
    ensures 0.0 < t < width
    ensures 10.0 * t == 3.0 * width
  {
    width * 0.3
  }

  /** Math.abs on the card's horizontal offset. */
  function Abs(x: real): (r: real)
    ensures r >= 0.0
    ensures r == x || r == -x
  {
    if x < 0.0 then -x else x
  }

  /** The horizontal offset at which a card swiped in direction `d` rests:
      one full window width to the left or to the right. */
  function OffScreen(d: Direction, width: Width): (x: real)
    ensures (d == Right) <==> x > 0.0
    ensures Abs(x) == width
  {
    var w: real := width;
    match d
    case Left => -w
    case Right => w
  }
}
