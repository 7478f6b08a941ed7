/** The event card component as an object. Its fields are the card's React
    state (`currentImageIndex`, `isTransitioning`, `isFlipped`), its animated
    shared value `translateX`, the pending off-screen commit whose completion
    callback is registered, the host's `isActive` prop, and the log of host
    callbacks invoked so far. Each method is one handler of the component and
    is proved to have exactly the effect the matching function of
    EventCardSpec describes. */
module EventCard {
  import opened Swipe
  import S = EventCardSpec

  class Controller {
    const cfg: S.Config
    var active: bool
    var imageIndex: nat
    var transitioning: bool
    var flipped: bool
    var translateX: real
    var pending: S.Option<Direction>
    var log: seq<S.Callback>

    /** The card's state as a value. */
    function State(): S.Card
      reads this
    {
      S.Card(active, imageIndex, transitioning, flipped, translateX, pending, log)
    }

    ghost predicate Valid()
      reads this
    {
      S.Inv(cfg, State())
    }

    /** Mounting a card: first image, front face, offset 0, nothing pending. */
    constructor (cfg: S.Config, isActive: bool)
      ensures this.cfg == cfg
      ensures State() == S.Initial(cfg, isActive) && Valid()
    {
      this.cfg := cfg;
      active := isActive;
      imageIndex := 0;
      transitioning := false;
      flipped := false;
      translateX := 0.0;
      pending := S.None;
      log := [];
    }

    /** The host re-renders the card with a new `isActive` prop; the state
        kept by React survives the re-render. */
    method SetActive(isActive: bool)
      requires Valid()
      modifies this
      ensures Valid() && State() == S.Step(cfg, old(State()), S.Activate(isActive))
    {
      active := isActive;
    }

    /** handleImageTap. */
    method ImageTap()
      requires Valid()
      modifies this
      ensures Valid() && State() == S.ImageTap(cfg, old(State()))
    {
      if !active || transitioning {
        return;
      }
      imageIndex := if imageIndex < cfg.imageCount - 1 then imageIndex + 1 else 0;
      transitioning := true;
    }

    /** The 100 ms timer started by handleImageTap. */
    method TimerFires()
      requires Valid()
      modifies this
      ensures Valid() && State() == S.TimerFires(old(State()))
    {
      transitioning := false;
    }

    /** handleSwipeAnimation: start the off-screen spring in direction `d`. */
    method SwipeAnimation(d: Direction)
      requires Valid()
      modifies this
      ensures Valid() && State() == S.SwipeAnimation(cfg, old(State()), d)
    {
      if !active || flipped {
        return;
      }
      translateX := if d == Left then -(cfg.width as real) else cfg.width as real;
      pending := S.Some(d);
    }

    /** The completion callback of the running spring, with the library's
        `finished` flag. Only an off-screen commit registered one. */
    method AnimationSettled(finished: bool)
      requires Valid()
      modifies this
      ensures Valid() && State() == S.AnimationSettled(cfg, old(State()), finished)
    {
      match pending
      case None =>
      case Some(d) =>
        pending := S.None;
        if finished {
          if d == Left && cfg.handlers.onSwipeLeft {
            log := log + [S.SwipedLeft];
          } else if d == Right && cfg.handlers.onSwipeRight {
            log := log + [S.SwipedRight];
          }
        }
    }

    /** panGesture.onActive with the pointer's translation `t`. */
    method DragMove(t: real)
      requires Valid()
      modifies this
      ensures Valid() && State() == S.DragMove(old(State()), t)
    {
      if !active || flipped {
        return;
      }
      translateX := t;
      pending := S.None;
    }

    /** panGesture.onEnd with the gesture's final translation `t`. */
    method DragEnd(t: real)
      requires Valid()
      modifies this
      ensures Valid() && State() == S.DragEnd(cfg, old(State()), t)
    {
      if !active || flipped {
        return;
      }
      if Abs(t) < Threshold(cfg.width) {
        translateX := 0.0;
        pending := S.None;
        return;
      }
      var direction := if t > 0.0 then Right else Left;
      SwipeAnimation(direction);
    }

    /** The X button's onPress. */
    method PressX()
      requires Valid()
      modifies this
      ensures Valid() && State() == S.XPress(cfg, old(State()))
    {
      if cfg.handlers.onXPress {
        log := log + [S.XPressed];
      }
      SwipeAnimation(Left);
    }

    /** The heart button's onPress. */
    method PressHeart()
      requires Valid()
      modifies this
      ensures Valid() && State() == S.HeartPress(cfg, old(State()))
    {
      if cfg.handlers.onHeartPress {
        log := log + [S.HeartPressed];
      }
      SwipeAnimation(Right);
    }

    /** The add button's onPress. */
    method PressAdd()
      requires Valid()
      modifies this
      ensures Valid() && State() == S.AddPress(cfg, old(State()))
    {
      if active && !flipped && cfg.handlers.onAdd {
        log := log + [S.AddPressed];
      }
    }

    /** The help button's onPress. */
    method PressFlip()
      requires Valid()
      modifies this
      ensures Valid() && State() == S.Flip(old(State()))
    {
      flipped := true;
    }

    /** The back arrow's onPress. */
    method PressBack()
      requires Valid()
      modifies this
      ensures Valid() && State() == S.Back(old(State()))
    {
      flipped := false;
    }
  }

  /** A host's view of one swipe: on an active card showing its front, a drag
      released at or past the threshold to the right, followed by the spring
      completing, invokes onSwipeRight exactly once and nothing else. */
  method DragRightAndSettle(width: Width, imageCount: nat, t: real) returns (log: seq<S.Callback>)
    requires t >= Threshold(width)
    ensures log == [S.SwipedRight]
  {
    var card := new Controller(S.Config(width, imageCount, S.Handlers(true, true, true, true, true)), true);
    card.DragMove(t);
    card.DragEnd(t);
    card.AnimationSettled(true);
    log := card.log;
  }

  /** The same drag released short of the threshold springs back and invokes
      no callback, even after the spring stops. */
  method DragShortAndSettle(width: Width, imageCount: nat, t: real) returns (log: seq<S.Callback>, offset: real)
    requires Abs(t) < Threshold(width)
    ensures log == [] && offset == 0.0
  {
    var card := new Controller(S.Config(width, imageCount, S.Handlers(true, true, true, true, true)), true);
    card.DragMove(t);
    card.DragEnd(t);
    card.AnimationSettled(true);
    log, offset := card.log, card.translateX;
  }
}
