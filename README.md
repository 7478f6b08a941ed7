# Swipeable event cards, modelled in Dafny

This project models the interactive core of a mobile community/events app: the
two swipeable card components.

- The **event card** (`components/EventCard.tsx`) shows one event. Tapping the
  image steps through the event's pictures, with a 100 ms debounce. Dragging
  the card horizontally moves it with the finger. Releasing it near the centre
  springs it back. Releasing it at or beyond 30% of the window width flings it
  off screen, and once that animation completes the card reports a left or
  right swipe to its host. The X and heart buttons report themselves and then
  fling the card. The help button turns the card to its detail side, and the
  back arrow turns it to the front again. The add button reports itself only on
  an active card showing its front.
- The **generic swipeable card** (`components/SwipeableCard.tsx`) wraps any
  content. On release it flings the content left or right when it is strictly
  beyond the threshold, or springs it back. It reports the swipe at once.

## Structure

- `swipe.dfy`, module `Swipe`: the window width (a positive real), the
  swipe threshold derived from it, and the two off-screen positions.
- `event_card_spec.dfy`, module `EventCardSpec`: the event card's state as a
  value (`Card`), one function per handler, an input-sequence semantics
  (`Step`, `Run`), and lemmas about whole interactions.
- `event_card.dfy`, module `EventCard`: class `Controller`. Its fields are the
  component's state: `currentImageIndex`, `isTransitioning`, `isFlipped`, the
  animated value `translateX`, the pending commit, the `isActive` prop, and a
  log of invoked host callbacks. Each method is one handler. It updates the
  fields in place and is proved to do exactly what the matching `EventCardSpec`
  function says.
- `swipeable_card.dfy`, module `SwipeableCard`: class `Card` with the offset
  and the callback log, the release decision `Decide`, and lemmas.

How the runtime is represented:

- Host callbacks are entries appended to a `log`. A callback the host did not
  supply is skipped, as `if (onX)` and `?.()` do in the source.
- Screen width is a parameter of type `Width` (a positive real). Reals are
  exact, so the threshold is exactly `3/10` of the width.
- A spring animation is represented by its target, which is stored in
  `translateX`. An off-screen commit also records its direction in `pending`.
- The animation library's completion callback is the explicit event
  `AnimationSettled(finished)`.
- Each new write to `translateX` supersedes the commit that was running. The
  library then reports `finished = false` to the commit's callback, so nothing
  is emitted. This applies to a drag move, a spring back and a new commit.
- The debounce `setTimeout` is the explicit event `TimerFires`. Only a tap
  that passes the guard raises `isTransitioning`, and it schedules exactly one
  timer when it does. So a timer is pending exactly while the flag is up.
- Only some buttons exist on each face. X, heart, help and add are drawn only
  on the front. The back arrow is drawn only on the detail side. The handlers
  themselves are modelled as written, with no check of the face. `Step` models
  which buttons can be tapped: a tap on a button that is not drawn changes
  nothing. The image-tap area encloses both faces, so image taps work on the
  detail side too.

Behaviour of the code worth knowing:

- With a single image, a tap is not a complete no-op. The index stays 0, but
  the debounce flag is still raised.
- Affirm while flipped does nothing only because the heart button is not drawn
  on the detail side. The heart handler itself always invokes `onHeartPress`,
  whatever the guards say. This is shown by `EventCardSpec.HeartPress` and
  `EventCardSpec.FlippedIgnoresSwipes`.
- The image tap's guard looks at `isActive` and the debounce flag only. It
  does not look at whether a drag is in progress or at the flipped face.
- After a completed swipe, the card is not made inert. It keeps reacting to
  input until the host replaces it.

## Model

| member | source | states |
|---|---|---|
| Swipe.Threshold | components/EventCard.tsx:16-17 | The threshold is exactly 3/10 of the window width, so it is positive and below the width. |
| Swipe.OffScreen | components/EventCard.tsx:75 | A committed swipe ends one full window width away, on the side of its direction. |
| EventCardSpec.Initial | components/EventCard.tsx:54-57 | A new card has the given isActive and shows image 0 on its front, at offset 0, with no debounce, no pending commit and no callbacks; it satisfies the card invariant. |
| EventCardSpec.NextImageIndex | components/EventCard.tsx:62 | The next index is (idx + 1) mod count for a valid index; it is always below count when count > 0, and always 0 for fewer than two images. |
| EventCardSpec.ImageTap | components/EventCard.tsx:59-65 | The tap does nothing while the card is inactive or debouncing. Otherwise it moves to the next index and raises the debounce flag. Nothing else changes. |
| EventCardSpec.TimerFires | components/EventCard.tsx:66-68 | The timer only lowers the debounce flag. |
| EventCardSpec.SwipeAnimation | components/EventCard.tsx:71-77 | The commit does nothing while the card is inactive or flipped. Otherwise the offset target becomes -width or +width and the commit's direction is registered. Index, faces and log are untouched. |
| EventCardSpec.AnimationSettled | components/EventCard.tsx:79-87 | At most one callback fires. One fires exactly when a commit completes with finished = true and the host supplied that direction's callback, and it is the callback for the committed direction. The commit is consumed either way. |
| EventCardSpec.DragMove | components/EventCard.tsx:95-98 | The move does nothing while the card is inactive or flipped. Otherwise the offset becomes exactly the translation, with no clamping. Nothing else but the superseded commit changes. |
| EventCardSpec.ReleaseDecision | components/EventCard.tsx:102-107 | The card springs back exactly when -T < t < T. It commits right exactly when t >= T and left exactly when t <= -T. |
| EventCardSpec.DragEnd | components/EventCard.tsx:99-109 | The release does nothing while the card is inactive or flipped. Below the threshold the target becomes 0 and nothing is pending. Otherwise it starts the commit for the decided direction. No callback ever fires at drag end. |
| EventCardSpec.XPress | components/EventCard.tsx:201-206 | onXPress is always invoked first when supplied, whatever the guards. Then a left commit starts, to -width, exactly when the card is active and shows its front; otherwise offset and pending commit are untouched. Nothing else changes. |
| EventCardSpec.HeartPress | components/EventCard.tsx:212-217 | onHeartPress is always invoked first when supplied, whatever the guards. Then a right commit starts, to +width, exactly when the card is active and shows its front; otherwise offset and pending commit are untouched. Nothing else changes. |
| EventCardSpec.AddPress | components/EventCard.tsx:173-179 | onAdd is invoked exactly when the card is active, shows its front and the host supplied onAdd. Nothing else changes. |
| EventCardSpec.Flip | components/EventCard.tsx:225 | Flip shows the detail side and changes nothing else. |
| EventCardSpec.Back | components/EventCard.tsx:252 | Back shows the front and changes nothing else. |
| EventCardSpec.OnScreen | components/EventCard.tsx:154-233 | The back arrow is tappable exactly on the detail side. Every other button is tappable exactly on the front. |
| EventCardSpec.Step | components/EventCard.tsx:59-233 | Every input preserves the card invariant. Each input invokes at most one callback, and callbacks are only appended. |
| EventCardSpec.Run | components/EventCard.tsx:59-233 | Any input sequence preserves the invariant: the index stays in range and a running commit heads to its own side. The log only grows. |
| EventCardSpec.AdvanceIsModulo | components/EventCard.tsx:62 | Advancing k times from a valid index gives (i + k) mod count. |
| EventCardSpec.TapTicksAdvance | components/EventCard.tsx:59-68 | Each round of a tap followed by its timer, on an active card, advances the index once. Nothing else changes. |
| EventCardSpec.ImagesCycle | components/EventCard.tsx:59-68 | k debounced taps from image i show image (i + k) mod count. So the carousel runs 0, 1, ..., count-1 and back to 0. |
| EventCardSpec.NoTickAdvancesAtMostOnce | components/EventCard.tsx:59-69 | Suppose any inputs arrive without the timer firing. Then the index moves at most one step, only if the debounce flag was down at the start, and the flag stays up afterwards. |
| EventCardSpec.StepSwipes | components/EventCard.tsx:79-86 | Only a completed animation adds a swipe callback, and it adds at most one. |
| EventCardSpec.SwipesAtMostCompletedSettles | components/EventCard.tsx:79-86 | Over any input sequence, the swipe callbacks invoked are no more than the completed animations. |
| EventCardSpec.MovesOnlyMoveOffset | components/EventCard.tsx:95-98 | Any sequence of pointer moves changes only the offset and the pending commit. |
| EventCardSpec.ReleaseBelowThreshold | components/EventCard.tsx:95-105 | Any drag released with abs(t) < T ends with offset target 0, nothing pending and no callback. |
| EventCardSpec.ReleasePastThreshold | components/EventCard.tsx:79-108 | Any drag released with abs(t) >= T, once its animation completes, has invoked exactly the callback for sign(t), or none if the host did not supply it. The card rests off screen on that side. |
| EventCardSpec.FlippedIgnoresSwipes | components/EventCard.tsx:96-100 | On the detail side, taps on the X and heart positions, drag moves and releases all leave the card unchanged. |
| EventCard.Controller.constructor | components/EventCard.tsx:54-57 | A mounted card's fields hold the initial state. |
| EventCard.Controller.SetActive | components/EventCard.tsx:39 | A re-render changes only isActive. |
| EventCard.Controller.ImageTap | components/EventCard.tsx:59-65 | The new state is EventCardSpec.ImageTap of the old one. |
| EventCard.Controller.TimerFires | components/EventCard.tsx:66-68 | The new state is EventCardSpec.TimerFires of the old one. |
| EventCard.Controller.SwipeAnimation | components/EventCard.tsx:71-77 | The new state is EventCardSpec.SwipeAnimation of the old one. |
| EventCard.Controller.AnimationSettled | components/EventCard.tsx:79-87 | The new state is EventCardSpec.AnimationSettled of the old one. |
| EventCard.Controller.DragMove | components/EventCard.tsx:95-98 | The new state is EventCardSpec.DragMove of the old one. |
| EventCard.Controller.DragEnd | components/EventCard.tsx:99-109 | The new state is EventCardSpec.DragEnd of the old one. |
| EventCard.Controller.PressX | components/EventCard.tsx:201-206 | The new state is EventCardSpec.XPress of the old one. |
| EventCard.Controller.PressHeart | components/EventCard.tsx:212-217 | The new state is EventCardSpec.HeartPress of the old one. |
| EventCard.Controller.PressAdd | components/EventCard.tsx:173-179 | The new state is EventCardSpec.AddPress of the old one. |
| EventCard.Controller.PressFlip | components/EventCard.tsx:225 | The new state is EventCardSpec.Flip of the old one. |
| EventCard.Controller.PressBack | components/EventCard.tsx:252 | The new state is EventCardSpec.Back of the old one. |
| EventCard.DragRightAndSettle | components/EventCard.tsx:71-108 | A host that drags an active card to t >= T, releases it and lets the spring complete sees exactly one onSwipeRight. |
| EventCard.DragShortAndSettle | components/EventCard.tsx:99-105 | A host that releases a drag with abs(t) < T sees no callback, even after the spring stops, and the card is back at offset 0. |
| SwipeableCard.Decide | components/SwipeableCard.tsx:28-29 | A left fling happens exactly when x < -T, a right fling exactly when x > T, and a spring back exactly when -T <= x <= T. |
| SwipeableCard.Rest | components/SwipeableCard.tsx:31-39 | The spring target is -width for a left fling, +width for a right fling and 0 for a spring back. |
| SwipeableCard.Report | components/SwipeableCard.tsx:32-36 | A release invokes at most one callback: the one for its fling, when supplied. A spring back invokes none. |
| SwipeableCard.Card.constructor | components/SwipeableCard.tsx:21 | A new card has offset 0 and no callbacks. |
| SwipeableCard.Card.DragMove | components/SwipeableCard.tsx:24-26 | The offset becomes the translation, with no guard and no clamping, and no callback fires. |
| SwipeableCard.Card.DragEnd | components/SwipeableCard.tsx:27-40 | The offset target becomes Rest(Decide(x)) of the current offset x. The matching callback is appended at once, without waiting for the animation. |
| SwipeableCard.OutcomesExclusive | components/SwipeableCard.tsx:11-12 | The threshold is positive, so the left and right conditions never hold together. Every release has exactly one outcome. |
| SwipeableCard.ThresholdSpringsBack | components/SwipeableCard.tsx:28-29 | An offset of exactly +T or -T springs back with no callback, because the comparisons are strict. |
| SwipeableCard.AgreesWithEventCardOffThreshold | components/SwipeableCard.tsx:28-29 | The generic and event cards decide the same way except at abs(x) = T. There the event card commits and the generic card springs back. |
| SwipeableCard.DragAndRelease | components/SwipeableCard.tsx:23-40 | A full gesture to translation t ends at Rest(Decide(t)) and has invoked at most one callback: the one Decide(t) calls for. |

## Left out

- Rendering is not modelled: layout, gradients, image-source selection, the
  image indicators and the heart icon's dependence on `isGoing`. These are
  presentation. The card reads `isGoing` but never changes it.
- Swipe.Threshold: the threshold is exactly 3/10 of the width, while the
  source computes `SCREEN_WIDTH * 0.3` in IEEE doubles, which can be one unit
  in the last place away from 3/10 of the width. So the exact boundary
  offsets in `ThresholdSpringsBack` and `AgreesWithEventCardOffThreshold` are
  the model's threshold, not necessarily the program's.
- Spring physics is not modelled: damping, stiffness and the real trajectory
  of the offset. `translateX` holds the spring's target. Where the card is in
  the middle of an animation is not modelled.
- When the offset is written during a running commit, the model assumes the
  animation library interrupts that commit and reports `finished = false` to
  its callback. The library code is not part of this model.
- The screen width from `Dimensions.get` is a parameter, so there is no call
  to read it.
- Thread marshalling with `runOnJS` is not modelled. The commit started by a
  drag release runs as part of that release.
- The real-time `setTimeout` is replaced by the explicit `TimerFires` event.
- The `try/catch` that logs animation errors is not modelled, and neither are
  the `console.log` calls. Every write in the model succeeds.
- React's batching of state updates is not modelled, and neither are handler
  closures that were captured before a re-render. Each event sees the state
  left by the previous one. With stale closures, two taps inside one render
  would both set the same next index. That is still at most one advance.
- Re-rendering a mounted card with a different event (a different number of
  images) or different callbacks is not modelled. Per card instance these are
  fixed, and only `isActive` can change.
- The `onBookmark` and `onUploadImage` props are never invoked by the
  component. The bookmark icon on the detail side, and the location and invite
  buttons, have no behaviour.
- The other screens are not modelled: dashboard, groups, devotionals, chat and
  the tab layout. They are static mock data mapped to views. The theme
  colours, icons and build configuration are not modelled either.
