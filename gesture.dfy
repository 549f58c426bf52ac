/** The swipe gesture machine of `SwipeCarousel` as values: the tracked start and
    end coordinates, the threshold default, and the three-way decision a completed
    drag makes. */
module Gesture {
  import opened Wrappers
  import opened Transitions

  const DEFAULT_SWIPE_THRESHOLD: int := 100

  datatype Decision = ToPrev | ToNext | Stay

  /** `swipeStartX` and `swipeEndX`. */
  datatype Tracker = Tracker(startX: Option<int>, endX: Option<int>)

  const Idle: Tracker := Tracker(None, None)

  /** `options.swipeThreshold || 100`: a missing or falsy option, and so also an
      explicit `0`, gives the default; any other value, negative ones included, is
      kept. */
  function SwipeThreshold(option: Option<int>): (t: int)
    ensures t != 0
    ensures option.Some? && option.value != 0 ==> t == option.value
    ensures option.None? || option == Some(0) ==> t == DEFAULT_SWIPE_THRESHOLD
  {
    if option.Some? && option.value != 0 then option.value else DEFAULT_SWIPE_THRESHOLD
  }

  /** A drag to the right by more than the threshold goes back, one to the left by
      more than the threshold goes forward, anything shorter is discarded. */
  function Decide(distance: int, threshold: int): (d: Decision)
    ensures d == ToPrev <==> distance > threshold
    ensures d == ToNext <==> distance <= threshold && distance < -threshold
    ensures threshold >= 0 ==> (d == Stay <==> -threshold <= distance <= threshold)
  {
    if distance > threshold then ToPrev
    else if distance < -threshold then ToNext
    else Stay
  }

  function Mirror(d: Decision): Decision
  {
    match d
    case ToPrev => ToNext
    case ToNext => ToPrev
    case Stay => Stay
  }

  /** The decision treats both directions alike exactly when the threshold is not
      negative. A negative threshold (kept, since it is truthy) sends even a drag
      of length 0, a plain click, back one slide. */
  lemma {:induction false} DecideSymmetricIff(threshold: int)
    ensures (forall distance :: Decide(-distance, threshold) == Mirror(Decide(distance, threshold))) <==> threshold >= 0
    ensures threshold < 0 ==> Decide(0, threshold) == ToPrev
  {
    if threshold < 0 {
      assert Decide(-0, threshold) == ToPrev && Mirror(Decide(0, threshold)) == ToNext;
    } else {
      forall distance
        ensures Decide(-distance, threshold) == Mirror(Decide(distance, threshold))
      {
      }
    }
  }

  /** `#swipeStartHandler`: both fields are reset, then the start coordinate is
      recorded when the event carries one. */
  function Begin(x: Option<int>): Tracker
  {
    Tracker(x, None)
  }

  datatype Swiped = Swiped(tracker: Tracker, transition: Transition)

  /** The end coordinate a `#swipeEndHandler` works with: the event's, else the
      recorded one. */
  function EndOf(g: Tracker, x: Option<int>): Option<int>
  {
    if x.Some? then x else g.endX
  }

  /** `#swipeEndHandler`. Nothing happens without a recorded start. Otherwise a
      drag longer than the threshold acts as `prev` or `next`, a shorter one (or
      one without an end coordinate) does nothing, and both fields are reset —
      unless `prev` or `next` throws, which skips the reset. */
  function Finish(g: Tracker, threshold: int, s: CarouselState, x: Option<int>): (r: Swiped)
    requires WellFormed(s)
    ensures g.startX.None? ==> r == Swiped(g, Transition(s, Completed))
    ensures g.startX.Some? && r.transition.outcome.Completed? ==> r.tracker == Idle
    ensures g.startX.Some? && r.transition.outcome.Threw? ==> r.tracker == Tracker(g.startX, EndOf(g, x))
    ensures g.startX.Some? && InRange(s.deck) ==> r.transition.outcome.Completed? && r.tracker == Idle
    ensures g.startX.Some? && EndOf(g, x).None? ==> r == Swiped(Idle, Transition(s, Completed))
    ensures g.startX.Some? && EndOf(g, x).Some? ==>
              var distance := EndOf(g, x).value - g.startX.value;
              && (distance > threshold ==> r.transition == Prev(s))
              && (distance <= threshold && distance < -threshold ==> r.transition == Next(s))
              && (-threshold <= distance <= threshold ==> r.transition == Transition(s, Completed))
  {
    if g.startX.None? then
      Swiped(g, Transition(s, Completed))
    else
      var endX := EndOf(g, x);
      var t :=
        if endX.None? then Transition(s, Completed)
        else match Decide(endX.value - g.startX.value, threshold)
          case ToPrev => Prev(s)
          case ToNext => Next(s)
          case Stay => Transition(s, Completed);
      if t.outcome.Threw? then Swiped(Tracker(g.startX, endX), t) else Swiped(Idle, t)
  }

  /** After a start, a cancel, or an end that did not throw, `swipeEndX` is null
      (an end whose `prev` or `next` throws keeps it). */
  lemma {:induction false} EndCoordinateNeverLingers(g: Tracker, threshold: int, s: CarouselState, x: Option<int>)
    requires WellFormed(s) && g.endX.None?
    ensures Begin(x).endX.None? && Idle.endX.None?
    ensures Finish(g, threshold, s, x).transition.outcome.Completed? ==> Finish(g, threshold, s, x).tracker.endX.None?
  {
  }

  /** With the default threshold, a drag from 0 to 50 is discarded and a drag from
      0 to 150 goes back exactly one slide and stops autoplay. */
  lemma {:induction false} DefaultThresholdScenarios(s: CarouselState)
    requires WellFormed(s) && InRange(s.deck)
    ensures Finish(Begin(Some(0)), SwipeThreshold(None), s, Some(50)) == Swiped(Idle, Transition(s, Completed))
    ensures Finish(Begin(Some(0)), SwipeThreshold(None), s, Some(150)) == Swiped(Idle, Prev(s))
    ensures Finish(Begin(Some(150)), SwipeThreshold(None), s, Some(0)) == Swiped(Idle, Next(s))
    ensures !Prev(s).after.player.isPlaying && Prev(s).outcome.Completed?
  {
  }
}
