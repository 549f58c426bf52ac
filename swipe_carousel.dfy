/** The `SwipeCarousel` class of `src/carousel/core.js`, as a carousel with swipe
    tracking attached: the swipe fields are updated in place and a completed drag
    calls the carousel's `prev` or `next`. */
module SwipeCore {
  import opened Wrappers
  import opened Transitions
  import opened Gesture
  import opened CarouselCore

  class SwipeCarousel {
    const carousel: Carousel
    var swipeStartX: Option<int>
    var swipeEndX: Option<int>
    const swipeThreshold: int

    ghost function TrackerState(): Tracker
      reads this
    {
      Tracker(swipeStartX, swipeEndX)
    }

    ghost predicate Valid()
      reads this, carousel
    {
      carousel.Valid()
    }

    /** The constructor followed by `init`; `thresholdOption` is the
        `swipeThreshold` option as given, `None` when absent (an option that is not
        an integer is not modelled). */
    constructor (pageSlides: seq<bool>, existingIndicators: Option<seq<Indicator>>, autoplay: bool,
                 thresholdOption: Option<int>)
      requires |pageSlides| >= 1
      ensures Valid() && fresh(carousel) && fresh(carousel.slides)
      ensures carousel.State() == Init(pageSlides, existingIndicators, autoplay)
      ensures TrackerState() == Idle
      ensures swipeThreshold == SwipeThreshold(thresholdOption)
    {
      carousel := new Carousel(pageSlides, existingIndicators, autoplay);
      swipeStartX := None;
      swipeEndX := None;
      swipeThreshold := SwipeThreshold(thresholdOption);
    }

    /** `#swipeStartHandler`, given the event's coordinate (`None` for a touch
        event without touch points). */
    method SwipeStartHandler(x: Option<int>)
      modifies this`swipeStartX, this`swipeEndX
      ensures TrackerState() == Begin(x)
    {
      swipeStartX := None;
      swipeEndX := None;
      if x.Some? {
        swipeStartX := x;
      }
    }

    /** The `touchcancel` and `mouseleave` listeners. */
    method SwipeCancel()
      modifies this`swipeStartX, this`swipeEndX
      ensures TrackerState() == Idle
    {
      swipeStartX := None;
      swipeEndX := None;
    }

    /** `#swipeEndHandler`, given the event's coordinate (`None` for a touch event
        without changed touches). */
    method SwipeEndHandler(x: Option<int>) returns (outcome: Outcome)
      requires Valid()
      modifies this`swipeStartX, this`swipeEndX, carousel, carousel.slides
      ensures Valid()
      ensures TrackerState() == Finish(old(TrackerState()), swipeThreshold, old(carousel.State()), x).tracker
      ensures carousel.State() == Finish(old(TrackerState()), swipeThreshold, old(carousel.State()), x).transition.after
      ensures outcome == Finish(old(TrackerState()), swipeThreshold, old(carousel.State()), x).transition.outcome
    {
      if swipeStartX.None? {
        return Completed;
      }
      if x.Some? {
        swipeEndX := x;
      }
      outcome := Completed;
      if swipeEndX.Some? && swipeStartX.Some? {
        var distance := swipeEndX.value - swipeStartX.value;
        if distance > swipeThreshold {
          outcome := carousel.Prev();
        } else if distance < -swipeThreshold {
          outcome := carousel.Next();
        }
        if outcome.Threw? {
          return;
        }
      }
      swipeStartX := None;
      swipeEndX := None;
    }
  }
}
