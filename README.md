# Carousel interaction state machine, modelled in Dafny

This project models the interaction state of the carousel widget in
`src/carousel/core.js`. The widget shows one slide at a time and cycles through a
fixed list of slides. The model covers:

- the current slide index (`#currentSlide`) and the cyclic jump `#gotoNth`, which
  moves the `active` class between slides and indicators;
- autoplay (`isPlaying`, the interval handle `timerId`, the pause/play icons) and
  `pause`, `play`, `pausePlay`, plus the interval tick;
- the discrete inputs: `next`, `prev`, `#indicatorClick` and `#keydownHandler`;
- the swipe gesture tracker of `SwipeCarousel`: `swipeStartX`, `swipeEndX` and the
  threshold.

Layout:

- `wrappers.dfy`: `Option`, standing for JavaScript's `null`.
- `slide_index.dfy`: JavaScript's truncating `%` and the wrap `(n + N) % N`.
- `autoplay.dfy`: the autoplay part of the state as a value, and its transitions.
- `transitions.dfy`: the whole carousel state as a value (`CarouselState`). Every
  operation is a function from the state before to the state after, together with
  an `Outcome` saying whether the JavaScript code throws. The lemmas about these
  functions are here too.
- `carousel.dfy`: class `Carousel`. Its fields are updated in place. Every public method
  is proved to perform the transition of the matching function
  (`State() == Next(old(State())).after`) and to keep the invariant `Valid()`. The
  helpers that `init` and the public methods call are proved against the same
  functions or against explicit field updates (`SetInterval`, `ClearInterval`),
  without the invariant.
- `gesture.dfy` and `swipe_carousel.dfy`: the swipe machine as values, and class
  `SwipeCarousel`. That class holds a `Carousel` instead of extending one.

Things the model makes explicit:

- The host's timers are part of the state. `nextHandle` is the handle the next
  `setInterval` returns, and `liveTimers` holds the intervals still running. The
  invariant `Sound` says three things:
  - a handle is held exactly while `isPlaying`;
  - the host then runs exactly that one interval, and none otherwise;
  - the pause icon shows exactly while playing.
- Exceptions are values, not preconditions. `#gotoNth` throws a `TypeError` when its
  argument is `NaN` (`Threw(NotANumber)`). It also throws when the slide it indexes
  is `undefined` (`Threw(UndefinedSlide)`). A throw inside `prev` or `next` also
  skips the reset at the end of `#swipeEndHandler`.
- The wrap is JavaScript's remainder, not a true modulo. The code computes
  `(n + N) % N` with a remainder that truncates toward zero. So a request below `-N`
  that is not a multiple of `N` gives a negative index. `#gotoNth` stores that index
  and then throws. From then on every `#gotoNth` throws at its first line, so
  navigation is stuck (`EscapedIndexIsStuck`). A true modulo would always stay in
  range. The model follows the code.
- `#gotoNth` removes `active` from the old slide and indicator before it checks its
  argument. A `NaN` request therefore leaves no slide marked (`NaNClickLeavesNoMarker`).
  The update is not atomic.
- There are no configuration errors. The code never checks its options, so the only
  restriction is that there is at least one slide. The swipe threshold is
  `options.swipeThreshold || 100`, so `0` becomes `100` while a negative threshold is
  kept.
- Both touch and mouse drags use the same sign: a drag to the right (positive
  distance) goes to the previous slide.

## Model

| member | source | states |
|---|---|---|
| SlideIndex.JsRem | src/carousel/core.js:119 | JavaScript's `%`: the result is below the divisor in absolute value, has the sign of the dividend, and is congruent to it |
| SlideIndex.Wrap | src/carousel/core.js:119 | `(n + N) % N` lies in `(-N, N)`; it is in `[0, N)` for every `n >= -N`, and whenever it is not negative it equals the true modulo `n mod N` |
| SlideIndex.WrapInRangeIff | src/carousel/core.js:119 | the wrap is a valid index exactly when `n >= -N` or `n` is a multiple of `N` |
| SlideIndex.WrapCyclesAtTheEnds | src/carousel/core.js:119 | `-1` maps to `N - 1` and `N` maps to `0` |
| SlideIndex.WrapKeepsIndex | src/carousel/core.js:119 | an index in `[0, N)` maps to itself |
| SlideIndex.WrapEscapesBelowRange | src/carousel/core.js:119 | for `N >= 2`, `-N - 1` maps to `-1`, while the true modulo would give `N - 1` |
| Autoplay.Stop | src/carousel/core.js:78-85 | after `pause` nothing plays, no handle is held, the held interval no longer runs, and the icons show "paused"; the invariant is kept and then no interval runs |
| Autoplay.Start | src/carousel/core.js:87-95 | `play` changes nothing while playing; otherwise it installs exactly one fresh interval and plays; the invariant is kept |
| Autoplay.Toggle | src/carousel/core.js:97-103 | `pausePlay` flips `isPlaying`: it is `pause` while playing and `play` otherwise; the invariant is kept |
| Autoplay.InstallTimer | src/carousel/core.js:52-54 | the handle kept in `timerId` names a running interval; from a consistent player it is fresh, and it is the only interval added |
| Autoplay.Controls | src/carousel/core.js:152-182 | the player `#createControls` leaves is consistent exactly when autoplay is off; with autoplay on, `init` still has to start the interval |
| Autoplay.Initial | src/carousel/core.js:51-55 | after `init` the invariant holds and an interval runs exactly when `isPlaying` was requested |
| Autoplay.StartIdempotent | src/carousel/core.js:87-95 | `play` twice is `play` once, so repeated calls never add a second interval |
| Autoplay.AtMostOneInterval | src/carousel/core.js:87-95 | under the invariant at most one interval runs, and exactly one while playing |
| Autoplay.ToggleTwice | src/carousel/core.js:97-103 | `pausePlay` twice restores `isPlaying` and keeps the invariant |
| Transitions.Goto | src/carousel/core.js:106-126 | `#gotoNth`: it throws without change from an out-of-range index, and throws on `NaN` with the index kept and the old slide unmarked. It completes exactly when the wrap is a valid index; the new index is then the wrap of `n` (which equals `n mod N`), and its slide and indicator are marked. Only the old and new slide or indicator change, and autoplay is untouched |
| Transitions.Tick | src/carousel/core.js:52-54 | the interval tick leaves autoplay alone and, from a valid index, moves to `(current + 1) mod N` |
| Transitions.Next | src/carousel/core.js:58-66 | `next` stops autoplay, and from a valid index completes at `(current + 1) mod N` |
| Transitions.Prev | src/carousel/core.js:68-76 | `prev` stops autoplay, and from a valid index completes at `(current - 1) mod N` |
| Transitions.Pause | src/carousel/core.js:78-85 | `pause` leaves the slides alone, ends playing, drops the handle and keeps the invariant |
| Transitions.Play | src/carousel/core.js:87-95 | `play` leaves the slides alone, plays afterwards, changes nothing while playing, and keeps the invariant |
| Transitions.PausePlay | src/carousel/core.js:97-103 | `pausePlay` leaves the slides alone, flips `isPlaying` and keeps the invariant |
| Transitions.ClickIndicator | src/carousel/core.js:128-139 | a null target or one without the `indicator` class is ignored. An indicator stops autoplay and then behaves exactly as `#gotoNth` of its `data-slide-to` from the stopped state, whatever the target; a target in `[0, N)` is shown |
| Transitions.KeyDown | src/carousel/core.js:249-260 | the key (or the code when the key is empty) decides. `ArrowLeft`/`ArrowRight` are `prev`/`next`: they stop autoplay and, from a valid index, move cyclically by -1/+1. `" "` and `Space` are `pausePlay`: they leave the slides alone and flip `isPlaying`. Any other key leaves the state as it was |
| Transitions.CreatedIndicators | src/carousel/core.js:196-202 | the loop creates `N` inactive indicators, and the `k`-th targets slide `k` |
| Transitions.Init | src/carousel/core.js:42-56 | after `init` the invariant holds, `isPlaying` is as requested, and slide 0 is current and marked. Created indicators are `k -> slide k`, with only the first marked; the other slides and existing indicators keep the page's flags, and an existing first indicator becomes active with its target kept |
| Transitions.Dispatch | src/carousel/core.js:229-247 | the listener table: a stale interval does nothing; the pause button leaves the slides alone and flips `isPlaying`; hovering changes no slide, does nothing without `pauseOnHover`, and with it entering stops autoplay and leaving resumes it |
| Transitions.DispatchKeepsSound | src/carousel/core.js:229-247 | every event of every listener keeps the autoplay invariant |
| Transitions.DispatchKeepsMarker | src/carousel/core.js:229-247 | from a valid index with one marked slide, every event except a `NaN` or wrapping-below-zero indicator target completes. The index stays valid and exactly the new slide and its indicator are marked |
| Transitions.GotoKeepsMarker | src/carousel/core.js:106-126 | a completed `#gotoNth` moves the single marker to the new slide and indicator |
| Transitions.NaNClickLeavesNoMarker | src/carousel/core.js:108-116 | clicking an indicator whose target is `NaN` stops autoplay and throws. The index is kept, and no slide or indicator is left marked |
| Transitions.EscapedIndexIsStuck | src/carousel/core.js:106-122 | a request that wraps below zero throws and leaves a negative index, after which every `#gotoNth` throws without changing anything |
| Transitions.ForeignIndicatorClicks | src/carousel/core.js:114-122 | an indicator naming `N` shows slide 0, one naming `-1` shows slide `N-1`, and (for `N >= 2`) one naming `-N-1` throws and leaves the index at `-1` |
| Transitions.CreatedIndicatorClickShowsItsSlide | src/carousel/core.js:128-139 | after `init` with created indicators, clicking the `k`-th indicator shows slide `k` and stops autoplay |
| Transitions.InitMarksFirstOnly | src/carousel/core.js:42-48 | if the page marks no slide or indicator other than the first, exactly slide 0 and its indicator are marked after `init` |
| Transitions.NavigationWrapsAround | src/carousel/core.js:58-76 | `next` from the last slide shows the first, and `prev` from the first shows the last |
| Transitions.HoverResumesAManualPause | src/carousel/core.js:243-246 | with `pauseOnHover`, leaving the container resumes autoplay even after the pause button paused it |
| CarouselCore.Carousel.constructor | src/carousel/core.js:26-56 | the constructor plus `init` reach `Init` of the page's slides and indicators, and establish the invariant |
| CarouselCore.Carousel.Init | src/carousel/core.js:42-56 | from the state the constructor leaves, the fields reach `Init` of the page's slides and indicators, and the invariant holds |
| CarouselCore.Carousel.CreateControlsAndIndicators | src/carousel/core.js:43-44 | after controls and indicators exist, slide 0 is still current, no interval runs, and the icons follow `isPlaying` |
| CarouselCore.Carousel.StartAutoplay | src/carousel/core.js:51-55 | when `isPlaying` is set, a fresh interval handle is stored in `timerId` and that interval runs; otherwise nothing changes |
| CarouselCore.Carousel.SetInterval | src/carousel/core.js:89 | the host hands out a fresh handle and the interval runs |
| CarouselCore.Carousel.ClearInterval | src/carousel/core.js:80 | the host stops the interval |
| CarouselCore.Carousel.UpdatePauseButton | src/carousel/core.js:212-227 | the icons are set to follow `isPlaying`, and nothing else changes |
| CarouselCore.Carousel.CreateControls | src/carousel/core.js:152-182 | the pause icon starts visible and the play icon hidden, then the icons follow `isPlaying` |
| CarouselCore.Carousel.CreateIndicators | src/carousel/core.js:185-210 | the loop appends one indicator per slide targeting `0 .. N-1` in order; an existing container's indicators are adopted instead |
| CarouselCore.Carousel.GotoNth | src/carousel/core.js:106-126 | performs `Goto` in place on the slide flags, indicators and index |
| CarouselCore.Carousel.Pause | src/carousel/core.js:78-85 | performs `Pause` and keeps the invariant |
| CarouselCore.Carousel.Play | src/carousel/core.js:87-95 | performs `Play` and keeps the invariant |
| CarouselCore.Carousel.PausePlay | src/carousel/core.js:97-103 | performs `PausePlay` and keeps the invariant |
| CarouselCore.Carousel.Tick | src/carousel/core.js:52-54 | a running interval's callback performs `Tick` and keeps the invariant |
| CarouselCore.Carousel.Next | src/carousel/core.js:58-66 | performs `Next` and keeps the invariant |
| CarouselCore.Carousel.Prev | src/carousel/core.js:68-76 | performs `Prev` and keeps the invariant |
| CarouselCore.Carousel.IndicatorClick | src/carousel/core.js:128-139 | performs `ClickIndicator` and keeps the invariant |
| CarouselCore.Carousel.KeydownHandler | src/carousel/core.js:249-260 | performs `KeyDown` and keeps the invariant |
| Gesture.SwipeThreshold | src/carousel/core.js:269 | the threshold is never 0: a missing or zero option gives 100, and any other value is kept |
| Gesture.Decide | src/carousel/core.js:324-332 | a distance above the threshold goes back, whatever the threshold's sign, since that test comes first; otherwise a distance below minus the threshold goes forward. For a threshold that is not negative, a distance within it does nothing |
| Gesture.DecideSymmetricIff | src/carousel/core.js:324-332 | left and right drags are treated as mirror images exactly when the threshold is not negative; with a negative threshold a click without movement goes back |
| Gesture.Finish | src/carousel/core.js:313-336 | without a start nothing happens. Otherwise: a missing end coordinate does nothing; above the threshold is `prev`; below minus the threshold is `next`; within it nothing. Both fields are reset whenever nothing threw, which always holds from a valid index; when `prev` or `next` throws, the tracker keeps its start and end coordinates |
| Gesture.EndCoordinateNeverLingers | src/carousel/core.js:297-336 | start, cancel and a completed end all leave `swipeEndX` null |
| Gesture.DefaultThresholdScenarios | src/carousel/core.js:313-336 | with the default threshold, a drag from 0 to 50 changes nothing and resets. A drag from 0 to 150 is exactly one `prev`, and the reverse drag one `next`; both stop autoplay |
| SwipeCore.SwipeCarousel.constructor | src/carousel/core.js:265-275 | the carousel is initialised, both swipe fields are null, and the threshold falls back to 100 when the option is falsy |
| SwipeCore.SwipeCarousel.SwipeStartHandler | src/carousel/core.js:297-311 | both fields are reset, then `swipeStartX` records the event's coordinate, or stays null when there is none |
| SwipeCore.SwipeCarousel.SwipeCancel | src/carousel/core.js:282-294 | `touchcancel` and `mouseleave` reset both fields to null |
| SwipeCore.SwipeCarousel.SwipeEndHandler | src/carousel/core.js:313-336 | performs `Finish` on the tracker and the carousel and keeps the carousel's invariant |

## Left out

- Gesture.SwipeThreshold, SwipeCore.SwipeCarousel.constructor and SlideIndex.Wrap:
  the threshold option is taken as an integer or absent, and all arithmetic is exact.
  A truthy non-number option (the string `"50"`, which the comparisons coerce to 50,
  or `"abc"`, which never swipes) and a fractional threshold are not represented, and
  neither is the double rounding of `n + N` for a `data-slide-to` beyond 2^53.
- DOM construction in `#createControls` and `#createIndicators` is not modelled. That
  covers elements, ids, class names, `innerHTML` and appending. Only the resulting
  `active` flags, the indicator targets and the icon visibility are kept.
- Listener registration in `#bindEvents` and `#bindSwipeEvents` is left out, together
  with `preventDefault` and `#swipeMoveHandler`, which only calls `preventDefault`.
  `Transitions.Dispatch` states what each listener calls.
- Timer timing is left out. The interval length is never used, and a tick is an
  explicit call that only an interval still running can make. An exception thrown in
  a tick is returned as an `Outcome`; the host would only report it.
- Coordinates are not extracted from `touches`, `changedTouches`, `pageX` and
  `clientX`. The handlers receive the coordinate as an optional integer, so
  fractional pixel values are not modelled.
- The `data-slide-to` text is not converted with unary `+`. The click target carries
  the converted number, with `None` for `NaN`. A non-integer number, which would index
  an `undefined` slide and throw, is not modelled.
- Operations before `init` are not modelled: the constructor includes `init`. This
  leaves out the branch of `#updatePauseButton` without a pause button.
- CarouselCore.Carousel.constructor: the settings merge of `core.js` (defaults spread
  under the options) is not modelled. The constructor receives the resolved
  `isPlaying` (default `true`, so autoplay is on unless the options say otherwise;
  an explicit `undefined` turns it off), and `Transitions.Dispatch` receives the
  resolved `pauseOnHover` (default `false`). `SwipeCarousel`'s constructor passes
  the same resolved value on.
- A carousel without slides is excluded by a precondition. With no slides, `init`
  throws a `TypeError` in `#gotoNth` when it reads the class list of the `undefined`
  slide 0, before any remainder is computed.
- `new SwipeCarousel()` without an options object throws when it reads
  `options.swipeThreshold`; the constructor's optional threshold cannot express a
  missing options object. `src/main.js` always passes one.
- `src/main.js` (page-load bootstrapping) is not modelled, and
  `src/carousel/index.js` is not part of this model.
- The container and slide selectors, and keeping listeners apart when several
  carousels share the page, are not modelled.
