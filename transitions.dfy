/** The carousel's state as a value, and every discrete operation of
    `src/carousel/core.js` as a function from the state before to the state after
    (and whether the JavaScript code throws). The class in carousel.dfy performs
    these steps in place and is proved against these functions. */
module Transitions {
  import opened Wrappers
  import opened SlideIndex
  import opened Autoplay

  /** An indicator element: whether it carries the `active` class, and the number
      its `data-slide-to` attribute converts to (`None` when that is `NaN`). */
  datatype Indicator = Indicator(active: bool, slideTo: Option<int>)

  /** The slides' `active` flags, the indicators, and `#currentSlide`. */
  datatype Deck = Deck(current: int, slides: seq<bool>, indicators: seq<Indicator>)

  datatype CarouselState = CarouselState(deck: Deck, player: Player)

  /** The `TypeError`s `#gotoNth` can throw: its argument is not a number, or the
      slide it indexes is `undefined`. */
  datatype Fault = NotANumber | UndefinedSlide

  datatype Outcome = Completed | Threw(fault: Fault)

  datatype Transition = Transition(after: CarouselState, outcome: Outcome)

  /** The target of a click inside the indicators container (`NoTarget` for a null target). */
  datatype ClickTarget = NoTarget | Element(isIndicator: bool, slideTo: Option<int>)

  datatype Command = GoPrev | GoNext | TogglePlay | NoCommand

  const KEY_ARROW_LEFT: string := "ArrowLeft"
  const KEY_ARROW_RIGHT: string := "ArrowRight"
  /** The source's own `CODE_SPACE` constant is `" "`, the space bar's `key`; here
      that is `KEY_SPACE`, and `CODE_SPACE` is the literal `'Space'` it also accepts. */
  const KEY_SPACE: string := " "
  const CODE_SPACE: string := "Space"

  /** A carousel has at least one slide (with none, `init` would throw a
      `TypeError` as soon as `#gotoNth` reads the `undefined` slide 0). */
  predicate WellFormed(s: CarouselState)
  {
    |s.deck.slides| >= 1
  }

  predicate InRange(d: Deck)
  {
    0 <= d.current < |d.slides|
  }

  /** Exactly the current slide, and its indicator if there is one, is `active`. */
  predicate MarksExactly(d: Deck)
  {
    && (forall i :: 0 <= i < |d.slides| ==> (d.slides[i] <==> i == d.current))
    && (forall i :: 0 <= i < |d.indicators| ==> (d.indicators[i].active <==> i == d.current))
  }

  /** Add or remove `active` on indicator `i`; `this.indicators[i]` may be
      `undefined`, and then nothing happens. */
  function Flag(indicators: seq<Indicator>, i: int, on: bool): (r: seq<Indicator>)
    ensures |r| == |indicators|
    ensures forall j :: 0 <= j < |r| ==> r[j] == if j == i then indicators[j].(active := on) else indicators[j]
  {
    if 0 <= i < |indicators| then indicators[i := indicators[i].(active := on)] else indicators
  }

  /** `#gotoNth(n)`. The old slide and indicator lose `active` first; only then is
      `n` checked, so a `NaN` leaves no marker behind. The new index is the
      JavaScript remainder `(n + count) % count`; when that is negative the slide is
      `undefined` and adding `active` to it throws. */
  function Goto(s: CarouselState, n: Option<int>): (t: Transition)
    requires WellFormed(s)
    ensures WellFormed(t.after) && t.after.player == s.player
    ensures |t.after.deck.slides| == |s.deck.slides| && |t.after.deck.indicators| == |s.deck.indicators|
    ensures forall i :: 0 <= i < |s.deck.indicators| ==> t.after.deck.indicators[i].slideTo == s.deck.indicators[i].slideTo
    ensures !InRange(s.deck) ==> t == Transition(s, Threw(UndefinedSlide))
    ensures InRange(s.deck) && n.None? ==> t.outcome == Threw(NotANumber) && t.after.deck.current == s.deck.current
    ensures InRange(s.deck) && n.Some? ==> t.after.deck.current == Wrap(n.value, |s.deck.slides|)
    ensures t.outcome.Completed? <==> InRange(s.deck) && n.Some? && Wrap(n.value, |s.deck.slides|) >= 0
    ensures t.outcome.Completed? ==>
              && InRange(t.after.deck)
              && t.after.deck.slides[t.after.deck.current]
              && (t.after.deck.current < |s.deck.indicators| ==> t.after.deck.indicators[t.after.deck.current].active)
    ensures InRange(s.deck) && !(t.outcome.Completed? && t.after.deck.current == s.deck.current) ==>
              && !t.after.deck.slides[s.deck.current]
              && (s.deck.current < |s.deck.indicators| ==> !t.after.deck.indicators[s.deck.current].active)
    ensures forall i :: 0 <= i < |s.deck.slides| && i != s.deck.current && i != t.after.deck.current ==>
              t.after.deck.slides[i] == s.deck.slides[i]
    ensures forall i :: 0 <= i < |s.deck.indicators| && i != s.deck.current && i != t.after.deck.current ==>
              t.after.deck.indicators[i] == s.deck.indicators[i]
  {
    var d := s.deck;
    if !InRange(d) then
      Transition(s, Threw(UndefinedSlide))
    else
      var cleared := d.(slides := d.slides[d.current := false], indicators := Flag(d.indicators, d.current, false));
      if n.None? then
        Transition(CarouselState(cleared, s.player), Threw(NotANumber))
      else
        var k := Wrap(n.value, |d.slides|);
        if k < 0 then
          Transition(CarouselState(cleared.(current := k), s.player), Threw(UndefinedSlide))
        else
          Transition(CarouselState(Deck(k, cleared.slides[k := true], Flag(cleared.indicators, k, true)), s.player), Completed)
  }

  /** The timer tick installed by `init` and `play`: show the following slide;
      autoplay itself is untouched. */
  function Tick(s: CarouselState): (t: Transition)
    requires WellFormed(s)
    ensures t.after.player == s.player
    ensures InRange(s.deck) ==> t.outcome.Completed? && t.after.deck.current == (s.deck.current + 1) % |s.deck.slides|
  {
    Goto(s, Some(s.deck.current + 1))
  }

  /** `next`: stop autoplay, then show the following slide. */
  function Next(s: CarouselState): (t: Transition)
    requires WellFormed(s)
    ensures t.after.player == Stop(s.player)
    ensures InRange(s.deck) ==> t.outcome.Completed? && t.after.deck.current == (s.deck.current + 1) % |s.deck.slides|
  {
    Goto(CarouselState(s.deck, Stop(s.player)), Some(s.deck.current + 1))
  }

  /** `prev`: stop autoplay, then show the preceding slide. */
  function Prev(s: CarouselState): (t: Transition)
    requires WellFormed(s)
    ensures t.after.player == Stop(s.player)
    ensures InRange(s.deck) ==> t.outcome.Completed? && t.after.deck.current == (s.deck.current - 1) % |s.deck.slides|
  {
    Goto(CarouselState(s.deck, Stop(s.player)), Some(s.deck.current - 1))
  }

  /** `pause`: the slides are untouched. */
  function Pause(s: CarouselState): (r: CarouselState)
    ensures r.deck == s.deck && !r.player.isPlaying && r.player.timerId.None?
    ensures Sound(s.player) ==> Sound(r.player) && r.player.live == {}
  {
    CarouselState(s.deck, Stop(s.player))
  }

  /** `play`: the slides are untouched. */
  function Play(s: CarouselState): (r: CarouselState)
    ensures r.deck == s.deck && r.player.isPlaying
    ensures s.player.isPlaying ==> r == s
    ensures Sound(s.player) ==> Sound(r.player)
  {
    CarouselState(s.deck, Start(s.player))
  }

  /** `pausePlay`: the slides are untouched. */
  function PausePlay(s: CarouselState): (r: CarouselState)
    ensures r.deck == s.deck && r.player.isPlaying == !s.player.isPlaying
    ensures Sound(s.player) ==> Sound(r.player)
  {
    CarouselState(s.deck, Toggle(s.player))
  }

  /** `#indicatorClick`: a target without the `indicator` class is ignored;
      otherwise autoplay stops and the slide named by `data-slide-to` is shown. */
  function ClickIndicator(s: CarouselState, target: ClickTarget): (t: Transition)
    requires WellFormed(s)
    ensures !(target.Element? && target.isIndicator) ==> t == Transition(s, Completed)
    ensures target.Element? && target.isIndicator ==> t.after.player == Stop(s.player)
    ensures target.Element? && target.isIndicator ==> t == Goto(CarouselState(s.deck, Stop(s.player)), target.slideTo)
    ensures target.Element? && target.isIndicator && InRange(s.deck) && target.slideTo.Some?
              && 0 <= target.slideTo.value < |s.deck.slides| ==>
              t.outcome.Completed? && t.after.deck.current == target.slideTo.value
  {
    if target.Element? && target.isIndicator then
      var t := Goto(CarouselState(s.deck, Stop(s.player)), target.slideTo);
      if target.slideTo.Some? && 0 <= target.slideTo.value < |s.deck.slides| then
        WrapKeepsIndex(target.slideTo.value, |s.deck.slides|);
        t
      else
        t
    else
      Transition(s, Completed)
  }

  /** `e.key || e.code`: an empty (or missing) `key` falls back to `code`. */
  function PressedKey(key: string, code: string): string
  {
    if key != "" then key else code
  }

  /** The command `#keydownHandler` reads from a key name. */
  function KeyCommand(key: string): (c: Command)
    ensures c == GoPrev <==> key == KEY_ARROW_LEFT
    ensures c == GoNext <==> key == KEY_ARROW_RIGHT
    ensures c == TogglePlay <==> key == KEY_SPACE || key == CODE_SPACE
  {
    if key == KEY_ARROW_LEFT then GoPrev
    else if key == KEY_ARROW_RIGHT then GoNext
    else if key == KEY_SPACE || key == CODE_SPACE then TogglePlay
    else NoCommand
  }

  /** `#keydownHandler`: the arrows act as `prev` and `next`, space as `pausePlay`,
      any other key does nothing. Only space leaves autoplay running. */
  function KeyDown(s: CarouselState, key: string, code: string): (t: Transition)
    requires WellFormed(s)
    ensures KeyCommand(PressedKey(key, code)) == GoPrev ==> t == Prev(s)
    ensures KeyCommand(PressedKey(key, code)) == GoNext ==> t == Next(s)
    ensures KeyCommand(PressedKey(key, code)) == TogglePlay ==> t == Transition(PausePlay(s), Completed)
    ensures KeyCommand(PressedKey(key, code)) == NoCommand ==> t == Transition(s, Completed)
    ensures PressedKey(key, code) in {KEY_ARROW_LEFT, KEY_ARROW_RIGHT} ==>
              && !t.after.player.isPlaying && t.after.player.timerId.None?
              && (InRange(s.deck) ==>
                    && t.outcome.Completed? && InRange(t.after.deck)
                    && t.after.deck.current == (s.deck.current + (if PressedKey(key, code) == KEY_ARROW_LEFT then -1 else 1)) % |s.deck.slides|)
    ensures PressedKey(key, code) in {KEY_SPACE, CODE_SPACE} ==>
              t.outcome.Completed? && t.after.deck == s.deck && t.after.player.isPlaying == !s.player.isPlaying
    ensures PressedKey(key, code) !in {KEY_ARROW_LEFT, KEY_ARROW_RIGHT, KEY_SPACE, CODE_SPACE} ==> t == Transition(s, Completed)
  {
    match KeyCommand(PressedKey(key, code))
    case GoPrev => Prev(s)
    case GoNext => Next(s)
    case TogglePlay => Transition(PausePlay(s), Completed)
    case NoCommand => Transition(s, Completed)
  }

  /** The indicators `#createIndicators` appends when the container has none yet:
      one per slide, in order, the `k`-th targeting slide `k`. */
  function CreatedIndicators(count: nat): (r: seq<Indicator>)
    ensures |r| == count
    ensures forall k :: 0 <= k < count ==> r[k] == Indicator(false, Some(k))
  {
    if count == 0 then [] else CreatedIndicators(count - 1) + [Indicator(false, Some(count - 1))]
  }

  /** The indicators after `#createIndicators`: freshly created ones, or those of
      an indicators container already in the page, whatever their number. */
  function IndicatorsAtInit(count: nat, existing: Option<seq<Indicator>>): seq<Indicator>
  {
    if existing.None? then CreatedIndicators(count) else existing.value
  }

  /** The state after the constructor and `init`: controls (icons), indicators,
      `#gotoNth(0)`, and an interval when `isPlaying` was requested. The slides'
      `active` flags are those of the page. */
  function Init(slides: seq<bool>, existing: Option<seq<Indicator>>, autoplay: bool): (s: CarouselState)
    requires |slides| >= 1
    ensures WellFormed(s) && Sound(s.player) && s.player.isPlaying == autoplay
    ensures |s.deck.slides| == |slides| && InRange(s.deck) && s.deck.current == 0 && s.deck.slides[0]
    ensures forall i :: 0 < i < |slides| ==> s.deck.slides[i] == slides[i]
    ensures |s.deck.indicators| == |IndicatorsAtInit(|slides|, existing)|
    ensures existing.None? ==> forall k :: 0 <= k < |slides| ==> s.deck.indicators[k] == Indicator(k == 0, Some(k))
    ensures existing.Some? ==> forall k :: 0 < k < |existing.value| ==> s.deck.indicators[k] == existing.value[k]
    ensures existing.Some? && |existing.value| >= 1 ==> s.deck.indicators[0] == existing.value[0].(active := true)
  {
    WrapKeepsIndex(0, |slides|);
    CarouselState(Goto(Built(slides, existing, autoplay), Some(0)).after.deck, Initial(autoplay))
  }

  /** The state just before `init` calls `#gotoNth(0)`: controls and indicators exist. */
  function Built(slides: seq<bool>, existing: Option<seq<Indicator>>, autoplay: bool): CarouselState
  {
    CarouselState(Deck(0, slides, IndicatorsAtInit(|slides|, existing)), Controls(autoplay))
  }

  /** The host events the carousel listens to (`#bindEvents`); the hover pair only
      when `pauseOnHover` is set. */
  datatype Event =
    | NextClicked
    | PrevClicked
    | PauseClicked
    | IntervalFired(handle: nat)
    | IndicatorsClicked(target: ClickTarget)
    | KeyPressed(key: string, code: string)
    | MouseEntered
    | MouseLeft

  /** What each listener does; an interval that the host no longer runs never fires. */
  function Dispatch(s: CarouselState, e: Event, pauseOnHover: bool): (t: Transition)
    requires WellFormed(s)
    ensures e.IntervalFired? && e.handle !in s.player.live ==> t == Transition(s, Completed)
    ensures e.PauseClicked? ==>
              t.outcome.Completed? && t.after.deck == s.deck && t.after.player.isPlaying == !s.player.isPlaying
    ensures e.MouseEntered? || e.MouseLeft? ==> t.outcome.Completed? && t.after.deck == s.deck
    ensures (e.MouseEntered? || e.MouseLeft?) && !pauseOnHover ==> t == Transition(s, Completed)
    ensures e.MouseEntered? && pauseOnHover ==> !t.after.player.isPlaying
    ensures e.MouseLeft? && pauseOnHover ==> t.after.player.isPlaying
  {
    match e
    case NextClicked => Next(s)
    case PrevClicked => Prev(s)
    case PauseClicked => Transition(PausePlay(s), Completed)
    case IntervalFired(h) => if h in s.player.live then Tick(s) else Transition(s, Completed)
    case IndicatorsClicked(target) => ClickIndicator(s, target)
    case KeyPressed(key, code) => KeyDown(s, key, code)
    case MouseEntered => Transition(if pauseOnHover then Pause(s) else s, Completed)
    case MouseLeft => Transition(if pauseOnHover then Play(s) else s, Completed)
  }

  /** An event whose slide request cannot fail: anything but a click on an
      indicator whose target is `NaN` or wraps below zero. */
  predicate Harmless(e: Event, count: int)
    requires count > 0
  {
    e.IndicatorsClicked? && e.target.Element? && e.target.isIndicator ==>
      e.target.slideTo.Some? && Wrap(e.target.slideTo.value, count) >= 0
  }

  /** Every event keeps the autoplay invariant: a handle is held exactly while
      playing, exactly one interval runs then, and the icons agree. */
  lemma {:induction false} DispatchKeepsSound(s: CarouselState, e: Event, pauseOnHover: bool)
    requires WellFormed(s) && Sound(s.player)
    ensures WellFormed(Dispatch(s, e, pauseOnHover).after)
    ensures Sound(Dispatch(s, e, pauseOnHover).after.player)
  {
    match e
    case KeyPressed(key, code) =>
      var c := KeyCommand(PressedKey(key, code));
      if c == GoPrev { assert Dispatch(s, e, pauseOnHover) == Prev(s); }
      else if c == GoNext { assert Dispatch(s, e, pauseOnHover) == Next(s); }
    case _ =>
  }

  /** From an in-range state where exactly the current slide is marked, every
      harmless event completes, keeps the index in range, and leaves exactly the
      new current slide (and its indicator) marked. */
  lemma {:induction false} DispatchKeepsMarker(s: CarouselState, e: Event, pauseOnHover: bool)
    requires WellFormed(s) && InRange(s.deck) && MarksExactly(s.deck)
    requires Harmless(e, |s.deck.slides|)
    ensures Dispatch(s, e, pauseOnHover).outcome == Completed
    ensures InRange(Dispatch(s, e, pauseOnHover).after.deck)
    ensures MarksExactly(Dispatch(s, e, pauseOnHover).after.deck)
  {
    var t := Dispatch(s, e, pauseOnHover);
    match e
    case NextClicked => NavigationKeepsMarker(s);
    case PrevClicked => NavigationKeepsMarker(s);
    case IntervalFired(h) =>
      if h in s.player.live { NavigationKeepsMarker(s); }
    case IndicatorsClicked(target) =>
      if target.Element? && target.isIndicator {
        assert t == Goto(CarouselState(s.deck, Stop(s.player)), target.slideTo);
        GotoKeepsMarker(CarouselState(s.deck, Stop(s.player)), target.slideTo);
      }
    case KeyPressed(key, code) =>
      NavigationKeepsMarker(s);
    case _ =>
  }

  /** `next`, `prev` and the tick from a valid index complete and move the single marker. */
  lemma {:induction false} NavigationKeepsMarker(s: CarouselState)
    requires WellFormed(s) && InRange(s.deck) && MarksExactly(s.deck)
    ensures Next(s).outcome == Completed && InRange(Next(s).after.deck) && MarksExactly(Next(s).after.deck)
    ensures Prev(s).outcome == Completed && InRange(Prev(s).after.deck) && MarksExactly(Prev(s).after.deck)
    ensures Tick(s).outcome == Completed && InRange(Tick(s).after.deck) && MarksExactly(Tick(s).after.deck)
  {
    GotoKeepsMarker(CarouselState(s.deck, Stop(s.player)), Some(s.deck.current + 1));
    GotoKeepsMarker(CarouselState(s.deck, Stop(s.player)), Some(s.deck.current - 1));
    GotoKeepsMarker(s, Some(s.deck.current + 1));
  }

  /** A completed `#gotoNth` moves the single marker to the new slide. */
  lemma {:induction false} GotoKeepsMarker(s: CarouselState, n: Option<int>)
    requires WellFormed(s) && MarksExactly(s.deck)
    requires Goto(s, n).outcome.Completed?
    ensures MarksExactly(Goto(s, n).after.deck)
  {
    var d, d' := s.deck, Goto(s, n).after.deck;
    forall i | 0 <= i < |d'.slides|
      ensures d'.slides[i] <==> i == d'.current
    {
      if i != d.current && i != d'.current { assert d'.slides[i] == d.slides[i]; }
    }
    forall i | 0 <= i < |d'.indicators|
      ensures d'.indicators[i].active <==> i == d'.current
    {
      if i != d.current && i != d'.current { assert d'.indicators[i] == d.indicators[i]; }
    }
  }

  /** A `NaN` request (an indicator whose `data-slide-to` is not a number) throws
      after stopping autoplay and unmarking the current slide: the index is kept but
      no slide and no indicator is marked any more. */
  lemma {:induction false} NaNClickLeavesNoMarker(s: CarouselState)
    requires WellFormed(s) && InRange(s.deck) && MarksExactly(s.deck)
    ensures ClickIndicator(s, Element(true, None)).outcome == Threw(NotANumber)
    ensures ClickIndicator(s, Element(true, None)).after.deck.current == s.deck.current
    ensures !ClickIndicator(s, Element(true, None)).after.player.isPlaying
    ensures forall i :: 0 <= i < |s.deck.slides| ==> !ClickIndicator(s, Element(true, None)).after.deck.slides[i]
    ensures forall i :: 0 <= i < |s.deck.indicators| ==> !ClickIndicator(s, Element(true, None)).after.deck.indicators[i].active
  {
    var d' := ClickIndicator(s, Element(true, None)).after.deck;
    forall i | 0 <= i < |s.deck.slides|
      ensures !d'.slides[i]
    {
      if i != s.deck.current { assert d'.slides[i] == s.deck.slides[i]; }
    }
    forall i | 0 <= i < |s.deck.indicators|
      ensures !d'.indicators[i].active
    {
      if i != s.deck.current { assert d'.indicators[i] == s.deck.indicators[i]; }
    }
  }

  /** A request that wraps below zero leaves a negative index behind, and from then
      on every `#gotoNth` throws before it changes anything: navigation is stuck. */
  lemma {:induction false} EscapedIndexIsStuck(s: CarouselState, n: int)
    requires WellFormed(s) && InRange(s.deck)
    requires Wrap(n, |s.deck.slides|) < 0
    ensures Goto(s, Some(n)).outcome == Threw(UndefinedSlide)
    ensures Goto(s, Some(n)).after.deck.current < 0
    ensures forall m :: Goto(Goto(s, Some(n)).after, m) == Transition(Goto(s, Some(n)).after, Threw(UndefinedSlide))
  {
    var after := Goto(s, Some(n)).after;
    assert !InRange(after.deck);
  }

  /** An indicator of a container already in the page may name any slide: one
      past the last shows the first, `-1` shows the last, and one below `-N`
      throws and leaves the index negative. */
  lemma {:induction false} ForeignIndicatorClicks(s: CarouselState)
    requires WellFormed(s) && InRange(s.deck)
    ensures ClickIndicator(s, Element(true, Some(|s.deck.slides|))).outcome == Completed
    ensures ClickIndicator(s, Element(true, Some(|s.deck.slides|))).after.deck.current == 0
    ensures ClickIndicator(s, Element(true, Some(-1))).outcome == Completed
    ensures ClickIndicator(s, Element(true, Some(-1))).after.deck.current == |s.deck.slides| - 1
    ensures |s.deck.slides| >= 2 ==>
              && ClickIndicator(s, Element(true, Some(-|s.deck.slides| - 1))).outcome == Threw(UndefinedSlide)
              && ClickIndicator(s, Element(true, Some(-|s.deck.slides| - 1))).after.deck.current == -1
  {
    WrapCyclesAtTheEnds(|s.deck.slides|);
    if |s.deck.slides| >= 2 {
      WrapEscapesBelowRange(|s.deck.slides|);
    }
  }

  /** The indicators created at `init` take a click on the `k`-th one to slide `k`,
      and autoplay stops. */
  lemma {:induction false} CreatedIndicatorClickShowsItsSlide(slides: seq<bool>, autoplay: bool, k: int)
    requires 0 <= k < |slides|
    ensures Init(slides, None, autoplay).deck.indicators[k].slideTo == Some(k)
    ensures ClickIndicator(Init(slides, None, autoplay), Element(true, Some(k))).outcome == Completed
    ensures ClickIndicator(Init(slides, None, autoplay), Element(true, Some(k))).after.deck.current == k
    ensures !ClickIndicator(Init(slides, None, autoplay), Element(true, Some(k))).after.player.isPlaying
  {
  }

  /** When the page marks no slide but possibly the first, and brings no active
      indicator but possibly the first, `init` leaves exactly slide 0 marked. */
  lemma {:induction false} InitMarksFirstOnly(slides: seq<bool>, existing: Option<seq<Indicator>>, autoplay: bool)
    requires |slides| >= 1
    requires forall i :: 0 < i < |slides| ==> !slides[i]
    requires existing.Some? ==> forall i :: 0 < i < |existing.value| ==> !existing.value[i].active
    ensures MarksExactly(Init(slides, existing, autoplay).deck)
  {
    var d := Init(slides, existing, autoplay).deck;
    WrapKeepsIndex(0, |slides|);
    var start := Built(slides, existing, autoplay);
    assert d == Goto(start, Some(0)).after.deck;
    forall i | 0 <= i < |d.indicators|
      ensures d.indicators[i].active <==> i == 0
    {
      if i != 0 { assert d.indicators[i] == start.deck.indicators[i]; }
    }
  }

  /** `next` from the last slide shows the first, `prev` from the first the last. */
  lemma {:induction false} NavigationWrapsAround(s: CarouselState)
    requires WellFormed(s) && InRange(s.deck)
    ensures s.deck.current == |s.deck.slides| - 1 ==> Next(s).after.deck.current == 0
    ensures s.deck.current == 0 ==> Prev(s).after.deck.current == |s.deck.slides| - 1
  {
    WrapCyclesAtTheEnds(|s.deck.slides|);
  }

  /** Hovering does not know about a pause the user asked for: with `pauseOnHover`,
      leaving the carousel after pausing it with the button resumes autoplay. */
  lemma {:induction false} HoverResumesAManualPause(s: CarouselState)
    requires WellFormed(s) && Sound(s.player) && s.player.isPlaying
    ensures !Dispatch(s, PauseClicked, true).after.player.isPlaying
    ensures Dispatch(Dispatch(s, PauseClicked, true).after, MouseLeft, true).after.player.isPlaying
  {
  }
}
