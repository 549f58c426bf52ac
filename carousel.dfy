/** The `Carousel` class of `src/carousel/core.js`: its fields are updated in place
    step by step, and each public method is proved to perform the transition that
    the function of the same name in module Transitions describes. */
module CarouselCore {
  import opened Wrappers
  import opened SlideIndex
  import opened Autoplay
  import opened Transitions

  class Carousel {
    /** Whether each slide element carries the `active` class; the slide list is
        fixed when the carousel is built. */
    const slides: array<bool>
    var currentSlide: int
    var indicators: seq<Indicator>
    var isPlaying: bool
    var timerId: Option<nat>
    /** Whether the pause icon and the play icon are visible (opacity 1). */
    var pauseIconShown: bool
    var playIconShown: bool
    /** The host's interval table: the handle the next `setInterval` returns, and
        the intervals it is still running. */
    var nextHandle: nat
    ghost var liveTimers: set<nat>

    ghost function PlayerState(): Player
      reads this
    {
      Player(isPlaying, timerId, nextHandle, liveTimers, pauseIconShown, playIconShown)
    }

    ghost function State(): CarouselState
      reads this, slides
    {
      CarouselState(Deck(currentSlide, slides[..], indicators), PlayerState())
    }

    /** The invariant every public method keeps once the carousel is initialised. */
    ghost predicate Valid()
      reads this
    {
      slides.Length >= 1 && Sound(PlayerState())
    }

    /** The constructor followed by `init`. `pageSlides` are the `active` classes
        the page gives the slides, and `existingIndicators` the indicators of an
        indicators container already in the page, if there is one. */
    constructor (pageSlides: seq<bool>, existingIndicators: Option<seq<Indicator>>, autoplay: bool)
      requires |pageSlides| >= 1
      ensures Valid() && fresh(slides)
      ensures State() == Transitions.Init(pageSlides, existingIndicators, autoplay)
    {
      slides := new bool[|pageSlides|](i requires 0 <= i < |pageSlides| => pageSlides[i]);
      currentSlide := 0;
      indicators := [];
      isPlaying := autoplay;
      timerId := None;
      pauseIconShown, playIconShown := false, false;
      nextHandle := FIRST_HANDLE;
      liveTimers := {};
      new;
      assert slides[..] == pageSlides;
      Init(existingIndicators);
    }

    /** `init`, from the state the constructor leaves: create the controls and the
        indicators, show slide 0, and start autoplay when `isPlaying` was requested. */
    method Init(existingIndicators: Option<seq<Indicator>>)
      requires slides.Length >= 1 && currentSlide == 0 && indicators == []
      requires timerId.None? && nextHandle == FIRST_HANDLE && liveTimers == {}
      modifies this, slides
      ensures Valid()
      ensures State() == Transitions.Init(old(slides[..]), existingIndicators, old(isPlaying))
    {
      ghost var autoplay := isPlaying;
      ghost var built := Built(old(slides[..]), existingIndicators, autoplay);
      CreateControlsAndIndicators(existingIndicators);
      var shown := GotoNth(Some(0));
      ghost var deck := Goto(built, Some(0)).after.deck;
      StartAutoplay();
      assert PlayerState() == Initial(autoplay);
      assert State() == CarouselState(deck, Initial(autoplay));
    }

    /** The opening steps of `init`: `#createControls` and `#createIndicators`. */
    method CreateControlsAndIndicators(existingIndicators: Option<seq<Indicator>>)
      requires currentSlide == 0 && indicators == []
      requires timerId.None? && nextHandle == FIRST_HANDLE && liveTimers == {}
      modifies this`pauseIconShown, this`playIconShown, this`indicators
      ensures State() == Built(slides[..], existingIndicators, isPlaying)
    {
      CreateControls();
      assert PlayerState() == Controls(isPlaying);
      CreateIndicators(existingIndicators);
    }

    /** The closing step of `init`: schedule the interval when autoplay is on. */
    method StartAutoplay()
      modifies this`timerId, this`nextHandle, this`liveTimers
      ensures PlayerState() == if isPlaying then InstallTimer(old(PlayerState())) else old(PlayerState())
    {
      if isPlaying {
        var h := SetInterval();
        timerId := Some(h);
      }
    }

    /** The host's `setInterval`: a fresh handle for a newly running interval. */
    method SetInterval() returns (h: nat)
      modifies this`nextHandle, this`liveTimers
      ensures h == old(nextHandle) && nextHandle == h + 1
      ensures liveTimers == old(liveTimers) + {h}
    {
      h := nextHandle;
      nextHandle := nextHandle + 1;
      liveTimers := liveTimers + {h};
    }

    /** The host's `clearInterval`: the interval stops running. */
    method ClearInterval(h: nat)
      modifies this`liveTimers
      ensures liveTimers == old(liveTimers) - {h}
    {
      liveTimers := liveTimers - {h};
    }

    /** `#updatePauseButton`: the pause icon shows while playing, the play icon otherwise. */
    method UpdatePauseButton()
      modifies this`pauseIconShown, this`playIconShown
      ensures PlayerState() == ShowIcons(old(PlayerState()))
    {
      if isPlaying {
        pauseIconShown, playIconShown := true, false;
      } else {
        pauseIconShown, playIconShown := false, true;
      }
    }

    /** The state part of `#createControls`: the pause icon starts visible and the
        play icon hidden, then the icons are updated. */
    method CreateControls()
      modifies this`pauseIconShown, this`playIconShown
      ensures PlayerState() == ShowIcons(old(PlayerState()).(pauseIconShown := true, playIconShown := false))
    {
      pauseIconShown, playIconShown := true, false;
      UpdatePauseButton();
    }

    /** The state part of `#createIndicators`: append one indicator per slide,
        targeting slides `0 .. count - 1` in order, or adopt those of an indicators
        container already in the page. */
    method CreateIndicators(existing: Option<seq<Indicator>>)
      modifies this`indicators
      ensures indicators == if existing.None? then old(indicators) + CreatedIndicators(slides.Length) else existing.value
    {
      if existing.None? {
        for i := 0 to slides.Length
          invariant indicators == old(indicators) + CreatedIndicators(i)
        {
          indicators := indicators + [Indicator(false, Some(i))];
        }
      } else {
        indicators := existing.value;
      }
    }

    /** `#gotoNth(n)`, with `None` for an argument that is not a number or is `NaN`. */
    method GotoNth(n: Option<int>) returns (outcome: Outcome)
      requires slides.Length >= 1
      modifies this`currentSlide, this`indicators, slides
      ensures State() == Goto(old(State()), n).after
      ensures outcome == Goto(old(State()), n).outcome
    {
      if !(0 <= currentSlide < slides.Length) {
        return Threw(UndefinedSlide);
      }
      slides[currentSlide] := false;
      if currentSlide < |indicators| {
        indicators := indicators[currentSlide := indicators[currentSlide].(active := false)];
      }
      if n.None? {
        return Threw(NotANumber);
      }
      currentSlide := Wrap(n.value, slides.Length);
      if currentSlide < 0 {
        return Threw(UndefinedSlide);
      }
      slides[currentSlide] := true;
      if currentSlide < |indicators| {
        indicators := indicators[currentSlide := indicators[currentSlide].(active := true)];
      }
      return Completed;
    }

    /** `pause`. */
    method Pause()
      requires Valid()
      modifies this`timerId, this`liveTimers, this`isPlaying, this`pauseIconShown, this`playIconShown
      ensures Valid()
      ensures State() == Transitions.Pause(old(State()))
    {
      if timerId.Some? {
        ClearInterval(timerId.value);
        timerId := None;
      }
      isPlaying := false;
      UpdatePauseButton();
    }

    /** `play`. */
    method Play()
      requires Valid()
      modifies this`timerId, this`liveTimers, this`nextHandle, this`isPlaying, this`pauseIconShown, this`playIconShown
      ensures Valid()
      ensures State() == Transitions.Play(old(State()))
    {
      if !isPlaying {
        var h := SetInterval();
        timerId := Some(h);
        isPlaying := true;
        UpdatePauseButton();
      }
    }

    /** `pausePlay`. */
    method PausePlay()
      requires Valid()
      modifies this`timerId, this`liveTimers, this`nextHandle, this`isPlaying, this`pauseIconShown, this`playIconShown
      ensures Valid()
      ensures State() == Transitions.PausePlay(old(State()))
    {
      if isPlaying {
        Pause();
      } else {
        Play();
      }
    }

    /** The callback of the interval installed by `init` and `play`; only an
        interval the host still runs fires. */
    method Tick(h: nat) returns (outcome: Outcome)
      requires Valid() && h in liveTimers
      modifies this`currentSlide, this`indicators, slides
      ensures Valid()
      ensures State() == Transitions.Tick(old(State())).after && outcome == Transitions.Tick(old(State())).outcome
    {
      outcome := GotoNth(Some(currentSlide + 1));
    }

    /** `next`: its opening is the body of `pause`. */
    method Next() returns (outcome: Outcome)
      requires Valid()
      modifies this, slides
      ensures Valid()
      ensures State() == Transitions.Next(old(State())).after && outcome == Transitions.Next(old(State())).outcome
    {
      Pause();
      outcome := GotoNth(Some(currentSlide + 1));
    }

    /** `prev`: its opening is the body of `pause`. */
    method Prev() returns (outcome: Outcome)
      requires Valid()
      modifies this, slides
      ensures Valid()
      ensures State() == Transitions.Prev(old(State())).after && outcome == Transitions.Prev(old(State())).outcome
    {
      Pause();
      outcome := GotoNth(Some(currentSlide - 1));
    }

    /** `#indicatorClick`. */
    method IndicatorClick(target: ClickTarget) returns (outcome: Outcome)
      requires Valid()
      modifies this, slides
      ensures Valid()
      ensures State() == ClickIndicator(old(State()), target).after
      ensures outcome == ClickIndicator(old(State()), target).outcome
    {
      outcome := Completed;
      if target.Element? && target.isIndicator {
        Pause();
        outcome := GotoNth(target.slideTo);
      }
    }

    /** `#keydownHandler`, given the event's `key` and `code` (an absent `key` as ""). */
    method KeydownHandler(key: string, code: string) returns (outcome: Outcome)
      requires Valid()
      modifies this, slides
      ensures Valid()
      ensures State() == KeyDown(old(State()), key, code).after
      ensures outcome == KeyDown(old(State()), key, code).outcome
    {
      var pressed := if key != "" then key else code;
      outcome := Completed;
      if pressed == KEY_ARROW_LEFT {
        outcome := Prev();
      } else if pressed == KEY_ARROW_RIGHT {
        outcome := Next();
      } else if pressed == KEY_SPACE || pressed == CODE_SPACE {
        PausePlay();
      }
    }
  }
}
