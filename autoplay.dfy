/** The autoplay scheduler of the carousel: `isPlaying`, the interval handle
    `timerId`, the pause/play icon pair, and the host's table of running intervals. */
module Autoplay {
  import opened Wrappers

  /** The first handle the host's `setInterval` returns; handles are positive and
      never reused, so a held handle is always truthy. */
  const FIRST_HANDLE: nat := 1

  /** The autoplay part of a carousel. `nextHandle` and `live` describe the host:
      the handle its next `setInterval` will return, and the handles of the
      intervals it is still running. */
  datatype Player = Player(
    isPlaying: bool,
    timerId: Option<nat>,
    nextHandle: nat,
    live: set<nat>,
    pauseIconShown: bool,
    playIconShown: bool)

  function HandleSet(t: Option<nat>): set<nat>
  {
    if t.Some? then {t.value} else {}
  }

  /** The invariant after `init`: a handle is held exactly while playing, the host
      runs that one interval and no other, and the pause icon shows exactly while
      playing (the play icon otherwise). */
  ghost predicate Sound(p: Player)
  {
    && (p.timerId.Some? <==> p.isPlaying)
    && p.live == HandleSet(p.timerId)
    && FIRST_HANDLE <= p.nextHandle
    && (p.timerId.Some? ==> FIRST_HANDLE <= p.timerId.value < p.nextHandle)
    && p.pauseIconShown == p.isPlaying
    && p.playIconShown == !p.isPlaying
  }

  /** `#updatePauseButton` once the controls exist: the icons follow `isPlaying`
      and nothing else changes. */
  function ShowIcons(p: Player): (r: Player)
    ensures r.pauseIconShown == p.isPlaying && r.playIconShown == !p.isPlaying
    ensures r.(pauseIconShown := p.pauseIconShown, playIconShown := p.playIconShown) == p
  {
    p.(pauseIconShown := p.isPlaying, playIconShown := !p.isPlaying)
  }

  /** `setInterval`: the host starts a fresh interval and its handle is kept. */
  function InstallTimer(p: Player): (r: Player)
    ensures r.timerId.Some? && r.timerId.value in r.live && r.timerId.value < r.nextHandle
    ensures Sound(p) ==> p.nextHandle !in p.live && r.live - p.live == {r.timerId.value}
  {
    p.(timerId := Some(p.nextHandle), live := p.live + {p.nextHandle}, nextHandle := p.nextHandle + 1)
  }

  /** `pause`, and the identical opening of `next`, `prev` and `#indicatorClick`:
      clear the interval if a handle is held, drop the handle, stop playing. */
  function Stop(p: Player): (r: Player)
    ensures !r.isPlaying && r.timerId.None? && !r.pauseIconShown && r.playIconShown
    ensures r.nextHandle == p.nextHandle
    ensures r.live == p.live - HandleSet(p.timerId)
    ensures Sound(p) ==> Sound(r) && r.live == {}
  {
    var cleared := if p.timerId.Some? then p.(live := p.live - {p.timerId.value}, timerId := None) else p;
    ShowIcons(cleared.(isPlaying := false))
  }

  /** `play`: a no-op while playing; otherwise one fresh interval is installed. */
  function Start(p: Player): (r: Player)
    ensures p.isPlaying ==> r == p
    ensures !p.isPlaying ==> r.isPlaying && r.timerId == Some(p.nextHandle)
                              && r.live == p.live + {p.nextHandle} && r.nextHandle == p.nextHandle + 1
    ensures Sound(p) ==> Sound(r)
  {
    if p.isPlaying then p
    else ShowIcons(InstallTimer(p).(isPlaying := true))
  }

  /** `pausePlay`: pause while playing, play otherwise. */
  function Toggle(p: Player): (r: Player)
    ensures r.isPlaying == !p.isPlaying
    ensures Sound(p) ==> Sound(r)
    ensures p.isPlaying ==> r == Stop(p)
    ensures !p.isPlaying ==> r == Start(p)
  {
    if p.isPlaying then Stop(p) else Start(p)
  }

  /** The player once `#createControls` has run: the pause icon was made visible,
      then the icons were updated. */
  function Controls(autoplay: bool): (r: Player)
    ensures Sound(r) <==> !autoplay
  {
    ShowIcons(Player(autoplay, None, FIRST_HANDLE, {}, true, false))
  }

  /** The player after `init`: when `isPlaying` was requested an interval is
      installed directly, without going through `play`. */
  function Initial(autoplay: bool): (r: Player)
    ensures Sound(r) && r.isPlaying == autoplay
    ensures autoplay ==> r.timerId == Some(FIRST_HANDLE) && r.live == {FIRST_HANDLE}
  {
    if autoplay then InstallTimer(Controls(autoplay)) else Controls(autoplay)
  }

  /** Calling `play` twice schedules no second interval. */
  lemma StartIdempotent(p: Player)
    ensures Start(Start(p)) == Start(p)
  {
  }

  /** Under the invariant at most one interval ever runs. */
  lemma {:induction false} AtMostOneInterval(p: Player)
    requires Sound(p)
    ensures |p.live| <= 1
    ensures p.isPlaying ==> |p.live| == 1
  {
  }

  /** `pausePlay` twice restores `isPlaying` and keeps the invariant; the interval
      running afterwards is a fresh one. */
  lemma {:induction false} ToggleTwice(p: Player)
    requires Sound(p)
    ensures Toggle(Toggle(p)).isPlaying == p.isPlaying
    ensures Sound(Toggle(Toggle(p)))
    ensures p.isPlaying ==> Toggle(Toggle(p)).timerId == Some(p.nextHandle)
  {
  }
}
