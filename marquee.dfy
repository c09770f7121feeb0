/**
 * The per-element text marquee of public/app.js (`startTextAutoScroll` and its `tick`
 * closure) as a state machine over its pending callbacks. Each callback that the browser
 * may run is an `Event`; distances are in tenths of a pixel, so the scroll speed of
 * 0.6 px per frame is 6.
 */
module Marquee {
  import opened Wrappers

  /** `TEXT_SCROLL_SPEED`, in tenths of a pixel per frame. */
  const ScrollSpeed := 6
  /** Overflow, in pixels, up to which text stays still. */
  const OverflowThreshold := 4

  /**
   * The `state` object of one element plus the `offset` and `overflow` its closures share.
   * `resetFramePending` stands for the frame that starts the eased return to 0; the source
   * does not keep its handle, so it is not one of the cancellable slots.
   */
  datatype ScrollState = ScrollState(
    overflow: int,
    offset: int,
    shift: int,
    holdArmed: bool,
    frameArmed: bool,
    fallbackArmed: bool,
    handlerAttached: bool,
    resetFramePending: bool)

  /** The overflow in tenths of a pixel: where the scroll stops. */
  function Limit(st: ScrollState): int {
    st.overflow * 10
  }

  predicate ExactlyOne(a: bool, b: bool, c: bool) {
    (if a then 1 else 0) + (if b then 1 else 0) + (if c then 1 else 0) == 1
  }

  /**
   * The marquee invariant: the offset stays below the overflow and the displayed shift never
   * exceeds it; exactly one cancellable callback is pending (the resume timer, a tick frame,
   * or the reset fallback timer), and the transitionend listener is attached exactly while
   * the fallback timer is.
   */
  predicate Valid(st: ScrollState) {
    && st.overflow > 0
    && 0 <= st.offset < Limit(st)
    && 0 <= st.shift <= Limit(st)
    && st.handlerAttached == st.fallbackArmed
    && ExactlyOne(st.holdArmed, st.frameArmed, st.fallbackArmed)
  }

  /** The state `startTextAutoScroll` stores: none for no overflow, else the text at rest and the resume timer armed. */
  function Start(overflow: int): (r: Option<ScrollState>)
    ensures r.Some? <==> overflow > 0
    ensures r.Some? ==> Valid(r.value) && r.value.holdArmed && r.value.shift == 0 && r.value.offset == 0
  {
    if overflow <= 0 then None
    else Some(ScrollState(overflow, 0, 0, true, false, false, false, false))
  }

  /** The callbacks the browser may run for one element. */
  datatype Event =
    | HoldElapsed         // the resume timer (`timeoutId`) fires
    | FrameRendered       // the tick frame (`frameId`) runs
    | ResetFrameRendered  // the frame that starts the eased reset runs
    | TransitionEnded     // `transitionend` reaches the reset handler
    | FallbackElapsed     // the fallback timer (`transitionTimeoutId`) fires

  /** `tick`: advance by the speed; on reaching the overflow, snap to it and arm the reset race. */
  function Tick(st: ScrollState): (r: ScrollState)
    ensures Valid(st) && st.frameArmed ==> Valid(r) && r.shift <= Limit(st)
    ensures Valid(st) && st.frameArmed ==> (r.fallbackArmed <==> st.offset + ScrollSpeed >= Limit(st))
  {
    var offset := st.offset + ScrollSpeed;
    if offset >= Limit(st) then
      st.(shift := Limit(st), offset := 0, frameArmed := false,
          handlerAttached := true, fallbackArmed := true, resetFramePending := true)
    else
      st.(offset := offset, shift := offset, frameArmed := true)
  }

  /** `onTransitionEnd`: detach the listener, clear the fallback, arm one resume timer. */
  function ResetDone(st: ScrollState): ScrollState {
    st.(handlerAttached := false, fallbackArmed := false, holdArmed := true)
  }

  /**
   * The effect of one callback; a callback that is not pending never runs, so it changes
   * nothing. Every callback keeps the invariant.
   */
  function Step(st: ScrollState, ev: Event): (r: ScrollState)
    ensures Valid(st) ==> Valid(r)
    ensures r.overflow == st.overflow
  {
    match ev
    case HoldElapsed => if st.holdArmed then st.(holdArmed := false, frameArmed := true) else st
    case FrameRendered => if st.frameArmed then Tick(st) else st
    case ResetFrameRendered => if st.resetFramePending then st.(resetFramePending := false, shift := 0) else st
    case TransitionEnded => if st.handlerAttached && !st.resetFramePending then ResetDone(st) else st
    case FallbackElapsed => if st.fallbackArmed then ResetDone(st) else st
  }

  /** The state after a sequence of callbacks, in the order the browser runs them. */
  function Run(st: ScrollState, events: seq<Event>): ScrollState
    decreases |events|
  {
    if events == [] then st else Run(Step(st, events[0]), events[1..])
  }

  /**
   * Whatever the browser runs and in whatever order, one element never has more than one
   * cancellable callback pending and its text is never shifted past its overflow.
   */
  lemma {:induction false} RunPreservesValid(st: ScrollState, events: seq<Event>)
    requires Valid(st)
    ensures Valid(Run(st, events))
    ensures Run(st, events).overflow == st.overflow
    ensures 0 <= Run(st, events).shift <= Limit(st)
    decreases |events|
  {
    if events != [] {
      RunPreservesValid(Step(st, events[0]), events[1..]);
    }
  }

  /**
   * After the snap, whichever of the fallback timer and `transitionend` runs first disarms the
   * other and arms exactly one resume timer; the other then changes nothing.
   */
  lemma ResetRaceArmsOneResume(st: ScrollState)
    requires Valid(st) && st.fallbackArmed
    ensures var a := Step(st, FallbackElapsed);
      && a.holdArmed && !a.frameArmed && !a.fallbackArmed && !a.handlerAttached
      && Step(a, TransitionEnded) == a && Step(a, FallbackElapsed) == a
    ensures !st.resetFramePending ==>
      var b := Step(st, TransitionEnded);
      && b.holdArmed && !b.frameArmed && !b.fallbackArmed && !b.handlerAttached
      && Step(b, TransitionEnded) == b && Step(b, FallbackElapsed) == b
  {
  }

  /** The state after `n` tick frames in a row. */
  function Frames(st: ScrollState, n: nat): ScrollState {
    if n == 0 then st else Step(Frames(st, n - 1), FrameRendered)
  }

  /** While below the overflow, each frame advances the text by exactly the speed. */
  lemma {:induction false} FramesAdvanceBySpeed(st: ScrollState, n: nat)
    requires Valid(st) && st.frameArmed
    requires st.offset + ScrollSpeed * n < Limit(st)
    ensures Frames(st, n) == if n == 0 then st
      else st.(offset := st.offset + ScrollSpeed * n, shift := st.offset + ScrollSpeed * n)
  {
    if n > 0 {
      FramesAdvanceBySpeed(st, n - 1);
    }
  }

  /**
   * The frame that would carry the offset to the overflow instead shows the text shifted by
   * exactly the overflow, resets the offset and arms the reset race (listener, fallback, frame).
   */
  lemma FramesSnapAtOverflow(st: ScrollState, n: nat)
    requires Valid(st) && st.frameArmed
    requires st.offset + ScrollSpeed * n < Limit(st) <= st.offset + ScrollSpeed * (n + 1)
    ensures var s := Frames(st, n + 1);
      && s.shift == Limit(st) && s.offset == 0
      && !s.frameArmed && !s.holdArmed && s.fallbackArmed && s.handlerAttached && s.resetFramePending
  {
    FramesAdvanceBySpeed(st, n);
  }
}
