/** The vblank throttle of `frame_finish`: anvil/src/udev.rs. */
module VblankThrottle {
  import opened Wrappers
  import opened Clocks

  type Token = nat

  /**
   * `last` and `token` are the surface's two fields. `sources` holds the throttle timers the
   * event loop knows, each with the presentation time it will report; `accepted` is a history.
   */
  datatype Surface = Surface(last: Option<Time>, token: Option<Token>, sources: map<Token, Time>, issued: nat,
                             accepted: seq<Time>)

  const NEW_SURFACE: Surface := Surface(None, None, map[], 0, [])

  /** The hardware timestamp, unless there is none or it is zero. */
  function HardwareTime(metadata: Option<Time>): Option<Time> {
    if metadata.Some? && metadata.value != ZERO then metadata else None
  }

  /** `taken` is the surface after `vblank_throttle_timer.take()`. */
  function TakeTimer(s: Surface): Surface {
    match s.token
    case None => s
    case Some(token) => s.(token := None, sources := s.sources - {token})
  }

  /** How much of the frame is still to come at `clock`. */
  function Remaining(last: Time, clock: Time, frame: Time): Time {
    Elapsed(Elapsed(last, clock), frame)
  }

  predicate Throttles(s: Surface, clock: Time, frame: Time) {
    s.last.Some? && Cmp(Remaining(s.last.value, clock, frame), Half(frame)) == Greater
  }

  /** Without a mode the frame ends nowhere; `now` is read when there is no hardware time. */
  function Finish(s: Surface, mode: Option<Time>, metadata: Option<Time>, now: Time): Surface {
    var s := TakeTimer(s);
    match mode
    case None => s
    case Some(frame) =>
      var tp := HardwareTime(metadata);
      var clock := if tp.Some? then tp.value else now;
      if Throttles(s, clock, frame) then
        var remaining := Remaining(s.last.value, clock, frame);
        var throttledTime := if tp.Some? then Add(tp.value, remaining) else ZERO;
        s.(token := Some(s.issued), sources := s.sources[s.issued := throttledTime], issued := s.issued + 1)
      else s.(last := Some(clock), accepted := s.accepted + [clock])
  }

  /** A vblank from the hardware, or the pending throttle timer firing. */
  datatype Step = Vblank(mode: Option<Time>, metadata: Option<Time>, now: Time) | Fire(mode: Option<Time>, now: Time)

  function Apply(s: Surface, step: Step): Surface {
    match step
    case Vblank(mode, metadata, now) => Finish(s, mode, metadata, now)
    case Fire(mode, now) =>
      if s.token.Some? && s.token.value in s.sources
      then Finish(s, mode, Some(s.sources[s.token.value]), now)
      else s
  }

  function Run(s: Surface, steps: seq<Step>): Surface {
    if steps == [] then s else Apply(Run(s, steps[..|steps| - 1]), steps[|steps| - 1])
  }

  // ---- the imperative form --------------------------------------------------------------------

  class UdevSurface {
    var lastPresentationTime: Option<Time>
    var vblankThrottleTimer: Option<Token>
    /** The event loop's sources. */
    var sources: map<Token, Time>
    var issued: nat
    ghost var accepted: seq<Time>

    ghost function State(): Surface
      reads this
    {
      Surface(lastPresentationTime, vblankThrottleTimer, sources, issued, accepted)
    }

    constructor ()
      ensures State() == NEW_SURFACE
    {
      lastPresentationTime, vblankThrottleTimer, sources, issued, accepted := None, None, map[], 0, [];
    }

    method FrameFinish(mode: Option<Time>, metadata: Option<Time>, now: Time)
      modifies this
      ensures State() == Finish(old(State()), mode, metadata, now)
    {
      if vblankThrottleTimer.Some? {
        sources := sources - {vblankThrottleTimer.value};
        vblankThrottleTimer := None;
      }
      if mode.None? {
        return;
      }
      var frame := mode.value;
      var tp := if metadata.Some? && metadata.value != ZERO then metadata else None;
      var clock := if tp.Some? then tp.value else now;
      if lastPresentationTime.Some? {
        var remaining := Elapsed(Elapsed(lastPresentationTime.value, clock), frame);
        if Cmp(remaining, Half(frame)) == Greater {
          var throttledTime := if tp.Some? then Add(tp.value, remaining) else ZERO;
          sources := sources[issued := throttledTime];
          vblankThrottleTimer := Some(issued);
          issued := issued + 1;
          return;
        }
      }
      lastPresentationTime := Some(clock);
      accepted := accepted + [clock];
    }
  }

  // ---- the invariant --------------------------------------------------------------------------

  ghost predicate Spaced(accepted: seq<Time>, gap: int) {
    forall i, j :: 0 <= i && j == i + 1 && j < |accepted| ==> Nanos(accepted[j]) >= Nanos(accepted[i]) + gap
  }

  ghost predicate Inv(s: Surface, frame: Time) {
    && s.last == (if s.accepted == [] then None else Some(s.accepted[|s.accepted| - 1]))
    && s.sources.Keys == (if s.token.Some? then {s.token.value} else {})
    && (s.token.Some? ==> s.token.value < s.issued)
    && Spaced(s.accepted, Nanos(frame) - Nanos(frame) / 2)
  }

  /** The mode never changes while there is one. */
  predicate FixedFrame(step: Step, frame: Time) {
    step.mode == None || step.mode == Some(frame)
  }

  /** A vblank is throttled exactly while more than half a frame is to come. */
  lemma ThrottlesIff(s: Surface, clock: Time, frame: Time)
    ensures Throttles(s, clock, frame) <==>
            s.last.Some? && Nanos(frame) > 0
            && Nanos(frame) - (if Nanos(clock) > Nanos(s.last.value) then Nanos(clock) - Nanos(s.last.value) else 0)
               > Nanos(frame) / 2
  {
    if s.last.Some? {
      ElapsedRefines(s.last.value, clock);
      ElapsedRefines(Elapsed(s.last.value, clock), frame);
      HalfRefines(frame);
      CmpRefines(Remaining(s.last.value, clock, frame), Half(frame));
    }
  }

  lemma TakeTimerKeeps(s: Surface, frame: Time)
    requires Inv(s, frame)
    ensures Inv(TakeTimer(s), frame) && TakeTimer(s).sources == map[]
    ensures TakeTimer(s).last == s.last && TakeTimer(s).accepted == s.accepted
  {
    assert TakeTimer(s).sources.Keys == {};
  }

  lemma AcceptKeeps(s: Surface, frame: Time, clock: Time)
    requires Inv(s, frame) && Nanos(frame) > 0 && s.token.None? && !Throttles(s, clock, frame)
    ensures Inv(s.(last := Some(clock), accepted := s.accepted + [clock]), frame)
  {
    ThrottlesIff(s, clock, frame);
  }

  lemma FinishKeeps(s: Surface, mode: Option<Time>, metadata: Option<Time>, now: Time, frame: Time)
    requires Inv(s, frame) && Nanos(frame) > 0 && (mode == None || mode == Some(frame))
    ensures Inv(Finish(s, mode, metadata, now), frame)
  {
    TakeTimerKeeps(s, frame);
    if mode.Some? {
      var tp := HardwareTime(metadata);
      var clock := if tp.Some? then tp.value else now;
      if !Throttles(TakeTimer(s), clock, frame) {
        AcceptKeeps(TakeTimer(s), frame, clock);
      }
    }
  }

  /** At a fixed frame duration, every run keeps the invariant. */
  lemma {:induction false} RunKeeps(steps: seq<Step>, frame: Time)
    requires Nanos(frame) > 0 && forall k :: 0 <= k < |steps| ==> FixedFrame(steps[k], frame)
    ensures Inv(Run(NEW_SURFACE, steps), frame)
  {
    if steps != [] {
      var n := |steps| - 1;
      var s := Run(NEW_SURFACE, steps[..n]);
      RunKeeps(steps[..n], frame);
      assert FixedFrame(steps[n], frame);
      match steps[n]
      case Vblank(mode, metadata, now) => FinishKeeps(s, mode, metadata, now, frame);
      case Fire(mode, now) =>
        if s.token.Some? { FinishKeeps(s, mode, Some(s.sources[s.token.value]), now, frame); }
    }
  }

  lemma {:induction false} SpacedOver(accepted: seq<Time>, gap: int, i: nat, j: nat)
    requires Spaced(accepted, gap) && gap > 0 && i < j < |accepted|
    ensures Nanos(accepted[j]) >= Nanos(accepted[i]) + gap
    decreases j
  {
    assert Nanos(accepted[j]) >= Nanos(accepted[j - 1]) + gap;
    if i < j - 1 {
      SpacedOver(accepted, gap, i, j - 1);
    }
  }

  /** Accepted presentation times strictly increase, by no less than half a frame rounded up. */
  lemma AcceptedSpacing(steps: seq<Step>, frame: Time, i: nat, j: nat)
    requires Nanos(frame) > 0 && forall k :: 0 <= k < |steps| ==> FixedFrame(steps[k], frame)
    requires i < j < |Run(NEW_SURFACE, steps).accepted|
    ensures var accepted := Run(NEW_SURFACE, steps).accepted;
            && Cmp(accepted[i], accepted[j]) == Less
            && Nanos(accepted[j]) - Nanos(accepted[i]) >= Nanos(frame) - Nanos(frame) / 2 > 0
  {
    var accepted := Run(NEW_SURFACE, steps).accepted;
    RunKeeps(steps, frame);
    SpacedOver(accepted, Nanos(frame) - Nanos(frame) / 2, i, j);
    CmpRefines(accepted[i], accepted[j]);
  }

  /** At most one throttle timer is pending, and it is the one the surface remembers. */
  lemma {:induction false} OneTimerPending(steps: seq<Step>, frame: Time)
    requires Nanos(frame) > 0 && forall k :: 0 <= k < |steps| ==> FixedFrame(steps[k], frame)
    ensures var s := Run(NEW_SURFACE, steps);
            s.sources.Keys == (if s.token.Some? then {s.token.value} else {}) && |s.sources| <= 1
  {
    RunKeeps(steps, frame);
    var s := Run(NEW_SURFACE, steps);
    assert |s.sources| == |s.sources.Keys|;
  }

  /**
   * A hardware vblank not before the last accepted time that gets throttled is accepted, when its
   * timer fires next, at exactly one frame after that time.
   */
  lemma {:induction false} ThrottledAcceptedOneFrameLater(
    steps: seq<Step>, frame: Time, tp: Time, now: Time, later: Time)
    requires Nanos(frame) > 0 && forall k :: 0 <= k < |steps| ==> FixedFrame(steps[k], frame)
    requires tp != ZERO
    requires var s := Run(NEW_SURFACE, steps);
             s.last.Some? && Nanos(s.last.value) <= Nanos(tp) && Throttles(s, tp, frame)
    ensures var s := Run(NEW_SURFACE, steps);
            var throttled := Apply(s, Vblank(Some(frame), Some(tp), now));
            var fired := Apply(throttled, Fire(Some(frame), later));
            && throttled.accepted == s.accepted && throttled.token.Some?
            && fired.accepted == s.accepted + [Add(s.last.value, frame)] && fired.token.None?
  {
    var s := Run(NEW_SURFACE, steps);
    var last := s.last.value;
    var remaining := Remaining(last, tp, frame);
    RunKeeps(steps, frame);
    ThrottlesIff(s, tp, frame);
    ElapsedRefines(last, tp);
    ElapsedRefines(Elapsed(last, tp), frame);
    AddRefines(tp, remaining);
    AddRefines(last, frame);
    NanosInjective(Add(tp, remaining), Add(last, frame));
    var throttled := Apply(s, Vblank(Some(frame), Some(tp), now));
    assert throttled.sources[throttled.token.value] == Add(last, frame) != ZERO;
    ThrottlesIff(TakeTimer(throttled), Add(last, frame), frame);
  }

  // ---- what each vblank does ----------------------------------------------------------------------

  /** The time a vblank is at: that of the hardware, unless there is none or it is zero. */
  function ClockOf(hardware: Option<Time>, now: Time): Time {
    if hardware.Some? && Nanos(hardware.value) > 0 then hardware.value else now
  }

  /** Nothing was accepted yet, or at most half of a frame is to come since the last accepted time. */
  predicate Due(accepted: seq<Time>, clock: Time, frame: Time) {
    accepted == []
    || (var last := Nanos(accepted[|accepted| - 1]);
        Nanos(frame) - (if Nanos(clock) > last then Nanos(clock) - last else 0) <= Nanos(frame) / 2)
  }

  /** `clock` joined the accepted times and no timer is pending, or one is and nothing was accepted. */
  predicate Outcome(s: Surface, s': Surface, clock: Time, accepts: bool) {
    if accepts then s'.accepted == s.accepted + [clock] && s'.token == None && s'.sources == map[]
    else s'.accepted == s.accepted && s'.token.Some? && s'.sources.Keys == {s'.token.value}
  }

  lemma FinishOutcome(s: Surface, hardware: Option<Time>, now: Time, frame: Time)
    requires Inv(s, frame) && Nanos(frame) > 0
    ensures var clock := ClockOf(hardware, now);
            Outcome(s, Finish(s, Some(frame), hardware, now), clock, Due(s.accepted, clock, frame))
  {
    var clock := ClockOf(hardware, now);
    TakeTimerKeeps(s, frame);
    if hardware.Some? && Nanos(hardware.value) == 0 {
      NanosInjective(hardware.value, ZERO);
    }
    ThrottlesIff(TakeTimer(s), clock, frame);
  }

  /**
   * Over every run at a fixed frame duration, a vblank is accepted, at its clock, exactly if it is due;
   * else nothing is accepted and one timer is left pending.
   */
  lemma {:induction false} VblankOutcome(steps: seq<Step>, frame: Time, hardware: Option<Time>, now: Time)
    requires Nanos(frame) > 0 && forall k :: 0 <= k < |steps| ==> FixedFrame(steps[k], frame)
    ensures var s, clock := Run(NEW_SURFACE, steps), ClockOf(hardware, now);
            Outcome(s, Apply(s, Vblank(Some(frame), hardware, now)), clock, Due(s.accepted, clock, frame))
  {
    RunKeeps(steps, frame);
    FinishOutcome(Run(NEW_SURFACE, steps), hardware, now, frame);
  }

  /** Without a mode a vblank only takes the timer away. */
  lemma {:induction false} NoModeOutcome(steps: seq<Step>, frame: Time, hardware: Option<Time>, now: Time)
    requires Nanos(frame) > 0 && forall k :: 0 <= k < |steps| ==> FixedFrame(steps[k], frame)
    ensures var s := Run(NEW_SURFACE, steps);
            var s' := Apply(s, Vblank(None, hardware, now));
            s'.accepted == s.accepted && s'.token == None && s'.sources == map[]
  {
    RunKeeps(steps, frame);
    TakeTimerKeeps(Run(NEW_SURFACE, steps), frame);
  }

  /** What is to come of the frame at `clock`, in nanoseconds. */
  function ToCome(accepted: seq<Time>, clock: Time, frame: Time): int
    requires accepted != []
  {
    var last := Nanos(accepted[|accepted| - 1]);
    Nanos(frame) - if Nanos(clock) > last then Nanos(clock) - last else 0
  }

  /**
   * When a vblank that was not due has its timer fire, that counts as a vblank at the hardware's time
   * put off by what was to come of the frame or, had the hardware given no time, at the time of firing.
   */
  lemma {:induction false} FireOutcome(
    steps: seq<Step>, frame: Time, hardware: Option<Time>, now: Time, later: Time) returns (clock: Time)
    requires Nanos(frame) > 0 && forall k :: 0 <= k < |steps| ==> FixedFrame(steps[k], frame)
    requires !Due(Run(NEW_SURFACE, steps).accepted, ClockOf(hardware, now), frame)
    ensures var accepted := Run(NEW_SURFACE, steps).accepted;
            if hardware.Some? && Nanos(hardware.value) > 0
            then Nanos(clock) == Nanos(hardware.value) + ToCome(accepted, hardware.value, frame)
            else clock == later
    ensures var s := Run(NEW_SURFACE, steps);
            var throttled := Apply(s, Vblank(Some(frame), hardware, now));
            Outcome(s, Apply(throttled, Fire(Some(frame), later)), clock, Due(s.accepted, clock, frame))
  {
    var s := Run(NEW_SURFACE, steps);
    var throttled := Apply(s, Vblank(Some(frame), hardware, now));
    RunKeeps(steps, frame);
    FinishOutcome(s, hardware, now, frame);
    FinishKeeps(s, Some(frame), hardware, now, frame);
    var fires := throttled.sources[throttled.token.value];
    FiresAt(s, hardware, now, frame);
    clock := ClockOf(Some(fires), later);
    FinishOutcome(throttled, Some(fires), later, frame);
  }

  lemma FiresAt(s: Surface, hardware: Option<Time>, now: Time, frame: Time)
    requires Inv(s, frame) && Nanos(frame) > 0 && !Due(s.accepted, ClockOf(hardware, now), frame)
    ensures var throttled := Finish(s, Some(frame), hardware, now);
            && throttled.token.Some? && throttled.token.value in throttled.sources
            && var fires := throttled.sources[throttled.token.value];
               if hardware.Some? && Nanos(hardware.value) > 0
               then Nanos(fires) == Nanos(hardware.value) + ToCome(s.accepted, hardware.value, frame) > 0
               else Nanos(fires) == 0
  {
    var clock, taken := ClockOf(hardware, now), TakeTimer(s);
    FinishOutcome(s, hardware, now, frame);
    TakeTimerKeeps(s, frame);
    if hardware.Some? && Nanos(hardware.value) == 0 {
      NanosInjective(hardware.value, ZERO);
    }
    ElapsedRefines(s.last.value, clock);
    ElapsedRefines(Elapsed(s.last.value, clock), frame);
    AddRefines(clock, Remaining(s.last.value, clock, frame));
  }
}
