/**
 * The timed actuator sequencer of closer/closer.cpp as values: the five
 * controller globals and the two levels last written to the L298N inputs,
 * and the three ways the code updates them.
 */
module Actuator {
  import opened Clock

  /** How long the initialization branch drives the actuator, in milliseconds. */
  const INIT_DURATION: nat := 23000
  /** How long each of the two strokes of a closing cycle lasts, in milliseconds. */
  const STROKE_DURATION: nat := 20000

  /**
   * The controller's globals and the pin levels (`true` is HIGH): `in1` is the
   * level of IN1 (pin 25), `in2` that of IN2 (pin 26).
   */
  datatype State = State(
    isInitialized: bool,
    initStartTime: uint32,
    isDoorClosing: bool,
    extending: bool,
    doorCloseStartTime: uint32,
    in1: bool,
    in2: bool)

  /** The sequencer's phase, as the three flags encode it. */
  datatype Phase = Initializing | Ready | FirstStroke | SecondStroke

  function PhaseOf(s: State): Phase
  {
    if !s.isInitialized then Initializing
    else if !s.isDoorClosing then Ready
    else if s.extending then FirstStroke
    else SecondStroke
  }

  /** Both H-bridge inputs LOW: the actuator is stopped. */
  predicate Stopped(s: State)
  {
    !s.in1 && !s.in2
  }

  /**
   * What holds after every call of the controller's updates: a closing cycle
   * runs only after initialization, `extending` only during a cycle, the two
   * inputs are never both HIGH, and the actuator is stopped while ready.
   */
  predicate Consistent(s: State)
  {
    && (s.isDoorClosing ==> s.isInitialized)
    && (s.extending ==> s.isDoorClosing)
    && !(s.in1 && s.in2)
    && (PhaseOf(s) == Ready ==> Stopped(s))
  }

  /**
   * What holds after every pass of the main loop: besides consistency, the
   * actuator is stopped exactly when the sequencer is ready.
   */
  predicate Settled(s: State)
  {
    Consistent(s) && (Stopped(s) <==> PhaseOf(s) == Ready)
  }

  /**
   * The globals' initial values followed by `setup()`, which reads the clock
   * once (`now`) and leaves IN1 LOW and IN2 HIGH.
   */
  function Initial(now: uint32): (s: State)
    ensures PhaseOf(s) == Initializing && s.initStartTime == now
    ensures !s.in1 && s.in2
    ensures !s.isDoorClosing && !s.extending && s.doorCloseStartTime == 0
    ensures Settled(s)
  {
    State(isInitialized := false, initStartTime := now,
          isDoorClosing := false, extending := false, doorCloseStartTime := 0,
          in1 := false, in2 := true)
  }

  /**
   * The initialization branch of `loop()`: drive IN1 HIGH and IN2 LOW, and
   * once 23000 ms have elapsed since `initStartTime`, stop and become ready.
   */
  function InitTick(s: State, now: uint32): (r: State)
    requires Consistent(s) && !s.isInitialized
    ensures Settled(r)
    ensures r.initStartTime == s.initStartTime && r.doorCloseStartTime == s.doorCloseStartTime
    ensures !r.isDoorClosing && !r.extending
    ensures Elapsed(now, s.initStartTime) < INIT_DURATION ==> PhaseOf(r) == Initializing && r.in1 && !r.in2
    ensures Elapsed(now, s.initStartTime) >= INIT_DURATION ==> PhaseOf(r) == Ready && Stopped(r)
  {
    var driven := s.(in1 := true, in2 := false);
    if Elapsed(now, s.initStartTime) >= INIT_DURATION then
      driven.(in1 := false, in2 := false, isInitialized := true)
    else
      driven
  }

  /**
   * `startDoorClosing()` called at clock reading `now`: ignored unless the
   * sequencer is ready; otherwise the first stroke begins at `now`, and
   * nothing else changes (the pins are left as they are).
   */
  function StartDoorClosing(s: State, now: uint32): (r: State)
    ensures PhaseOf(s) != Ready ==> r == s
    ensures PhaseOf(s) == Ready ==> PhaseOf(r) == FirstStroke && r.doorCloseStartTime == now
    ensures r.isInitialized == s.isInitialized && r.initStartTime == s.initStartTime
    ensures r.in1 == s.in1 && r.in2 == s.in2
    ensures Consistent(s) ==> Consistent(r)
  {
    if !s.isInitialized then s
    else if s.isDoorClosing then s
    else s.(isDoorClosing := true, extending := true, doorCloseStartTime := now)
  }

  /**
   * `controlLinearActuator()` called at clock reading `now`: nothing outside a
   * closing cycle; in the first stroke IN1 LOW and IN2 HIGH until 20000 ms
   * have elapsed, then the second stroke starts at `now`; in the second stroke
   * IN1 HIGH and IN2 LOW until 20000 ms have elapsed, then stop and be ready.
   */
  function ControlLinearActuator(s: State, now: uint32): (r: State)
    requires Consistent(s)
    ensures Consistent(r)
    ensures r.isInitialized == s.isInitialized && r.initStartTime == s.initStartTime
    ensures PhaseOf(s) == Initializing || PhaseOf(s) == Ready ==> r == s
    ensures PhaseOf(s) == FirstStroke ==>
      && !r.in1 && r.in2
      && (Elapsed(now, s.doorCloseStartTime) < STROKE_DURATION ==>
            PhaseOf(r) == FirstStroke && r.doorCloseStartTime == s.doorCloseStartTime)
      && (Elapsed(now, s.doorCloseStartTime) >= STROKE_DURATION ==>
            PhaseOf(r) == SecondStroke && r.doorCloseStartTime == now)
    ensures PhaseOf(s) == SecondStroke ==>
      && (Elapsed(now, s.doorCloseStartTime) < STROKE_DURATION ==>
            PhaseOf(r) == SecondStroke && r.doorCloseStartTime == s.doorCloseStartTime && r.in1 && !r.in2)
      && (Elapsed(now, s.doorCloseStartTime) >= STROKE_DURATION ==>
            PhaseOf(r) == Ready && Stopped(r) && r.doorCloseStartTime == s.doorCloseStartTime)
  {
    if !s.isDoorClosing then s
    else
      var elapsed := Elapsed(now, s.doorCloseStartTime);
      if s.extending then
        var driven := s.(in1 := false, in2 := true);
        if elapsed >= STROKE_DURATION then
          driven.(extending := false, doorCloseStartTime := now)
        else
          driven
      else
        var driven := s.(in1 := true, in2 := false);
        if elapsed >= STROKE_DURATION then
          driven.(in1 := false, in2 := false, isDoorClosing := false)
        else
          driven
  }

  /** A second trigger during a cycle is ignored, so it cannot move the stroke's clock. */
  lemma StartDoorClosingIdempotent(s: State, t: uint32, t': uint32)
    ensures StartDoorClosing(StartDoorClosing(s, t), t') == StartDoorClosing(s, t)
  {
  }

  /**
   * Within a stroke, polling more often changes nothing: a tick at `t` followed
   * by one at a later `t'` of the same stroke ends where the tick at `t'` alone does.
   */
  lemma ControlIdempotentWithinStroke(s: State, t: uint32, t': uint32)
    requires Consistent(s) && s.isDoorClosing
    requires Elapsed(t, s.doorCloseStartTime) < STROKE_DURATION
    requires Elapsed(t', s.doorCloseStartTime) < STROKE_DURATION
    ensures ControlLinearActuator(ControlLinearActuator(s, t), t') == ControlLinearActuator(s, t')
  {
  }
}
