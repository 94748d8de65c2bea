/**
 * One pass of `loop()` in closer/closer.cpp, and runs of many passes: the
 * initialization gate, the optional client, and the sequencer tick at the end.
 */
module MainLoop {
  import opened Clock
  import opened Actuator
  import opened Intake

  datatype Option<T> = None | Some(value: T)

  /**
   * One pass of `loop()`. While initializing, only the initialization branch
   * runs (no client is accepted); afterwards a waiting client, if any, is
   * served, and then `controlLinearActuator()` runs at clock reading `now`.
   * The result is the state the pass leaves and the client's outcome (no
   * response and no bytes read when no client was served).
   */
  function Loop(s: State, now: uint32, client: Option<seq<Received>>): (p: Outcome)
    requires Consistent(s)
    ensures Consistent(p.state)
    ensures Settled(s) ==> Settled(p.state)
    ensures p.state.initStartTime == s.initStartTime
    ensures s.isInitialized ==> p.state.isInitialized
    ensures !s.isInitialized ==> !p.responded && p.consumed == 0
    ensures !s.isInitialized ==> p.state == InitTick(s, now)
  {
    if !s.isInitialized then Outcome(InitTick(s, now), false, 0)
    else
      match client
      case None => Outcome(ControlLinearActuator(s, now), false, 0)
      case Some(input) =>
        var o := Serve(s, "", input);
        Outcome(ControlLinearActuator(o.state, now), o.responded, o.consumed)
  }

  /** One pass of the main loop: the clock reading it ticks at, and the client waiting, if any. */
  datatype Event = Event(now: uint32, client: Option<seq<Received>>)

  /** The state after a pass per event, in order. */
  function Run(s: State, events: seq<Event>): (r: State)
    requires Consistent(s)
    ensures Consistent(r)
    ensures Settled(s) ==> Settled(r)
    ensures r.initStartTime == s.initStartTime
    ensures s.isInitialized ==> r.isInitialized
    decreases |events|
  {
    if events == [] then s
    else
      var e := events[|events| - 1];
      Loop(Run(s, events[..|events| - 1]), e.now, e.client).state
  }

  /**
   * Initialization ends at the first pass whose clock reading is at least
   * 23000 ms (unsigned) after `initStartTime`, and not before; until then
   * every pass drives IN1 HIGH and IN2 LOW, whatever clients are waiting.
   */
  lemma {:induction false} InitializationGate(s: State, events: seq<Event>)
    requires Consistent(s) && !s.isInitialized
    ensures var r := Run(s, events);
      && (r.isInitialized <==>
            exists i :: 0 <= i < |events| && Elapsed(events[i].now, s.initStartTime) >= INIT_DURATION)
      && (!r.isInitialized && events != [] ==> r.in1 && !r.in2)
    decreases |events|
  {
    if events != [] {
      var n := |events| - 1;
      var prefix := events[..n];
      InitializationGate(s, prefix);
      var p := Run(s, prefix);
      assert forall i :: 0 <= i < n ==> prefix[i] == events[i];
      if p.isInitialized {
        var i :| 0 <= i < n && Elapsed(prefix[i].now, s.initStartTime) >= INIT_DURATION;
        assert Elapsed(events[i].now, s.initStartTime) >= INIT_DURATION;
      }
    }
  }

  /**
   * The pass that ends initialization leaves the sequencer ready with the
   * actuator stopped, and it is the only such pass: readiness is never lost
   * afterwards (`isInitialized` is never reset).
   */
  lemma {:induction false} InitializationCompletesOnce(s: State, events: seq<Event>, i: nat)
    requires Consistent(s) && !s.isInitialized
    requires i < |events| && Elapsed(events[i].now, s.initStartTime) >= INIT_DURATION
    requires forall j :: 0 <= j < i ==> Elapsed(events[j].now, s.initStartTime) < INIT_DURATION
    ensures var p := Run(s, events[..i + 1]); PhaseOf(p) == Ready && Stopped(p)
    ensures forall m :: i < m <= |events| ==> Run(s, events[..m]).isInitialized
    ensures forall m :: 0 <= m <= i ==> !Run(s, events[..m]).isInitialized
  {
    forall m | 0 <= m <= i ensures !Run(s, events[..m]).isInitialized {
      InitializationGate(s, events[..m]);
      assert forall j :: 0 <= j < m ==> events[..m][j] == events[j];
    }
    assert events[..i + 1][..i] == events[..i];
    forall m | i < m <= |events| ensures Run(s, events[..m]).isInitialized {
      InitializationGate(s, events[..m]);
      assert events[..m][i] == events[i];
    }
  }

  /**
   * Where a closing cycle that began at `t0` stands after a pass `last`
   * milliseconds into it, when every millisecond was polled.
   */
  predicate CycleAt(r: State, t0: uint32, last: nat)
  {
    && Consistent(r) && r.isInitialized
    && (last < STROKE_DURATION ==>
          PhaseOf(r) == FirstStroke && r.doorCloseStartTime == t0 && !r.in1 && r.in2)
    && (STROKE_DURATION <= last < 2 * STROKE_DURATION ==>
          PhaseOf(r) == SecondStroke && r.doorCloseStartTime == Wrap(t0 + STROKE_DURATION))
    && (STROKE_DURATION < last < 2 * STROKE_DURATION ==> r.in1 && !r.in2)
    && (last >= 2 * STROKE_DURATION ==> PhaseOf(r) == Ready && Stopped(r))
  }

  /** The pass that starts the cycle's polling, in its first stroke. */
  lemma CycleFirstPass(s: State, t0: uint32, off: nat, client: Option<seq<Received>>)
    requires Consistent(s) && PhaseOf(s) == FirstStroke && s.doorCloseStartTime == t0
    requires off < STROKE_DURATION
    ensures CycleAt(Loop(s, Wrap(t0 + off), client).state, t0, off)
  {
    ElapsedSince(t0, 0, off);
  }

  /**
   * A pass one millisecond (or zero) after the previous one moves the cycle on
   * as `CycleAt` says; a client during the cycle changes nothing.
   */
  lemma CycleNextPass(p: State, t0: uint32, lp: nat, off: nat, client: Option<seq<Received>>)
    requires CycleAt(p, t0, lp)
    requires lp <= off <= lp + 1 && off < WORD
    requires off >= 2 * STROKE_DURATION ==> client == None
    ensures CycleAt(Loop(p, Wrap(t0 + off), client).state, t0, off)
  {
    var q := match client case None => p case Some(input) => Serve(p, "", input).state;
    assert Loop(p, Wrap(t0 + off), client).state == ControlLinearActuator(q, Wrap(t0 + off));
    if lp < STROKE_DURATION {
      ElapsedSince(t0, 0, off);
    } else if lp < 2 * STROKE_DURATION {
      ElapsedSince(t0, STROKE_DURATION, off);
    }
  }

  /**
   * The passes `events` come at offsets `offs` (in milliseconds) after `t0`:
   * non-decreasing, never skipping a millisecond but possibly repeating one,
   * and with no client once the cycle has had time to finish.
   */
  predicate DenselyPolled(t0: uint32, events: seq<Event>, offs: seq<nat>)
  {
    && |offs| == |events|
    && (forall i :: 0 <= i < |events| ==> offs[i] < WORD && events[i].now == Wrap(t0 + offs[i]))
    && (forall i, j :: 0 <= i <= j < |offs| ==> offs[i] <= offs[j] <= offs[i] + (j - i))
    && (forall i :: 0 <= i < |events| && offs[i] >= 2 * STROKE_DURATION ==> events[i].client == None)
  }

  lemma DenselyPolledPrefix(t0: uint32, events: seq<Event>, offs: seq<nat>, n: nat)
    requires DenselyPolled(t0, events, offs) && n <= |events|
    ensures DenselyPolled(t0, events[..n], offs[..n])
  {
    assert forall i :: 0 <= i < n ==> events[..n][i] == events[i] && offs[..n][i] == offs[i];
  }

  /** The first pass of a densely polled cycle, as a run of one event. */
  lemma CycleFirstRun(s: State, t0: uint32, events: seq<Event>, offs: seq<nat>)
    requires Consistent(s) && PhaseOf(s) == FirstStroke && s.doorCloseStartTime == t0
    requires DenselyPolled(t0, events, offs)
    requires |events| == 1 && offs[0] < STROKE_DURATION
    ensures CycleAt(Run(s, events), t0, offs[0])
  {
    assert events[..0] == [];
    assert Run(s, events) == Loop(s, events[0].now, events[0].client).state;
    CycleFirstPass(s, t0, offs[0], events[0].client);
  }

  /** The last pass of a densely polled run moves the cycle on from where the others left it. */
  lemma CycleNextRun(s: State, t0: uint32, events: seq<Event>, lp: nat, off: nat)
    requires Consistent(s) && |events| > 1
    requires lp <= off <= lp + 1 && off < WORD
    requires events[|events| - 1].now == Wrap(t0 + off)
    requires off >= 2 * STROKE_DURATION ==> events[|events| - 1].client == None
    requires CycleAt(Run(s, events[..|events| - 1]), t0, lp)
    ensures CycleAt(Run(s, events), t0, off)
  {
    var n := |events| - 1;
    var p := Run(s, events[..n]);
    assert Run(s, events) == Loop(p, events[n].now, events[n].client).state;
    CycleNextPass(p, t0, lp, off, events[n].client);
  }

  /**
   * The closing cycle under dense polling, with clients arriving at any point
   * of it: the first stroke lasts until offset 20000 with IN1 LOW and IN2 HIGH,
   * the second stroke starts exactly at offset 20000 and drives IN1 HIGH and
   * IN2 LOW, and the sequencer is ready with the actuator stopped from offset
   * 40000 on. A cycle takes exactly 40000 ms, however many extra ticks or
   * requests occur, and a request during the cycle never moves its clock.
   */
  lemma {:induction false} ClosingCycleTiming(s: State, t0: uint32, events: seq<Event>, offs: seq<nat>)
    requires Consistent(s) && PhaseOf(s) == FirstStroke && s.doorCloseStartTime == t0
    requires DenselyPolled(t0, events, offs)
    requires |events| > 0 && offs[0] < STROKE_DURATION
    ensures CycleAt(Run(s, events), t0, offs[|offs| - 1])
    decreases |events|
  {
    var n := |events| - 1;
    if n == 0 {
      CycleFirstRun(s, t0, events, offs);
    } else {
      DenselyPolledPrefix(t0, events, offs, n);
      ClosingCycleTiming(s, t0, events[..n], offs[..n]);
      assert offs[n - 1] <= offs[n] <= offs[n - 1] + 1;
      CycleNextRun(s, t0, events, offs[n - 1], offs[n]);
    }
  }
}
