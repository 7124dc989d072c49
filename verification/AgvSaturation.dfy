/** A blocked wheel inside the controller: the saturation theorems of module WheelMotor hold of the
    calls the control loop makes, in trace mode too. */
module AgvSaturation {
  import Seqs
  import opened Clock
  import opened Schedule
  import opened AgvModel
  import M = WheelMotor
  import W = WheelModel
  import LineTracer

  lemma {:induction false} CallsAppend(a: Agv, side: Side, x: seq<Event>, y: seq<Event>)
    ensures Calls(a, side, x + y) == Calls(a, side, x) + Calls(Run(a, x), side, y)
    decreases |y|
  {
    if y == [] {
      Seqs.EmptyConcat(x);
      Seqs.EmptyConcat(Calls(a, side, x));
    } else {
      var init, e := y[..|y| - 1], y[|y| - 1];
      Seqs.InitOfConcat(x, y);
      CallsAppend(a, side, x, init);
      RunAppend(a, x, init);
      Seqs.Assoc(Calls(a, side, x), Calls(Run(a, x), side, init), CallsOf(Run(Run(a, x), init), side, e));
    }
  }

  /** In any run of the controller, once the calls it makes on a wheel have kept a constant positive
      error e, and Ki, for n control ticks whose integral terms add up to 255, and then for 17 motor
      updates more, that wheel is at full duty. */
  lemma WheelSaturates(boot: nat, side: Side, before: seq<Event>, ticks: seq<Event>, more: seq<Event>, a: Agv, b: Agv,
                       e: real, dtMillis: nat, inc: real)
    requires a == Run(Boot(boot), before) && b == Run(a, ticks)
    requires M.Adds(WheelOf(a, side).drv.ki, e, dtMillis, inc)
    requires M.SteadyRun(WheelOf(a, side), Calls(a, side, ticks), e, dtMillis)
    requires M.SteadyRun(WheelOf(b, side), Calls(b, side, more), e, dtMillis)
    requires M.Times(M.Follows(Calls(a, side, ticks)), inc) >= 255.0 && M.Motors(Calls(b, side, more)) >= 17
    ensures WheelOf(b, side).drv.dutyTgt == W.DUTY_MAX && WheelOf(Run(b, more), side).drv.dutyCur == W.DUTY_MAX
  {
    WheelsRunTheirCalls(Boot(boot), side, before);
    M.EveryStateIsBounded(Calls(Boot(boot), side, before));
    WheelsRunTheirCalls(a, side, ticks);
    WheelsRunTheirCalls(b, side, more);
    M.SaturatesUnderConstantError(WheelOf(a, side), Calls(a, side, ticks), Calls(b, side, more), e, dtMillis, inc);
  }

  // ---------- a blocked AGV in trace mode ----------

  /** One control tick and the motor update after it. */
  function TraceRound(us: nat): seq<Event> {
    [Con(us), Fine(us)]
  }

  /** n of them, 20 ms apart. */
  function TraceRounds(n: nat): seq<Event> {
    if n == 0 then [] else TraceRounds(n - 1) + TraceRound(20000 * n)
  }

  /** Tracing straight ahead with the way clear, n rounds after the clocks started. */
  predicate Straight(a: Agv, n: nat) {
    && a.drivemode == 1 && !a.onobstacle && a.tracer.policy == LineTracer.Policy.Straight
    && a.lastCon == Millis(20000 * n) == a.lastFine
  }

  lemma RoundIsDue(n: nat)
    ensures Since(Millis(20000 * (n + 1)), Millis(20000 * n)) == 20
  {
    SinceIsElapsed(20 * n, 20 * (n + 1));
    assert Ms(20000 * n) == 20 * n && Ms(20000 * (n + 1)) == 20 * (n + 1);
  }

  lemma ConKeepsStraight(a: Agv, us: nat)
    requires a.drivemode == 1 && !a.onobstacle && Due(a.lastCon, CON_PERIOD, us)
    ensures var b := Do(a, Con(us));
            b.drivemode == 1 && !b.onobstacle && b.tracer == a.tracer && b.lastCon == Millis(us)
              && b.lastFine == a.lastFine
  {
  }

  lemma FineKeepsStraight(a: Agv, us: nat)
    requires Due(a.lastFine, FINE_PERIOD, us)
    ensures var b := Do(a, Fine(us));
            b.drivemode == a.drivemode && b.onobstacle == a.onobstacle && b.tracer == a.tracer
            && b.lastCon == a.lastCon && b.lastFine == Millis(us)
  {
  }

  lemma TwoEvents(a: Agv, side: Side, e: Event, f: Event)
    ensures Run(a, [e, f]) == Do(Do(a, e), f)
    ensures Calls(a, side, [e, f]) == CallsOf(a, side, e) + CallsOf(Do(a, e), side, f)
  {
    assert [e, f][..1] == [e] && [e][..0] == [];
    OneEvent(a, e);
    assert Calls(a, side, [e]) == [] + CallsOf(a, side, e) == CallsOf(a, side, e);
  }

  lemma TraceRoundCalls(a: Agv, side: Side, n: nat)
    requires Straight(a, n)
    ensures Straight(Run(a, TraceRound(20000 * (n + 1))), n + 1)
    ensures Calls(a, side, TraceRound(20000 * (n + 1))) == M.Round(20000 * (n + 1))
  {
    var us := 20000 * (n + 1);
    RoundIsDue(n);
    TwoEvents(a, side, Con(us), Fine(us));
    ConKeepsStraight(a, us);
    FineKeepsStraight(Do(a, Con(us)), us);
    ConCallsAre(a, side, us);
    assert CallsOf(Do(a, Con(us)), side, Fine(us)) == [W.Timed(W.DriveMotor, us)];
  }

  lemma ConCallsAre(a: Agv, side: Side, us: nat)
    requires a.drivemode == 1 && !a.onobstacle && a.tracer.policy == LineTracer.Policy.Straight
    requires Since(Millis(us), a.lastCon) == 20
    ensures CallsOf(a, side, Con(us)) ==
            [W.Timed(W.SetTargetRpm(90.0), us), W.Timed(W.UpdateRpm, us), W.Timed(W.FollowRpm(20), us)]
  {
  }

  /** The run traces straight ahead for n rounds and makes these calls on one wheel. */
  predicate Traces(a: Agv, side: Side, events: seq<Event>, n: nat, calls: seq<W.Timed>) {
    Straight(Run(a, events), n) && Calls(a, side, events) == calls
  }

  lemma OneRoundMore(a: Agv, side: Side, x: seq<Event>, n: nat, calls: seq<W.Timed>, after: seq<Event>)
    requires Traces(a, side, x, n, calls) && after == x + TraceRound(20000 * (n + 1))
    ensures Traces(a, side, after, n + 1, calls + M.Round(20000 * (n + 1)))
  {
    TraceRoundCalls(Run(a, x), side, n);
    RunAppend(a, x, TraceRound(20000 * (n + 1)));
    CallsAppend(a, side, x, TraceRound(20000 * (n + 1)));
  }

  lemma AtBoot(boot: nat, side: Side)
    ensures Traces(Boot(boot), side, [], 0, [])
  {
  }

  lemma RoundsUnfold(from: nat, n: nat)
    requires from == 0 && n > 0
    ensures M.Rounds(from, n) == M.Rounds(from, n - 1) + M.Round(20000 * n)
    ensures TraceRounds(n) == TraceRounds(n - 1) + TraceRound(20000 * n)
  {
  }

  /** The calls of the rounds are, for each wheel, the rounds of WheelMotor. */
  lemma {:induction false} TraceRoundsCalls(boot: nat, from: nat, side: Side, n: nat)
    requires from == 0
    ensures Traces(Boot(boot), side, TraceRounds(n), n, M.Rounds(from, n))
  {
    if n == 0 {
      AtBoot(boot, side);
    } else {
      TraceRoundsCalls(boot, from, side, n - 1);
      RoundsUnfold(from, n);
      OneRoundMore(Boot(boot), side, TraceRounds(n - 1), n - 1, M.Rounds(from, n - 1), TraceRounds(n));
    }
  }

  lemma WheelOfRounds(boot: nat, from: nat, side: Side, n: nat)
    requires from == 0
    ensures WheelOf(Run(Boot(boot), TraceRounds(n)), side) == W.Run(W.FRESH, M.Rounds(from, n))
  {
    TraceRoundsCalls(boot, from, side, n);
    WheelsRunTheirCalls(Boot(boot), side, TraceRounds(n));
  }

  /** An AGV held in place in trace mode, the way clear, has both wheels at full duty from the 82nd
      control tick on. */
  lemma BlockedAgvSaturates(boot: nat, side: Side, k: nat, m: nat, n: nat)
    requires k == 8 && m == 57 && n >= 17
    ensures WheelOf(Run(Boot(boot), TraceRounds(k + m + n)), side).drv.dutyCur == W.DUTY_MAX
  {
    WheelOfRounds(boot, 0, side, k + m + n);
    M.BlockedWheelSaturates(k, m, n);
  }
}
