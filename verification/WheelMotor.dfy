/** What the motor output of a wheel does over whole runs: bounds, coasting, reversed targets, and
    saturation under a constant error. */
module WheelMotor {
  import Seqs
  import opened Clock
  import opened WheelModel

  // ---------- bounds in every reachable state ----------

  predicate Bounded(d: Drive) {
    && 0 <= d.dutyCur <= DUTY_MAX && 0 <= d.dutyTgt <= DUTY_MAX && 0.0 <= d.dutyComp <= 255.0
    && d.dirEst == 1 && d.dirTgt in {-1, 0, 1}
    && d.rpmTgt >= 0.0 && (d.rpmTgt == 0.0 <==> d.dirTgt == 0)
    && (d.startupActive ==> d.dirTgt != 0)
    && (d.pin1 == 0 || d.pin2 == 0) && 0 <= d.pin1 <= DUTY_MAX && 0 <= d.pin2 <= STARTUP_DUTY
  }

  lemma RampKeepsBounds(d: Drive, rpmEst: real)
    requires Bounded(d) && !d.startupActive
    ensures Bounded(Ramp(d, rpmEst))
    ensures Ramp(d, rpmEst).dutyCur <= d.dutyCur + RAMP_UP_RATE
  {
  }

  lemma UpdateMotorKeepsBounds(d: Drive, rpmEst: real, us: nat)
    requires Bounded(d)
    ensures Bounded(UpdateMotor(d, rpmEst, us))
  {
    if !d.startupActive {
      RampKeepsBounds(d, rpmEst);
    } else if !(Since(Millis(us), d.startupStartedMs) < STARTUP_PULSE_MS) {
      RampKeepsBounds(d.(startupActive := false, dutyCur := RUNNING_MINIMUM_DUTY, dutyTgt := RUNNING_MINIMUM_DUTY,
                         dutyComp := RUNNING_MINIMUM_DUTY as real), rpmEst);
    }
  }

  lemma DoKeepsBounds(w: State, call: Call, us: nat)
    requires Bounded(w.drv)
    ensures Bounded(Do(w, call, us).drv)
  {
    if call.DriveMotor? {
      UpdateMotorKeepsBounds(w.drv, w.est.rpmEst, us);
    }
  }

  /** In every state reached by any calls in any order: duties in 0..255, at most one motor pin
      driven, and signed power in -100..255. */
  lemma {:induction false} EveryStateIsBounded(calls: seq<Timed>)
    ensures Bounded(Run(FRESH, calls).drv)
    ensures -STARTUP_DUTY <= Power(Run(FRESH, calls).drv) <= DUTY_MAX
  {
    if calls != [] {
      EveryStateIsBounded(calls[..|calls| - 1]);
      DoKeepsBounds(Run(FRESH, calls[..|calls| - 1]), calls[|calls| - 1].call, calls[|calls| - 1].us);
    }
  }

  /** Outside a startup pulse the duty rises by at most 15 in one updateMotor. */
  lemma DutyRisesSlowly(calls: seq<Timed>, us: nat)
    requires !Run(FRESH, calls).drv.startupActive
    ensures Do(Run(FRESH, calls), DriveMotor, us).drv.dutyCur <= Run(FRESH, calls).drv.dutyCur + RAMP_UP_RATE
  {
    EveryStateIsBounded(calls);
    RampKeepsBounds(Run(FRESH, calls).drv, Run(FRESH, calls).est.rpmEst);
  }

  // ---------- coasting to a stop ----------

  /** A call that leaves the target at zero. */
  predicate KeepsZeroTarget(call: Call) {
    call.SetTargetRpm? ==> call.rpm == 0.0
  }

  function Max(a: int, b: int): int {
    if a > b then a else b
  }

  function Motors(calls: seq<Timed>): nat {
    if calls == [] then 0
    else Motors(calls[..|calls| - 1]) + if calls[|calls| - 1].call.DriveMotor? then 1 else 0
  }

  /** After k updateMotor calls with the target at zero. */
  predicate Coasting(d: Drive, k: nat) {
    && Bounded(d) && d.rpmTgt == 0.0 && d.dirTgt == 0 && !d.startupActive
    && d.dutyCur <= Max(9, DUTY_MAX - RAMP_DOWN_RATE * k)
    && (k >= 1 ==>
          0 <= Power(d) <= d.dutyCur && Power(d) <= Max(0, DUTY_MAX - RAMP_DOWN_RATE * k)
          && (Power(d) == d.dutyCur || (Power(d) == 0 && d.dutyCur < 10)))
  }

  lemma CoastingStep(w: State, call: Call, us: nat, k: nat)
    requires Coasting(w.drv, k) && KeepsZeroTarget(call)
    ensures Coasting(Do(w, call, us).drv, if call.DriveMotor? then k + 1 else k)
    ensures k >= 1 ==> Power(Do(w, call, us).drv) <= Power(w.drv)
  {
    DoKeepsBounds(w, call, us);
  }

  lemma {:induction false} CoastingRun(w: State, us: nat, calls: seq<Timed>)
    requires Bounded(w.drv)
    requires forall i :: 0 <= i < |calls| ==> KeepsZeroTarget(calls[i].call)
    ensures Coasting(Run(Do(w, SetTargetRpm(0.0), us), calls).drv, Motors(calls))
  {
    if calls != [] {
      var init, last := calls[..|calls| - 1], calls[|calls| - 1];
      CoastingRun(w, us, init);
      CoastingStep(Run(Do(w, SetTargetRpm(0.0), us), init), last.call, last.us, Motors(init));
    }
  }

  /** After setTargetRPM(0), as long as the target stays 0, the output no longer rises from the
      first updateMotor on, is never negative, and is 0 from the fourth updateMotor on. */
  lemma CoastsToZero(w: State, us: nat, calls: seq<Timed>, next: Timed)
    requires Bounded(w.drv)
    requires forall i :: 0 <= i < |calls| ==> KeepsZeroTarget(calls[i].call)
    requires KeepsZeroTarget(next.call) && Motors(calls) >= 1
    ensures var s := Run(Do(w, SetTargetRpm(0.0), us), calls);
            0 <= Power(Do(s, next.call, next.us).drv) <= Power(s.drv)
            && (Motors(calls) >= 4 ==> Power(s.drv) == 0)
  {
    CoastingRun(w, us, calls);
    var s := Run(Do(w, SetTargetRpm(0.0), us), calls);
    CoastingStep(s, next.call, next.us, Motors(calls));
  }

  /** What the pins carry: the duty, the reversed duty, or nothing once the duty is below 10. */
  predicate OutputIsDuty(d: Drive) {
    Power(d) == d.dutyCur || Power(d) == -d.dutyCur || (Power(d) == 0 && d.dutyCur < 10)
  }

  lemma RampKeepsOutput(d: Drive, rpmEst: real)
    requires Bounded(d) && !d.startupActive
    ensures OutputIsDuty(Ramp(d, rpmEst))
  {
  }

  lemma UpdateMotorKeepsOutput(d: Drive, rpmEst: real, us: nat)
    requires Bounded(d)
    ensures OutputIsDuty(UpdateMotor(d, rpmEst, us))
  {
    if !d.startupActive {
      RampKeepsOutput(d, rpmEst);
    } else if !(Since(Millis(us), d.startupStartedMs) < STARTUP_PULSE_MS) {
      RampKeepsOutput(d.(startupActive := false, dutyCur := RUNNING_MINIMUM_DUTY, dutyTgt := RUNNING_MINIMUM_DUTY,
                         dutyComp := RUNNING_MINIMUM_DUTY as real), rpmEst);
    }
  }

  lemma OtherCallsKeepOutput(w: State, call: Call, us: nat)
    requires !call.DriveMotor? && !call.StopWheel?
    ensures var d := Do(w, call, us).drv; d.dutyCur == w.drv.dutyCur && d.pin1 == w.drv.pin1 && d.pin2 == w.drv.pin2
  {
  }

  lemma DoKeepsOutput(w: State, call: Call, us: nat)
    requires Bounded(w.drv) && OutputIsDuty(w.drv)
    ensures OutputIsDuty(Do(w, call, us).drv)
  {
    if call.DriveMotor? {
      UpdateMotorKeepsOutput(w.drv, w.est.rpmEst, us);
    } else if !call.StopWheel? {
      OtherCallsKeepOutput(w, call, us);
    }
  }

  lemma {:induction false} EveryOutputIsDuty(calls: seq<Timed>)
    ensures OutputIsDuty(Run(FRESH, calls).drv)
  {
    if calls != [] {
      EveryStateIsBounded(calls[..|calls| - 1]);
      EveryOutputIsDuty(calls[..|calls| - 1]);
      DoKeepsOutput(Run(FRESH, calls[..|calls| - 1]), calls[|calls| - 1].call, calls[|calls| - 1].us);
    }
  }

  function Magnitude(power: int): nat {
    if power < 0 then -power else power
  }

  /** In every reachable state with a zero target, updateMotor never raises the magnitude of the
      output; the signed output does not rise exactly when it was not negative. */
  lemma ZeroTargetNeverSpeedsUp(calls: seq<Timed>, us: nat)
    requires Run(FRESH, calls).drv.rpmTgt == 0.0
    ensures var before, after := Power(Run(FRESH, calls).drv), Power(Do(Run(FRESH, calls), DriveMotor, us).drv);
            Magnitude(after) <= Magnitude(before) && (after <= before <==> before >= 0)
  {
    EveryStateIsBounded(calls);
    EveryOutputIsDuty(calls);
    ZeroTargetStep(Run(FRESH, calls), us);
  }

  lemma ZeroTargetStep(w: State, us: nat)
    requires Bounded(w.drv) && OutputIsDuty(w.drv) && w.drv.rpmTgt == 0.0
    ensures var before, after := Power(w.drv), Power(Do(w, DriveMotor, us).drv);
            Magnitude(after) <= Magnitude(before) && (after <= before <==> before >= 0)
  {
  }

  /** So the first updateMotor may raise a negative output: a reversed startup pulse drives the wheel
      at -100, and the next updateMotor after setTargetRPM(0) drives it at +25. */
  lemma FirstCoastCanFlipSign()
    ensures exists calls: seq<Timed> ::
              var s := Run(FRESH, calls);
              Power(s.drv) == -100
              && Power(Do(Do(s, SetTargetRpm(0.0), 2000), DriveMotor, 2000).drv) == 25
  {
    var calls := [Timed(SetTargetRpm(90.0), 1000), Timed(SetTargetRpm(-90.0), 1000), Timed(DriveMotor, 1000)];
    assert calls[..0] == [];
    RunStep(FRESH, calls, 0);
    RunStep(FRESH, calls, 1);
    RunStep(FRESH, calls, 2);
    assert calls[..3] == calls;
    var s := Run(FRESH, calls);
    assert Power(s.drv) == -100 && s.drv.dutyCur == 100;
  }

  // ---------- saturation under a constant error ----------

  /** A forward wheel out of its startup pulse, whose error has been e for two ticks and whose RPM
      for three. */
  predicate ConstantError(w: State, e: real) {
    && !w.drv.startupActive && w.drv.rpmTgt > 0.0 && w.drv.dirTgt == 1
    && w.est.rpmEst == w.est.rpmPrev == w.est.rpmPp
    && w.drv.rpmTgt - w.est.rpmEst == e == w.drv.errPrev
  }

  /** Any call at all, except that every control tick has one fixed length and Ki stays as it is. */
  predicate LoopCall(call: Call, dtMillis: nat, ki: real) {
    (call.FollowRpm? ==> call.dtMillis == dtMillis) && (call.SetPid? ==> call.i == ki)
  }

  function Follows(calls: seq<Timed>): nat {
    if calls == [] then 0
    else Follows(calls[..|calls| - 1]) + if calls[|calls| - 1].call.FollowRpm? then 1 else 0
  }

  /** The integral term of one control tick. */
  function Increment(ki: real, e: real, dtMillis: nat): real
    requires dtMillis > 0
  {
    MinReal(I_LIMIT, IntegralTerm(ki, e, Seconds(dtMillis)))
  }

  lemma FollowAddsIncrement(w: State, e: real, dtMillis: nat)
    requires Bounded(w.drv) && ConstantError(w, e) && dtMillis > 0
    requires IntegralTerm(w.drv.ki, e, Seconds(dtMillis)) > 0.0
    ensures var d := Follow(w.drv, w.est, dtMillis);
            d.dutyComp == MinReal(255.0, w.drv.dutyComp + Increment(w.drv.ki, e, dtMillis))
            && d.dutyTgt == d.dutyComp.Floor
  {
    var dt := Seconds(dtMillis);
    assert ProportionalTerm(w.drv.kp, e, w.drv.errPrev) == 0.0;
    FlatDerivative(w.drv.kd, w.est.rpmEst, dt);
  }

  lemma FlatDerivative(kd: real, rpm: real, dt: real)
    requires dt > 0.0
    ensures DerivativeTerm(kd, rpm, rpm, rpm, dt) == 0.0
  {
    assert rpm - 2.0 * rpm + rpm == 0.0;
    assert -kd * 0.0 == 0.0;
  }

  /** Every state on the way keeps the constant error e. */
  ghost predicate SteadyRun(w: State, calls: seq<Timed>, e: real, dtMillis: nat) {
    && (forall i :: 0 <= i < |calls| ==> LoopCall(calls[i].call, dtMillis, w.drv.ki))
    && (forall k :: 0 <= k <= |calls| ==> ConstantError(Run(w, calls[..k]), e))
  }

  /** The compensated duty has reached comp, or its limit. */
  predicate Climbed(d: Drive, comp: real) {
    d.dutyComp >= MinReal(255.0, comp)
  }

  lemma SteadyPrefix(w: State, calls: seq<Timed>, e: real, dtMillis: nat, n: nat)
    requires SteadyRun(w, calls, e, dtMillis) && n <= |calls|
    ensures SteadyRun(w, calls[..n], e, dtMillis)
  {
    forall k | 0 <= k <= n ensures ConstantError(Run(w, calls[..n][..k]), e) {
      assert calls[..n][..k] == calls[..k];
    }
  }

  lemma ClimbStep(s: State, last: Timed, e: real, dtMillis: nat, total: real)
    requires Bounded(s.drv) && dtMillis > 0 && ConstantError(s, e) && LoopCall(last.call, dtMillis, s.drv.ki)
    requires ConstantError(Do(s, last.call, last.us), e)
    requires IntegralTerm(s.drv.ki, e, Seconds(dtMillis)) > 0.0
    requires Climbed(s.drv, total)
    ensures var d := Do(s, last.call, last.us).drv;
            Bounded(d) && d.ki == s.drv.ki
            && Climbed(d, if last.call.FollowRpm? then total + Increment(s.drv.ki, e, dtMillis) else total)
            && (last.call.FollowRpm? || s.drv.dutyTgt == s.drv.dutyComp.Floor ==> d.dutyTgt == d.dutyComp.Floor)
  {
    DoKeepsBounds(s, last.call, last.us);
    if last.call.FollowRpm? {
      FollowAddsIncrement(s, e, dtMillis);
    }
  }

  lemma SteadyLast(w: State, calls: seq<Timed>, e: real, dtMillis: nat)
    requires SteadyRun(w, calls, e, dtMillis) && calls != []
    ensures LoopCall(calls[|calls| - 1].call, dtMillis, w.drv.ki)
    ensures ConstantError(Run(w, calls[..|calls| - 1]), e) && ConstantError(Run(w, calls), e)
  {
    assert calls[..|calls|] == calls;
  }

  /** inc, n times. */
  function Times(n: nat, inc: real): real {
    if n == 0 then 0.0 else Times(n - 1, inc) + inc
  }

  lemma {:induction false} TimesIsProduct(n: nat, inc: real)
    ensures Times(n, inc) == n as real * inc
  {
    if n > 0 {
      TimesIsProduct(n - 1, inc);
    }
  }

  /** The integral term of a control tick is positive, and this is what it adds. */
  predicate Adds(ki: real, e: real, dtMillis: nat, inc: real) {
    dtMillis > 0 && IntegralTerm(ki, e, Seconds(dtMillis)) > 0.0 && inc == Increment(ki, e, dtMillis)
  }

  lemma {:induction false} IntegratorClimbs(w: State, calls: seq<Timed>, e: real, dtMillis: nat, inc: real)
    requires Bounded(w.drv) && SteadyRun(w, calls, e, dtMillis) && Adds(w.drv.ki, e, dtMillis, inc)
    ensures var d := Run(w, calls).drv;
            Bounded(d) && d.ki == w.drv.ki && Climbed(d, Times(Follows(calls), inc))
            && (Follows(calls) >= 1 ==> d.dutyTgt == d.dutyComp.Floor)
  {
    if calls != [] {
      var init, last := calls[..|calls| - 1], calls[|calls| - 1];
      SteadyPrefix(w, calls, e, dtMillis, |init|);
      SteadyLast(w, calls, e, dtMillis);
      IntegratorClimbs(w, init, e, dtMillis, inc);
      ClimbStep(Run(w, init), last, e, dtMillis, Times(Follows(init), inc));
    }
  }

  predicate FullTarget(d: Drive, ki: real) {
    Bounded(d) && d.ki == ki && d.dutyComp == 255.0 && d.dutyTgt == DUTY_MAX
  }

  lemma MotorStep(s: State, last: Timed, e: real, dtMillis: nat, duty: int)
    requires FullTarget(s.drv, s.drv.ki) && dtMillis > 0 && ConstantError(s, e)
    requires LoopCall(last.call, dtMillis, s.drv.ki)
    requires ConstantError(Do(s, last.call, last.us), e)
    requires IntegralTerm(s.drv.ki, e, Seconds(dtMillis)) > 0.0
    requires s.drv.dutyCur >= Min(DUTY_MAX, duty)
    ensures var d := Do(s, last.call, last.us).drv;
            FullTarget(d, s.drv.ki)
            && d.dutyCur >= Min(DUTY_MAX, if last.call.DriveMotor? then duty + RAMP_UP_RATE else duty)
  {
    DoKeepsBounds(s, last.call, last.us);
    if last.call.FollowRpm? {
      FollowAddsIncrement(s, e, dtMillis);
    }
  }

  /** Once the target duty is 255 every forward updateMotor adds 15 until 255 is reached. */
  lemma {:induction false} MotorClimbs(w: State, calls: seq<Timed>, e: real, dtMillis: nat)
    requires FullTarget(w.drv, w.drv.ki) && dtMillis > 0 && SteadyRun(w, calls, e, dtMillis)
    requires IntegralTerm(w.drv.ki, e, Seconds(dtMillis)) > 0.0
    ensures FullTarget(Run(w, calls).drv, w.drv.ki)
    ensures Run(w, calls).drv.dutyCur >= Min(DUTY_MAX, RAMP_UP_RATE * Motors(calls))
  {
    if calls != [] {
      var init, last := calls[..|calls| - 1], calls[|calls| - 1];
      SteadyPrefix(w, calls, e, dtMillis, |init|);
      SteadyLast(w, calls, e, dtMillis);
      MotorClimbs(w, init, e, dtMillis);
      MotorStep(Run(w, init), last, e, dtMillis, RAMP_UP_RATE * Motors(init));
    }
  }

  lemma SaturatesTarget(w: State, ticks: seq<Timed>, e: real, dtMillis: nat, inc: real)
    requires Bounded(w.drv) && SteadyRun(w, ticks, e, dtMillis) && Adds(w.drv.ki, e, dtMillis, inc)
    requires Times(Follows(ticks), inc) >= 255.0
    ensures var d := Run(w, ticks).drv;
            Bounded(d) && d.ki == w.drv.ki && d.dutyComp == 255.0 && d.dutyTgt == DUTY_MAX
  {
    IntegratorClimbs(w, ticks, e, dtMillis, inc);
    FullComp(Run(w, ticks).drv, Follows(ticks), inc);
  }

  /** A wheel that cannot keep up is driven at full duty: with a constant positive error, after n
      control ticks with n times min(40, Ki*e*dt) at least 255 the target duty is 255, and after 17
      further motor updates so is the duty, whatever other calls come in between that keep the
      error and Ki as they are: setTargetRPM at every control tick, as trace mode makes it, too. */
  lemma SaturatesUnderConstantError(w: State, ticks: seq<Timed>, more: seq<Timed>, e: real, dtMillis: nat, inc: real)
    requires Bounded(w.drv) && Adds(w.drv.ki, e, dtMillis, inc)
    requires SteadyRun(w, ticks, e, dtMillis) && SteadyRun(Run(w, ticks), more, e, dtMillis)
    requires Times(Follows(ticks), inc) >= 255.0 && Motors(more) >= 17
    ensures Run(w, ticks).drv.dutyTgt == DUTY_MAX
    ensures Run(Run(w, ticks), more).drv.dutyTgt == DUTY_MAX && Run(Run(w, ticks), more).drv.dutyCur == DUTY_MAX
  {
    SaturatesTarget(w, ticks, e, dtMillis, inc);
    MotorClimbs(Run(w, ticks), more, e, dtMillis);
  }

  lemma FullComp(d: Drive, n: nat, inc: real)
    requires Bounded(d) && Climbed(d, Times(n, inc)) && Times(n, inc) >= 255.0
    requires n >= 1 ==> d.dutyTgt == d.dutyComp.Floor
    ensures d.dutyComp == 255.0 && d.dutyTgt == DUTY_MAX
  {
  }

  // ---------- a blocked wheel ----------

  /** What a control tick of trace mode and the motor update after it call on a wheel driven straight. */
  function Round(us: nat): seq<Timed> {
    [Timed(SetTargetRpm(90.0), us), Timed(UpdateRpm, us), Timed(FollowRpm(20), us), Timed(DriveMotor, us)]
  }

  /** n rounds, 20 ms apart, the first 20 ms after `from`. */
  function Rounds(from: nat, n: nat): seq<Timed> {
    if n == 0 then [] else Rounds(from, n - 1) + Round(from + 20000 * n)
  }

  lemma {:induction false} RoundsSplit(from: nat, m: nat, n: nat)
    ensures Rounds(from, m + n) == Rounds(from, m) + Rounds(from + 20000 * m, n)
  {
    if n == 0 {
      assert Rounds(from, m) + [] == Rounds(from, m);
    } else {
      RoundsSplit(from, m, n - 1);
      assert from + 20000 * (m + n) == from + 20000 * m + 20000 * n;
      Seqs.Assoc(Rounds(from, m), Rounds(from + 20000 * m, n - 1), Round(from + 20000 * m + 20000 * n));
    }
  }

  /** No edge was ever seen, and the wheel is to turn forward at 90. */
  predicate Unturned(s: State) {
    s.est == FRESH_ESTIMATOR && s.drv.rpmTgt == 90.0 && s.drv.dirTgt == 1 && s.drv.ki == 2.5
  }

  /** The start-up pulse is over and a control tick has run since. */
  predicate Pushing(s: State) {
    Unturned(s) && !s.drv.startupActive && s.drv.errPrev == 90.0
  }

  lemma AddCall(w: State, calls: seq<Timed>, c: Timed, e: real, dtMillis: nat)
    requires SteadyRun(w, calls, e, dtMillis) && LoopCall(c.call, dtMillis, w.drv.ki)
    requires ConstantError(Do(Run(w, calls), c.call, c.us), e)
    ensures SteadyRun(w, calls + [c], e, dtMillis) && Run(w, calls + [c]) == Do(Run(w, calls), c.call, c.us)
    ensures Follows(calls + [c]) == Follows(calls) + if c.call.FollowRpm? then 1 else 0
    ensures Motors(calls + [c]) == Motors(calls) + if c.call.DriveMotor? then 1 else 0
  {
    var all := calls + [c];
    assert all[..|calls|] == calls;
    forall k | 0 <= k <= |all| ensures ConstantError(Run(w, all[..k]), e) {
      if k <= |calls| {
        assert all[..k] == calls[..k];
      } else {
        assert all[..k] == all;
      }
    }
  }

  predicate RoundCall(call: Call) {
    call == SetTargetRpm(90.0) || call == UpdateRpm || call == FollowRpm(20) || call == DriveMotor
  }

  lemma RoundCallKeepsPushing(s: State, call: Call, us: nat)
    requires Pushing(s) && RoundCall(call)
    ensures Pushing(Do(s, call, us))
  {
  }

  lemma PushOn(w: State, calls: seq<Timed>, c: Timed)
    requires Pushing(w) && SteadyRun(w, calls, 90.0, 20) && Pushing(Run(w, calls)) && RoundCall(c.call)
    ensures SteadyRun(w, calls + [c], 90.0, 20) && Pushing(Run(w, calls + [c]))
    ensures Follows(calls + [c]) == Follows(calls) + if c.call.FollowRpm? then 1 else 0
    ensures Motors(calls + [c]) == Motors(calls) + if c.call.DriveMotor? then 1 else 0
  {
    RoundCallKeepsPushing(Run(w, calls), c.call, c.us);
    AddCall(w, calls, c, 90.0, 20);
  }

  lemma RoundIsSteady(w: State, calls: seq<Timed>, us: nat, after: seq<Timed>)
    requires Pushing(w) && SteadyRun(w, calls, 90.0, 20) && Pushing(Run(w, calls)) && after == calls + Round(us)
    ensures SteadyRun(w, after, 90.0, 20) && Pushing(Run(w, after))
    ensures Follows(after) == Follows(calls) + 1 && Motors(after) == Motors(calls) + 1
  {
    var r := Round(us);
    PushOn(w, calls, r[0]);
    PushOn(w, calls + [r[0]], r[1]);
    PushOn(w, calls + [r[0]] + [r[1]], r[2]);
    PushOn(w, calls + [r[0]] + [r[1]] + [r[2]], r[3]);
    assert after == calls + [r[0]] + [r[1]] + [r[2]] + [r[3]];
  }

  lemma {:induction false} RoundsAreSteady(w: State, from: nat, n: nat)
    requires Pushing(w)
    ensures SteadyRun(w, Rounds(from, n), 90.0, 20) && Pushing(Run(w, Rounds(from, n)))
    ensures Follows(Rounds(from, n)) == n == Motors(Rounds(from, n))
  {
    if n == 0 {
      assert Rounds(from, 0)[..0] == [];
    } else {
      RoundsAreSteady(w, from, n - 1);
      RoundIsSteady(w, Rounds(from, n - 1), from + 20000 * n, Rounds(from, n));
    }
  }

  lemma RoundIs(s: State, us: nat)
    ensures Run(s, Round(us)) == Do(Do(Do(Do(s, SetTargetRpm(90.0), us), UpdateRpm, us), FollowRpm(20), us),
            DriveMotor, us)
  {
    var r := Round(us);
    assert r == [r[0], r[1]] + [r[2], r[3]];
    RunAppend(s, [r[0], r[1]], [r[2], r[3]]);
    TwoCalls(s, r[0], r[1]);
    TwoCalls(Run(s, [r[0], r[1]]), r[2], r[3]);
  }

  /** In the start-up pulse that began at 20 ms. */
  predicate Kicked(s: State) {
    Unturned(s) && s.drv.startupActive && s.drv.startupStartedMs == 20
  }

  lemma KickedCall(s: State, call: Call, us: nat)
    requires Kicked(s) && RoundCall(call) && call != DriveMotor
    ensures Kicked(Do(s, call, us))
  {
  }

  lemma KickedMotor(s: State, us: nat)
    requires Kicked(s) && 20000 <= us < 1000000
    ensures var s' := Do(s, DriveMotor, us);
            if us < 140000 then Kicked(s') else Unturned(s') && !s'.drv.startupActive
  {
  }

  lemma FirstKick(us: nat)
    requires us == 20000
    ensures Kicked(Do(FRESH, SetTargetRpm(90.0), us))
  {
  }

  /** The rest of a round, from the state after its setTargetRPM. */
  lemma KickedRest(s: State, us: nat, s1: State)
    requires s1 == Do(s, SetTargetRpm(90.0), us) && Kicked(s1) && 20000 <= us < 1000000
    ensures var s' := Run(s, Round(us));
            if us < 140000 then Kicked(s') else Unturned(s') && !s'.drv.startupActive
  {
    RoundIs(s, us);
    var s2 := Do(s1, UpdateRpm, us);
    KickedCall(s1, UpdateRpm, us);
    KickedCall(s2, FollowRpm(20), us);
    KickedMotor(Do(s2, FollowRpm(20), us), us);
  }

  lemma FirstRound(us: nat)
    requires us == 20000
    ensures Kicked(Run(FRESH, Round(us)))
  {
    FirstKick(us);
    KickedRest(FRESH, us, Do(FRESH, SetTargetRpm(90.0), us));
  }

  lemma PulseRound(s: State, us: nat)
    requires Kicked(s) && 20000 <= us < 1000000
    ensures var s' := Run(s, Round(us));
            if us < 140000 then Kicked(s') else Unturned(s') && !s'.drv.startupActive
  {
    KickedCall(s, SetTargetRpm(90.0), us);
    KickedRest(s, us, Do(s, SetTargetRpm(90.0), us));
  }

  lemma QuietCall(s: State, call: Call, us: nat)
    requires Unturned(s) && !s.drv.startupActive && RoundCall(call)
    ensures Unturned(Do(s, call, us)) && !Do(s, call, us).drv.startupActive
    ensures call == FollowRpm(20) ==> Pushing(Do(s, call, us))
  {
  }

  lemma FirstPush(s: State, us: nat)
    requires Unturned(s) && !s.drv.startupActive
    ensures Pushing(Run(s, Round(us)))
  {
    RoundIs(s, us);
    var s1 := Do(s, SetTargetRpm(90.0), us);
    var s2 := Do(s1, UpdateRpm, us);
    QuietCall(s, SetTargetRpm(90.0), us);
    QuietCall(s1, UpdateRpm, us);
    QuietCall(s2, FollowRpm(20), us);
    RoundCallKeepsPushing(Do(s2, FollowRpm(20), us), DriveMotor, us);
  }

  lemma {:induction false} PulseRounds(n: nat)
    requires 1 <= n <= 7
    ensures if n < 7 then Kicked(Run(FRESH, Rounds(0, n)))
            else Unturned(Run(FRESH, Rounds(0, n))) && !Run(FRESH, Rounds(0, n)).drv.startupActive
  {
    RunAppend(FRESH, Rounds(0, n - 1), Round(20000 * n));
    if n == 1 {
      FirstRound(20000 * n);
    } else {
      PulseRounds(n - 1);
      PulseRound(Run(FRESH, Rounds(0, n - 1)), 20000 * n);
    }
  }

  lemma PushesFrom(k: nat)
    requires k == 8
    ensures Pushing(Run(FRESH, Rounds(0, k)))
  {
    PulseRounds(k - 1);
    RunAppend(FRESH, Rounds(0, k - 1), Round(20000 * k));
    FirstPush(Run(FRESH, Rounds(0, k - 1)), 20000 * k);
  }

  lemma PushAdds(ki: real)
    requires ki == 2.5
    ensures Adds(ki, 90.0, 20, 4.5)
  {
    assert IntegralTerm(2.5, 90.0, Seconds(20)) == 4.5;
  }

  lemma EnoughPushes(n: nat)
    requires n == 57
    ensures Times(n, 4.5) >= 255.0
  {
    TimesIsProduct(n, 4.5);
  }

  lemma PushSaturates(w: State, from: nat, from2: nat, n: nat, more: nat)
    requires Pushing(w) && Bounded(w.drv) && n == 57 && more >= 17
    ensures Run(Run(w, Rounds(from, n)), Rounds(from2, more)).drv.dutyCur == DUTY_MAX
  {
    RoundsAreSteady(w, from, n);
    RoundsAreSteady(Run(w, Rounds(from, n)), from2, more);
    PushAdds(w.drv.ki);
    EnoughPushes(n);
    SaturatesUnderConstantError(w, Rounds(from, n), Rounds(from2, more), 90.0, 20, 4.5);
  }

  lemma InThreeParts(k: nat, m: nat, n: nat)
    ensures Run(FRESH, Rounds(0, k + m + n)) ==
            Run(Run(Run(FRESH, Rounds(0, k)), Rounds(20000 * k, m)), Rounds(20000 * (k + m), n))
  {
    RoundsSplit(0, k, m);
    RoundsSplit(0, k + m, n);
    JoinRuns(FRESH, Rounds(0, k), Rounds(20000 * k, m), Rounds(20000 * (k + m), n), Rounds(0, k + m + n));
  }

  lemma JoinRuns(w: State, x: seq<Timed>, y: seq<Timed>, z: seq<Timed>, all: seq<Timed>)
    requires all == x + y + z
    ensures Run(w, all) == Run(Run(Run(w, x), y), z)
  {
    RunAppend(w, x + y, z);
    RunAppend(w, x, y);
  }

  /** A new wheel that is told to go straight ahead and never turns is at full duty from the 82nd
      control tick on, for any number of ticks: seven in the start-up pulse, one that sees the error
      first, 57 that add 4.5 each, and 17 in which the motor climbs. */
  lemma BlockedWheelSaturates(k: nat, m: nat, n: nat)
    requires k == 8 && m == 57 && n >= 17
    ensures Run(FRESH, Rounds(0, k + m + n)).drv.dutyCur == DUTY_MAX
  {
    InThreeParts(k, m, n);
    PushesFrom(k);
    EveryStateIsBounded(Rounds(0, k));
    PushSaturates(Run(FRESH, Rounds(0, k)), 20000 * k, 20000 * (k + m), m, n);
  }

  // ---------- reversed targets ----------

  /** The estimated direction never changes, so a negative target never drives a wheel backwards
      harder than its leftover duty, which is below 10, and never raises the duty, outside a
      start-up pulse. */
  lemma NegativeTargetIsWeak(calls: seq<Timed>, us: nat)
    requires Run(FRESH, calls).drv.dirTgt == -1 && !Run(FRESH, calls).drv.startupActive
    ensures var d, d' := Run(FRESH, calls).drv, Do(Run(FRESH, calls), DriveMotor, us).drv;
            Power(d') >= -9 && d'.dutyCur <= d.dutyCur
  {
    EveryStateIsBounded(calls);
  }

  /** At rest, and not told to go forward. */
  predicate Resting(d: Drive) {
    Bounded(d) && d.dutyCur == 0 && !d.startupActive && d.dirTgt != 1 && Power(d) == 0
  }

  lemma RestingStep(w: State, call: Call, us: nat)
    requires Resting(w.drv) && (call.SetTargetRpm? ==> call.rpm <= 0.0)
    ensures Resting(Do(w, call, us).drv)
  {
    DoKeepsBounds(w, call, us);
  }

  /** From rest a wheel whose targets are all negative or zero never moves, however long it is asked to. */
  lemma {:induction false} ReverseNeverDrives(w: State, calls: seq<Timed>)
    requires Resting(w.drv)
    requires forall i :: 0 <= i < |calls| && calls[i].call.SetTargetRpm? ==> calls[i].call.rpm <= 0.0
    ensures Resting(Run(w, calls).drv)
  {
    if calls != [] {
      var init, last := calls[..|calls| - 1], calls[|calls| - 1];
      ReverseNeverDrives(w, init);
      RestingStep(Run(w, init), last.call, last.us);
    }
  }

  /** In every reachable state, whatever gains were set, one followRPM keeps the compensated duty in
      0..255 and moves it by at most 60. */
  lemma CompMovesSlowly(calls: seq<Timed>, dtMillis: nat, us: nat)
    ensures var c, c' := Run(FRESH, calls).drv.dutyComp, Do(Run(FRESH, calls), FollowRpm(dtMillis), us).drv.dutyComp;
            0.0 <= c' <= 255.0 && c - COMP_LIMIT <= c' <= c + COMP_LIMIT
  {
    EveryStateIsBounded(calls);
  }
}
