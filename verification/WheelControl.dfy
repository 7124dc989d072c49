/** Which way the controller of a wheel pushes, and how far: one followRPM and one updateMotor in any
    reachable state, and the start-up pulse from beginning to end. */
module WheelControl {
  import opened Clock
  import opened WheelModel
  import WheelMotor

  /** The controller acts: no pulse is in force, there is a target, and no gain is negative. */
  predicate Controlling(d: Drive) {
    !d.startupActive && d.rpmTgt > 0.0 && d.kp >= 0.0 && d.ki >= 0.0 && d.kd >= 0.0
  }

  function Max(a: real, b: real): real {
    if a > b then a else b
  }

  /** The error of the present estimate. */
  function Error(w: State): real {
    w.drv.rpmTgt - w.est.rpmEst
  }

  /** The RPM has not changed for three samples. */
  predicate Flat(e: Estimator) {
    e.rpmEst == e.rpmPrev == e.rpmPp
  }

  /** How much faster the wheel speeds up than one sample before. */
  function Acceleration(e: Estimator): real {
    (e.rpmEst - e.rpmPrev) - (e.rpmPrev - e.rpmPp)
  }

  // ---------- one followRPM, by its three terms ----------

  lemma FollowByTerms(w: State, dtMillis: nat, p: real, i: real, d: real)
    requires dtMillis > 0 && Controlling(w.drv)
    requires p == ProportionalTerm(w.drv.kp, Error(w), w.drv.errPrev)
    requires i == IntegralTerm(w.drv.ki, Error(w), Seconds(dtMillis))
    requires d == DerivativeTerm(w.drv.kd, w.est.rpmEst, w.est.rpmPrev, w.est.rpmPp, Seconds(dtMillis))
    ensures var d' := Follow(w.drv, w.est, dtMillis);
            d'.dutyComp == Constrain(w.drv.dutyComp
                                     + Constrain(p + Constrain(i, -40.0, 40.0) + Constrain(d, -3.0, 3.0), -60.0, 60.0),
                                     0.0, 255.0)
            && d'.dutyTgt == d'.dutyComp.Floor && d'.errPrev == Error(w)
  {
  }

  lemma ProductSign(x: real, y: real)
    requires x >= 0.0
    ensures y >= 0.0 ==> x * y >= 0.0
    ensures y <= 0.0 ==> x * y <= 0.0
  {
  }

  lemma IntegralSign(ki: real, err: real, dt: real)
    requires ki >= 0.0 && dt > 0.0
    ensures err >= 0.0 ==> ki * err * dt >= 0.0
    ensures err <= 0.0 ==> ki * err * dt <= 0.0
  {
    ProductSign(ki, err);
    ProductSign(dt, ki * err);
    assert ki * err * dt == dt * (ki * err);
  }

  lemma QuotientSign(x: real, dt: real)
    requires dt > 0.0
    ensures x >= 0.0 ==> x / dt >= 0.0
    ensures x <= 0.0 ==> x / dt <= 0.0
  {
  }

  lemma DerivativeIs(kd: real, e: Estimator, dt: real)
    requires dt > 0.0
    ensures DerivativeTerm(kd, e.rpmEst, e.rpmPrev, e.rpmPp, dt) == -(kd * Acceleration(e)) / dt
  {
    assert e.rpmEst - 2.0 * e.rpmPrev + e.rpmPp == Acceleration(e);
    NegProduct(kd, Acceleration(e));
  }

  lemma NegProduct(x: real, y: real)
    ensures -x * y == -(x * y)
  {
  }

  lemma FlatTerm(kd: real, e: Estimator, dt: real)
    requires dt > 0.0 && Flat(e)
    ensures DerivativeTerm(kd, e.rpmEst, e.rpmPrev, e.rpmPp, dt) == 0.0
  {
    WheelMotor.FlatDerivative(kd, e.rpmEst, dt);
  }

  lemma FlatTerms(w: State, dtMillis: nat, dt: real, err: real, p: real, i: real)
    requires Controlling(w.drv) && Flat(w.est) && dtMillis > 0 && dt == dtMillis as real * 0.001 && err == Error(w)
    requires p == w.drv.kp * (err - w.drv.errPrev) && i == w.drv.ki * err * dt
    ensures p == ProportionalTerm(w.drv.kp, Error(w), w.drv.errPrev)
    ensures i == IntegralTerm(w.drv.ki, Error(w), Seconds(dtMillis))
    ensures 0.0 == DerivativeTerm(w.drv.kd, w.est.rpmEst, w.est.rpmPrev, w.est.rpmPp, Seconds(dtMillis))
    ensures (err >= w.drv.errPrev ==> p >= 0.0) && (err <= w.drv.errPrev ==> p <= 0.0)
    ensures (err >= 0.0 ==> i >= 0.0) && (err <= 0.0 ==> i <= 0.0)
  {
    FlatTerm(w.drv.kd, w.est, dt);
    ProductSign(w.drv.kp, err - w.drv.errPrev);
    IntegralSign(w.drv.ki, err, dt);
  }

  // ---------- too slow, too fast, speeding up ----------

  /** A wheel that is too slow, and no less so than at the control tick before, is driven harder: in
      every reachable state in which the controller acts on a flat RPM the duty does not fall, and it
      gains exactly the two terms within their limits. */
  lemma SlowWheelIsDriven(calls: seq<Timed>, w: State, dtMillis: nat, us: nat, dt: real, err: real)
    requires w == Run(FRESH, calls) && Controlling(w.drv) && Flat(w.est)
    requires dtMillis > 0 && dt == dtMillis as real * 0.001
    requires err == w.drv.rpmTgt - w.est.rpmEst && err >= w.drv.errPrev && err >= 0.0
    ensures var c, d := w.drv.dutyComp, Do(w, FollowRpm(dtMillis), us).drv;
            && d.dutyComp >= c
            && d.dutyComp == MinReal(255.0, c + MinReal(60.0, w.drv.kp * (err - w.drv.errPrev)
                                                              + MinReal(40.0, w.drv.ki * err * dt)))
            && d.dutyTgt == d.dutyComp.Floor
  {
    WheelMotor.EveryStateIsBounded(calls);
    FlatTerms(w, dtMillis, dt, err, w.drv.kp * (err - w.drv.errPrev), w.drv.ki * err * dt);
    SlowTerms(w, dtMillis, w.drv.kp * (err - w.drv.errPrev), w.drv.ki * err * dt);
  }

  lemma SlowTerms(w: State, dtMillis: nat, p: real, i: real)
    requires dtMillis > 0 && Controlling(w.drv) && 0.0 <= w.drv.dutyComp <= 255.0 && p >= 0.0 && i >= 0.0
    requires p == ProportionalTerm(w.drv.kp, Error(w), w.drv.errPrev)
    requires i == IntegralTerm(w.drv.ki, Error(w), Seconds(dtMillis))
    requires 0.0 == DerivativeTerm(w.drv.kd, w.est.rpmEst, w.est.rpmPrev, w.est.rpmPp, Seconds(dtMillis))
    ensures var c, d := w.drv.dutyComp, Follow(w.drv, w.est, dtMillis);
            && d.dutyComp >= c && d.dutyComp == MinReal(255.0, c + MinReal(60.0, p + MinReal(40.0, i)))
            && d.dutyTgt == d.dutyComp.Floor
  {
    FollowByTerms(w, dtMillis, p, i, 0.0);
    SlowLimits(w.drv.dutyComp, p, i);
  }

  lemma SlowLimits(c: real, p: real, i: real)
    requires 0.0 <= c <= 255.0 && p >= 0.0 && i >= 0.0
    ensures Constrain(c + Constrain(p + Constrain(i, -40.0, 40.0) + Constrain(0.0, -3.0, 3.0), -60.0, 60.0),
                      0.0, 255.0)
            == MinReal(255.0, c + MinReal(60.0, p + MinReal(40.0, i))) >= c
  {
  }

  /** And one that is too fast, and no less so than before, is driven less hard, down to zero. */
  lemma FastWheelIsSlowed(calls: seq<Timed>, w: State, dtMillis: nat, us: nat, dt: real, err: real)
    requires w == Run(FRESH, calls) && Controlling(w.drv) && Flat(w.est)
    requires dtMillis > 0 && dt == dtMillis as real * 0.001
    requires err == w.drv.rpmTgt - w.est.rpmEst && err <= w.drv.errPrev && err <= 0.0
    ensures var c, d := w.drv.dutyComp, Do(w, FollowRpm(dtMillis), us).drv;
            && d.dutyComp <= c
            && d.dutyComp == Max(0.0, c + Max(-60.0, w.drv.kp * (err - w.drv.errPrev)
                                                     + Max(-40.0, w.drv.ki * err * dt)))
            && d.dutyTgt == d.dutyComp.Floor
  {
    WheelMotor.EveryStateIsBounded(calls);
    FlatTerms(w, dtMillis, dt, err, w.drv.kp * (err - w.drv.errPrev), w.drv.ki * err * dt);
    FastTerms(w, dtMillis, w.drv.kp * (err - w.drv.errPrev), w.drv.ki * err * dt);
  }

  lemma FastTerms(w: State, dtMillis: nat, p: real, i: real)
    requires dtMillis > 0 && Controlling(w.drv) && 0.0 <= w.drv.dutyComp <= 255.0 && p <= 0.0 && i <= 0.0
    requires p == ProportionalTerm(w.drv.kp, Error(w), w.drv.errPrev)
    requires i == IntegralTerm(w.drv.ki, Error(w), Seconds(dtMillis))
    requires 0.0 == DerivativeTerm(w.drv.kd, w.est.rpmEst, w.est.rpmPrev, w.est.rpmPp, Seconds(dtMillis))
    ensures var c, d := w.drv.dutyComp, Follow(w.drv, w.est, dtMillis);
            && d.dutyComp <= c && d.dutyComp == Max(0.0, c + Max(-60.0, p + Max(-40.0, i)))
            && d.dutyTgt == d.dutyComp.Floor
  {
    FollowByTerms(w, dtMillis, p, i, 0.0);
    FastLimits(w.drv.dutyComp, p, i);
  }

  lemma FastLimits(c: real, p: real, i: real)
    requires 0.0 <= c <= 255.0 && p <= 0.0 && i <= 0.0
    ensures Constrain(c + Constrain(p + Constrain(i, -40.0, 40.0) + Constrain(0.0, -3.0, 3.0), -60.0, 60.0),
                      0.0, 255.0)
            == Max(0.0, c + Max(-60.0, p + Max(-40.0, i))) <= c
  {
  }

  /** On target, and on target before: a wheel that speeds up is held back and one that slows down is
      pushed, by the derivative term, at most 3 either way. */
  lemma AccelerationIsDamped(calls: seq<Timed>, w: State, dtMillis: nat, us: nat, dt: real, x: real)
    requires w == Run(FRESH, calls) && Controlling(w.drv)
    requires dtMillis > 0 && dt == dtMillis as real * 0.001
    requires w.est.rpmEst == w.drv.rpmTgt && w.drv.errPrev == 0.0
    requires x == (w.est.rpmEst - w.est.rpmPrev) - (w.est.rpmPrev - w.est.rpmPp)
    ensures var c, d := w.drv.dutyComp, Do(w, FollowRpm(dtMillis), us).drv;
            && (x >= 0.0 ==> d.dutyComp == Max(0.0, c - MinReal(3.0, w.drv.kd * x / dt)) <= c)
            && (x <= 0.0 ==> d.dutyComp == MinReal(255.0, c + MinReal(3.0, w.drv.kd * -x / dt)) >= c)
            && d.dutyTgt == d.dutyComp.Floor
  {
    WheelMotor.EveryStateIsBounded(calls);
    DampingSign(w.drv.kd, w.est, dt, x, w.drv.kd * x / dt);
    DampingTerm(w, dtMillis, w.drv.kd * x / dt);
  }

  lemma DampingSign(kd: real, e: Estimator, dt: real, x: real, d: real)
    requires kd >= 0.0 && dt > 0.0 && x == Acceleration(e) && d == kd * x / dt
    ensures -d == DerivativeTerm(kd, e.rpmEst, e.rpmPrev, e.rpmPp, dt) && kd * -x / dt == -d
    ensures (x >= 0.0 ==> d >= 0.0) && (x <= 0.0 ==> d <= 0.0)
  {
    ProductSign(kd, x);
    QuotientSign(kd * x, dt);
    NegQuotient(kd * x, dt);
    NegProduct(kd, x);
    assert kd * -x == -(kd * x);
    DerivativeIs(kd, e, dt);
  }

  lemma NegQuotient(x: real, dt: real)
    requires dt > 0.0
    ensures -x / dt == -(x / dt)
  {
  }

  lemma DampingTerm(w: State, dtMillis: nat, d: real)
    requires dtMillis > 0 && Controlling(w.drv) && 0.0 <= w.drv.dutyComp <= 255.0
    requires Error(w) == 0.0 && w.drv.errPrev == 0.0
    requires -d == DerivativeTerm(w.drv.kd, w.est.rpmEst, w.est.rpmPrev, w.est.rpmPp, Seconds(dtMillis))
    ensures var c, d' := w.drv.dutyComp, Follow(w.drv, w.est, dtMillis);
            && (d >= 0.0 ==> d'.dutyComp == Max(0.0, c - MinReal(3.0, d)) <= c)
            && (d <= 0.0 ==> d'.dutyComp == MinReal(255.0, c + MinReal(3.0, -d)) >= c)
            && d'.dutyTgt == d'.dutyComp.Floor
  {
    assert ProportionalTerm(w.drv.kp, Error(w), w.drv.errPrev) == 0.0;
    assert IntegralTerm(w.drv.ki, Error(w), Seconds(dtMillis)) == 0.0;
    FollowByTerms(w, dtMillis, 0.0, 0.0, -d);
  }

  /** It does nothing at all in a pulse or within the same millisecond, and without a target it only
      takes the target duty back to zero. */
  lemma ControllerRests(w: State, dtMillis: nat, us: nat)
    ensures w.drv.startupActive || dtMillis == 0 ==> Do(w, FollowRpm(dtMillis), us) == w
    ensures !w.drv.startupActive && dtMillis > 0 && w.drv.rpmTgt == 0.0 ==>
              Do(w, FollowRpm(dtMillis), us) == w.(drv := w.drv.(dutyTgt := 0))
  {
  }

  // ---------- what the controller looks back on ----------

  /** The estimates sampled so far. */
  function Sampled(calls: seq<Timed>): seq<real> {
    if calls == [] then []
    else
      Sampled(calls[..|calls| - 1])
      + if calls[|calls| - 1].call.UpdateRpm? then [Run(FRESH, calls).est.rpmEst] else []
  }

  /** The k-th estimate from the end, 0 before the first. */
  function Back(samples: seq<real>, k: nat): real {
    if k < |samples| then samples[|samples| - 1 - k] else 0.0
  }

  lemma BackStep(samples: seq<real>, x: real, k: nat)
    ensures Back(samples + [x], 0) == x && Back(samples + [x], k + 1) == Back(samples, k)
  {
  }

  lemma OnlySamplesEstimate(w: State, call: Call, us: nat)
    ensures var e, e' := w.est, Do(w, call, us).est;
            if call.UpdateRpm? then e'.rpmPrev == e.rpmEst && e'.rpmPp == e.rpmPrev
            else e'.rpmEst == e.rpmEst && e'.rpmPrev == e.rpmPrev && e'.rpmPp == e.rpmPp
  {
  }

  /** In every run the estimate and the two before it are those of the last three samples. */
  lemma {:induction false} HistoryIsSampled(calls: seq<Timed>)
    ensures var e := Run(FRESH, calls).est;
            e.rpmEst == Back(Sampled(calls), 0) && e.rpmPrev == Back(Sampled(calls), 1)
            && e.rpmPp == Back(Sampled(calls), 2)
  {
    if calls != [] {
      var n := |calls| - 1;
      HistoryIsSampled(calls[..n]);
      OnlySamplesEstimate(Run(FRESH, calls[..n]), calls[n].call, calls[n].us);
      BackStep(Sampled(calls[..n]), Run(FRESH, calls).est.rpmEst, 0);
      BackStep(Sampled(calls[..n]), Run(FRESH, calls).est.rpmEst, 1);
      if !calls[n].call.UpdateRpm? {
        assert Sampled(calls) == Sampled(calls[..n]);
      }
    }
  }

  // ---------- the error before ----------

  /** A call that neither follows nor resets the controller, given a target. */
  predicate KeepsError(call: Call) {
    !call.FollowRpm? && !call.StopWheel? && (call.SetTargetRpm? ==> call.rpm != 0.0)
  }

  lemma KeepsErrorStep(w: State, call: Call, us: nat)
    requires KeepsError(call) && w.drv.rpmTgt > 0.0
    ensures var d := Do(w, call, us).drv; d.rpmTgt > 0.0 && d.errPrev == w.drv.errPrev
  {
  }

  lemma {:induction false} KeepsErrorRun(w: State, calls: seq<Timed>)
    requires w.drv.rpmTgt > 0.0 && forall i :: 0 <= i < |calls| ==> KeepsError(calls[i].call)
    ensures var d := Run(w, calls).drv; d.rpmTgt > 0.0 && d.errPrev == w.drv.errPrev
  {
    if calls != [] {
      KeepsErrorRun(w, calls[..|calls| - 1]);
      KeepsErrorStep(Run(w, calls[..|calls| - 1]), calls[|calls| - 1].call, calls[|calls| - 1].us);
    }
  }

  /** The error a followRPM compares with is the one of the followRPM before, whatever samples, motor
      updates and new nonzero targets come in between. */
  lemma PreviousErrorIs(w: State, dtMillis: nat, us: nat, calls: seq<Timed>)
    requires dtMillis > 0 && !w.drv.startupActive && w.drv.rpmTgt > 0.0
    requires forall i :: 0 <= i < |calls| ==> KeepsError(calls[i].call)
    ensures Run(Do(w, FollowRpm(dtMillis), us), calls).drv.errPrev == w.drv.rpmTgt - w.est.rpmEst
  {
    KeepsErrorRun(Do(w, FollowRpm(dtMillis), us), calls);
  }

  // ---------- the motor follows the target duty ----------

  /** Forward, outside a pulse. */
  predicate Forward(d: Drive) {
    !d.startupActive && d.dirTgt == 1
  }

  /** One motor update takes the duty of a forward wheel towards its target duty, by at most 15 up or
      75 down and never past it, and the motor gets exactly that duty. */
  lemma MotorFollows(calls: seq<Timed>, w: State, us: nat)
    requires w == Run(FRESH, calls) && Forward(w.drv)
    ensures var c, t, d := w.drv.dutyCur, w.drv.dutyTgt, Do(w, DriveMotor, us).drv;
            && (c <= t ==> d.dutyCur == Min(t, c + 15))
            && (c >= t ==> d.dutyCur == (if c - 75 > t then c - 75 else t))
            && d.dutyTgt == t && Power(d) == d.dutyCur && Forward(d)
  {
    WheelMotor.EveryStateIsBounded(calls);
    MotorStep(w.drv, w.est.rpmEst, us);
  }

  lemma MotorStep(d: Drive, rpmEst: real, us: nat)
    requires WheelMotor.Bounded(d) && Forward(d)
    ensures var c, t, d' := d.dutyCur, d.dutyTgt, UpdateMotor(d, rpmEst, us);
            && (c <= t ==> d'.dutyCur == Min(t, c + 15))
            && (c >= t ==> d'.dutyCur == (if c - 75 > t then c - 75 else t))
            && d'.dutyTgt == t && Power(d') == d'.dutyCur && Forward(d') && WheelMotor.Bounded(d')
  {
  }

  /** A motor update, or a call that only measures. */
  predicate Ramps(call: Call) {
    call.DriveMotor? || call.EncoderPulse? || call.EstimateAverage? || call.UpdateRpm?
  }

  /** After n motor updates the duty is the target duty, or 15 n up or 75 n down has not sufficed. */
  predicate Ramped(d: Drive, t: int, n: nat) {
    && WheelMotor.Bounded(d) && Forward(d) && d.dutyTgt == t
    && (d.dutyCur == t || (d.dutyCur < t && d.dutyCur >= 15 * n) || (d.dutyCur > t && d.dutyCur <= 255 - 75 * n))
    && (n >= 1 ==> Power(d) == d.dutyCur)
  }

  lemma RampStep(w: State, call: Call, us: nat, t: int, n: nat)
    requires Ramped(w.drv, t, n) && Ramps(call)
    ensures Ramped(Do(w, call, us).drv, t, if call.DriveMotor? then n + 1 else n)
  {
    if call.DriveMotor? {
      MotorStep(w.drv, w.est.rpmEst, us);
    } else {
      WheelMotor.DoKeepsBounds(w, call, us);
    }
  }

  lemma {:induction false} RampRun(w: State, calls: seq<Timed>, t: int)
    requires WheelMotor.Bounded(w.drv) && Forward(w.drv) && w.drv.dutyTgt == t
    requires forall i :: 0 <= i < |calls| ==> Ramps(calls[i].call)
    ensures Ramped(Run(w, calls).drv, t, WheelMotor.Motors(calls))
  {
    if calls != [] {
      var n := |calls| - 1;
      RampRun(w, calls[..n], t);
      RampStep(Run(w, calls[..n]), calls[n].call, calls[n].us, t, WheelMotor.Motors(calls[..n]));
    }
  }

  /** So between two control ticks a forward wheel that is driven too hard is at its target duty from
      the fourth motor update on, and any forward wheel from the 17th. */
  lemma MotorArrives(before: seq<Timed>, w: State, calls: seq<Timed>)
    requires w == Run(FRESH, before) && Forward(w.drv)
    requires forall i :: 0 <= i < |calls| ==> Ramps(calls[i].call)
    requires WheelMotor.Motors(calls) >= 17 || (WheelMotor.Motors(calls) >= 4 && w.drv.dutyCur >= w.drv.dutyTgt)
    ensures var d := Run(w, calls).drv; d.dutyCur == w.drv.dutyTgt == Power(d)
  {
    WheelMotor.EveryStateIsBounded(before);
    RampRun(w, calls, w.drv.dutyTgt);
    if w.drv.dutyCur >= w.drv.dutyTgt {
      NeverPasses(w, calls);
    }
  }

  lemma {:induction false} NeverPasses(w: State, calls: seq<Timed>)
    requires WheelMotor.Bounded(w.drv) && Forward(w.drv) && w.drv.dutyCur >= w.drv.dutyTgt
    requires forall i :: 0 <= i < |calls| ==> Ramps(calls[i].call)
    ensures Run(w, calls).drv.dutyCur >= w.drv.dutyTgt
  {
    if calls != [] {
      var n := |calls| - 1;
      NeverPasses(w, calls[..n]);
      RampRun(w, calls[..n], w.drv.dutyTgt);
      NeverPassesStep(Run(w, calls[..n]), calls[n].call, calls[n].us);
    }
  }

  lemma NeverPassesStep(w: State, call: Call, us: nat)
    requires WheelMotor.Bounded(w.drv) && Forward(w.drv) && w.drv.dutyCur >= w.drv.dutyTgt && Ramps(call)
    ensures Do(w, call, us).drv.dutyCur >= w.drv.dutyTgt
  {
    if call.DriveMotor? {
      MotorStep(w.drv, w.est.rpmEst, us);
    }
  }

  // ---------- the start-up pulse ----------

  /** In the forward pulse that began at true time s. */
  predicate Pulsing(d: Drive, s: nat) {
    && WheelMotor.Bounded(d) && d.startupActive && d.dirTgt == 1 && d.startupStartedMs == Millis(s)
    && d.errPrev == 0.0
  }

  /** The pulse is at most 120 counts old. */
  predicate Young(us: nat, s: nat) {
    (Ms(us) - Ms(s)) % TICKS < 120
  }

  /** A call that leaves a pulse that began at s in force. */
  predicate KeepsPulse(c: Timed, s: nat) {
    && c.us >= s && !c.call.StopWheel? && (c.call.SetTargetRpm? ==> c.call.rpm > 0.0)
    && (c.call.DriveMotor? ==> Young(c.us, s))
  }

  lemma PulseAge(us: nat, s: nat)
    requires us >= s
    ensures Since(Millis(us), Millis(s)) == (Ms(us) - Ms(s)) % TICKS
  {
    SinceIsElapsed(Ms(s), Ms(us));
  }

  lemma PulseMotor(w: State, us: nat, s: nat)
    requires Pulsing(w.drv, s) && us >= s
    ensures var d := Do(w, DriveMotor, us).drv;
            if Young(us, s) then Pulsing(d, s) && d.dutyCur == 100 == Power(d)
            else !d.startupActive && d.dutyCur == 40 == Power(d) && d.dutyTgt == 40 && d.dutyComp == 40.0
                 && d.errPrev == 0.0
  {
    PulseAge(us, s);
    WheelMotor.DoKeepsBounds(w, DriveMotor, us);
  }

  lemma PulseStep(w: State, c: Timed, s: nat)
    requires Pulsing(w.drv, s) && KeepsPulse(c, s)
    ensures Pulsing(Do(w, c.call, c.us).drv, s)
  {
    if c.call.DriveMotor? {
      PulseMotor(w, c.us, s);
    } else {
      WheelMotor.DoKeepsBounds(w, c.call, c.us);
    }
  }

  lemma {:induction false} PulseRun(w: State, calls: seq<Timed>, s: nat)
    requires Pulsing(w.drv, s) && forall i :: 0 <= i < |calls| ==> KeepsPulse(calls[i], s)
    ensures Pulsing(Run(w, calls).drv, s)
  {
    if calls != [] {
      PulseRun(w, calls[..|calls| - 1], s);
      PulseStep(Run(w, calls[..|calls| - 1]), calls[|calls| - 1], s);
    }
  }

  /** A wheel at rest that is given a positive target is driven at duty 100 by every motor update in the
      first 120 counts of the millisecond clock, and the first one after them leaves it at duty 40 and
      the controller to start from there, whatever else is called that does not stop it. */
  lemma StartupIsKicked(before: seq<Timed>, w: State, rpm: real, s: nat, calls: seq<Timed>, us: nat)
    requires w == Run(FRESH, before) && w.drv.rpmTgt == 0.0 && w.drv.fullyStopped && rpm > 0.0
    requires us >= s && forall i :: 0 <= i < |calls| ==> KeepsPulse(calls[i], s)
    ensures var d := Do(Run(Do(w, SetTargetRpm(rpm), s), calls), DriveMotor, us).drv;
            if Young(us, s) then d.startupActive && Power(d) == 100
            else !d.startupActive && d.dutyCur == 40 == Power(d) && d.dutyTgt == 40 && d.dutyComp == 40.0
                 && d.errPrev == 0.0
  {
    WheelMotor.EveryStateIsBounded(before);
    PulseBegins(w, rpm, s);
    PulseRun(Do(w, SetTargetRpm(rpm), s), calls, s);
    PulseMotor(Run(Do(w, SetTargetRpm(rpm), s), calls), us, s);
  }

  lemma PulseBegins(w: State, rpm: real, s: nat)
    requires WheelMotor.Bounded(w.drv) && w.drv.rpmTgt == 0.0 && w.drv.fullyStopped && rpm > 0.0
    ensures Pulsing(Do(w, SetTargetRpm(rpm), s).drv, s)
  {
  }

  // ---------- when a wheel is at rest ----------

  /** Outside a pulse, and every estimate sampled by the calls is at most 1.0. */
  ghost predicate Quiet(w: State, calls: seq<Timed>) {
    forall k :: 0 <= k < |calls| ==>
      !Run(w, calls[..k]).drv.startupActive
      && (calls[k].call.UpdateRpm? ==> Run(w, calls[..k + 1]).est.rpmEst <= 1.0)
  }

  lemma QuietPrefix(w: State, calls: seq<Timed>, n: nat)
    requires Quiet(w, calls) && n <= |calls|
    ensures Quiet(w, calls[..n])
  {
    forall k | 0 <= k < n
      ensures !Run(w, calls[..n][..k]).drv.startupActive
              && (calls[..n][k].call.UpdateRpm? ==> Run(w, calls[..n][..k + 1]).est.rpmEst <= 1.0)
    {
      assert calls[..n][..k] == calls[..k] && calls[..n][..k + 1] == calls[..k + 1];
    }
  }

  /** The stop timer has run since true time a. */
  predicate Timing(d: Drive, a: nat) {
    d.stopTimerRunning && d.zeroRpmStartedMs == Millis(a)
  }

  lemma TimingStep(w: State, c: Timed, a: nat)
    requires Timing(w.drv, a) && !w.drv.startupActive && !Do(w, c.call, c.us).drv.startupActive
    requires c.call.UpdateRpm? ==> Do(w, c.call, c.us).est.rpmEst <= 1.0
    ensures Timing(Do(w, c.call, c.us).drv, a)
  {
  }

  lemma {:induction false} TimingRun(w: State, calls: seq<Timed>, a: nat)
    requires Timing(w.drv, a) && Quiet(w, calls) && !Run(w, calls).drv.startupActive
    ensures Timing(Run(w, calls).drv, a)
  {
    if calls != [] {
      var n := |calls| - 1;
      QuietPrefix(w, calls, n);
      assert calls[..n + 1] == calls;
      TimingRun(w, calls[..n], a);
      TimingStep(Run(w, calls[..n]), calls[n], a);
    }
  }

  /** A sample above 1.0 outside a pulse takes a wheel for moving. */
  lemma LoudSampleMoves(w: State, us: nat)
    requires !w.drv.startupActive && Do(w, UpdateRpm, us).est.rpmEst > 1.0
    ensures var d := Do(w, UpdateRpm, us).drv; !d.stopTimerRunning && !d.fullyStopped
  {
  }

  /** After the first sample at most 1.0, at time a, a wheel is taken for at rest by any later sample
      200 counts of the millisecond clock or more after it, if every sample in between and the later
      one are at most 1.0 too and no pulse is in force. */
  lemma RestIsRecognised(w: State, a: nat, calls: seq<Timed>, b: nat, w': State)
    requires !w.drv.startupActive && !w.drv.stopTimerRunning
    requires Do(w, UpdateRpm, a).est.rpmEst <= 1.0 && a <= b && (Ms(b) - Ms(a)) % TICKS >= 200
    requires w' == Run(Do(w, UpdateRpm, a), calls) && Quiet(Do(w, UpdateRpm, a), calls) && !w'.drv.startupActive
    requires Do(w', UpdateRpm, b).est.rpmEst <= 1.0
    ensures Do(w', UpdateRpm, b).drv.fullyStopped
  {
    TimingRun(Do(w, UpdateRpm, a), calls, a);
    PulseAge(b, a);
    RestSample(w', a, b);
  }

  lemma RestSample(w: State, a: nat, b: nat)
    requires Timing(w.drv, a) && !w.drv.startupActive && Since(Millis(b), Millis(a)) >= 200
    requires Do(w, UpdateRpm, b).est.rpmEst <= 1.0
    ensures Do(w, UpdateRpm, b).drv.fullyStopped
  {
  }
}
