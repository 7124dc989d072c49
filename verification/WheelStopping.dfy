/** After the last pulse the RPM estimate falls to zero and stays there. */
module WheelStopping {
  import opened Clock
  import opened Schedule
  import opened WheelModel
  import opened WheelEstimator

  /** One wheel's estimator with the two tick times of the scheduler that feed it. */
  datatype Loop = Loop(est: Estimator, lastCal: nat, lastCon: nat)

  /** updateCalc for one wheel. */
  function CalTick(s: Loop, us: nat): Loop {
    var span := Since(Millis(us), s.lastCal);
    if span >= CAL_PERIOD then s.(est := Average(s.est, span), lastCal := Millis(us)) else s
  }

  predicate ConDue(s: Loop, us: nat) {
    Since(Millis(us), s.lastCon) >= CON_PERIOD
  }

  /** updateCon for one wheel's estimator. */
  function ConTick(s: Loop, us: nat): Loop {
    if ConDue(s, us) then s.(est := Sample(s.est, us), lastCon := Millis(us)) else s
  }

  /** One loop iteration without encoder pulses. */
  function Iterate(s: Loop, us: nat): Loop {
    ConTick(CalTick(s, us), us)
  }

  function Iterations(s: Loop, times: seq<nat>): Loop {
    if times == [] then s else Iterate(Iterations(s, times[..|times| - 1]), times[|times| - 1])
  }

  const MAX_GAP_US := 50000

  /** Iterations at most 50 ms apart, starting after an iteration at time v; the last pulse, at
      time l, falls between that iteration and the next. */
  predicate Cadence(times: seq<nat>, v: nat, l: nat) {
    && v <= l <= v + MAX_GAP_US
    && forall i :: 0 <= i < |times| ==>
         l <= times[i] && Previous(times, v, i) <= times[i] <= Previous(times, v, i) + MAX_GAP_US
  }

  function Previous(times: seq<nat>, v: nat, i: nat): nat
    requires i <= |times|
  {
    if i == 0 then v else times[i - 1]
  }

  lemma CadencePrefix(times: seq<nat>, v: nat, l: nat, k: nat)
    requires Cadence(times, v, l) && k <= |times|
    ensures Cadence(times[..k], v, l)
  {
    forall i | 0 <= i < k
      ensures l <= times[..k][i]
      ensures Previous(times[..k], v, i) <= times[..k][i] <= Previous(times[..k], v, i) + MAX_GAP_US
    {
      assert Previous(times[..k], v, i) == Previous(times, v, i);
    }
  }

  function Latest(times: seq<nat>, v: nat): nat {
    if times == [] then v else times[|times| - 1]
  }

  lemma CadenceLast(times: seq<nat>, v: nat, l: nat, k: nat)
    requires Cadence(times, v, l) && k < |times|
    ensures Cadence(times[..k], v, l)
    ensures l <= times[k] && Latest(times[..k], v) <= times[k] <= Latest(times[..k], v) + MAX_GAP_US
  {
    CadencePrefix(times, v, l, k);
    assert Previous(times, v, k) == Latest(times[..k], v);
  }

  // ---------- the invariant ----------

  /** True times behind the 32-bit clocks: the last iteration, the last window boundary in
      milliseconds, and the last control tick. */
  datatype Trace = Trace(now: nat, cal: nat, conUs: nat)

  predicate Punctual(s: Loop, t: Trace) {
    && s.lastCal == t.cal % TICKS && s.lastCon == Ms(t.conUs) % TICKS
    && t.cal <= Ms(t.now) <= t.cal + CAL_PERIOD - 1
    && t.conUs <= t.now && Ms(t.now) <= Ms(t.conUs) + CON_PERIOD - 1
  }

  /** The window with the last pulse in it is still open, or the first empty one is, or an empty
      one has closed. */
  predicate WindowsDrain(e: Estimator, l: nat, cal: nat) {
    || cal <= Ms(l)
    || (e.encCount == 0 && cal <= Ms(l) + 149)
    || (e.encCount == 0 && e.rpmAvr == 0.0)
  }

  /** The last pulse came after an interval of at most one second. */
  predicate LastPulseIs(e: Estimator, l: nat) {
    0 < e.pulseInterval <= INS_RPM_TIMEOUT && e.lastPulse == Micros(l) != 0
  }

  predicate Processed(e: Estimator) {
    e.lastProcessed == e.lastPulse
  }

  /** The estimate d microseconds after the last pulse of period p. */
  function Level(p: nat, d: nat): real
    requires p > 0
  {
    if d > NO_PULSE_DECAY_START_US then MinReal(PeriodRpm(p), PeriodRpm(d)) else PeriodRpm(p)
  }

  predicate Decaying(e: Estimator, l: nat, conUs: nat)
    requires e.pulseInterval > 0
  {
    && Processed(e) && e.rpmIns == PeriodRpm(e.pulseInterval)
    && l <= conUs <= l + AdaptiveTimeout(e.pulseInterval)
    && e.rpmEst == Level(e.pulseInterval, conUs - l)
  }

  predicate Expired(e: Estimator) {
    Processed(e) && e.rpmIns == -1.0 && e.rpmEst == 0.0 && e.rpmAvr == 0.0 && e.encCount == 0
  }

  predicate Stopping(s: Loop, l: nat, t: Trace) {
    && LastPulseIs(s.est, l) && Punctual(s, t) && WindowsDrain(s.est, l, t.cal)
    && ((!Processed(s.est) && t.conUs <= l) || Decaying(s.est, l, t.conUs)
        || (Expired(s.est) && t.conUs > l + AdaptiveTimeout(s.est.pulseInterval)))
  }

  lemma LevelFalls(p: nat, d: nat, d': nat)
    requires 0 < p && d <= d'
    ensures 0.0 < Level(p, d') <= Level(p, d)
  {
    PeriodRpmDecreases(p, p);
    if d' > NO_PULSE_DECAY_START_US {
      PeriodRpmDecreases(d', d');
      if d > NO_PULSE_DECAY_START_US {
        PeriodRpmDecreases(d, d');
      }
    }
  }

  lemma SinceMs(earlier: nat, now: nat)
    requires earlier <= Ms(now) < earlier + TICKS
    ensures Since(Millis(now), earlier % TICKS) == Ms(now) - earlier
  {
    SinceIsElapsed(earlier, Ms(now));
  }

  lemma EmptyAverage(e: Estimator, span: nat)
    requires e.encCount == 0 && span > 0
    ensures Average(e, span).rpmAvr == 0.0
  {
    assert 0.0 / span as real == 0.0;
  }

  /** updateCalc moves the windows one on. */
  lemma CalStep(s: Loop, l: nat, t: Trace, us: nat) returns (t': Trace)
    requires Punctual(s, t) && WindowsDrain(s.est, l, t.cal) && t.now <= us <= t.now + MAX_GAP_US && l <= us
    ensures t' == t.(cal := t'.cal) && t'.cal <= Ms(us) <= t'.cal + CAL_PERIOD - 1
    ensures var s' := CalTick(s, us);
            s'.lastCal == t'.cal % TICKS && s'.lastCon == s.lastCon
            && WindowsDrain(s'.est, l, t'.cal)
            && s'.est == s.est.(encCount := s'.est.encCount, rpmAvr := s'.est.rpmAvr)
            && (Expired(s.est) ==> Expired(s'.est))
  {
    SinceMs(t.cal, us);
    var span := Ms(us) - t.cal;
    t' := if span >= CAL_PERIOD then t.(cal := Ms(us)) else t;
    if s.est.encCount == 0 && span > 0 {
      EmptyAverage(s.est, span);
    }
  }

  /** Past the shortest timeout an empty window has closed. */
  lemma DrainedInTime(e: Estimator, l: nat, cal: nat, us: nat)
    requires WindowsDrain(e, l, cal) && l <= us && Ms(us) <= cal + CAL_PERIOD - 1
    requires us - l > NO_PULSE_TIMEOUT_MIN_US
    ensures e.encCount == 0 && e.rpmAvr == 0.0
  {
  }

  /** The sample of a control tick at time us. */
  lemma SampleStep(e: Estimator, l: nat, cal: nat, conUs: nat, us: nat)
    requires LastPulseIs(e, l) && WindowsDrain(e, l, cal)
    requires (!Processed(e) && conUs <= l) || Decaying(e, l, conUs)
    requires l <= us < l + TICKS && Ms(us) <= cal + CAL_PERIOD - 1
    ensures var e' := Sample(e, us);
            LastPulseIs(e', l) && WindowsDrain(e', l, cal)
            && (if us - l > AdaptiveTimeout(e.pulseInterval) then Expired(e') else Decaying(e', l, us))
  {
    SinceIsElapsed(l, us);
    PeriodRpmDecreases(e.pulseInterval, e.pulseInterval);
    if us - l > AdaptiveTimeout(e.pulseInterval) {
      DrainedInTime(e, l, cal, us);
    }
  }

  lemma ExpiredStep(e: Estimator, us: nat)
    requires Expired(e)
    ensures Expired(Sample(e, us))
  {
  }

  lemma ConSoon(l: nat, t: Trace, p: nat, us: nat)
    requires p <= INS_RPM_TIMEOUT && Ms(t.now) <= Ms(t.conUs) + CON_PERIOD - 1
    requires t.conUs <= l + AdaptiveTimeout(p) && t.now <= us <= t.now + MAX_GAP_US
    ensures us < l + TICKS
  {
  }

  /** One iteration keeps the invariant, and the estimate of a processed pulse does not rise. */
  lemma IterateStep(s: Loop, l: nat, t: Trace, us: nat) returns (t': Trace)
    requires Stopping(s, l, t) && t.now <= us <= t.now + MAX_GAP_US && l <= us
    ensures t'.now == us && Stopping(Iterate(s, us), l, t') && (ConDue(s, us) ==> t'.conUs == us)
    ensures Processed(s.est) ==> Processed(Iterate(s, us).est) && 0.0 <= Iterate(s, us).est.rpmEst <= s.est.rpmEst
    ensures Iterate(s, us).est.pulseInterval == s.est.pulseInterval
  {
    var c := CalStep(s, l, t, us);
    var s1 := CalTick(s, us);
    SinceMs(Ms(t.conUs), us);
    t' := c.(now := us);
    if Ms(us) - Ms(t.conUs) >= CON_PERIOD {
      t' := t'.(conUs := us);
      if Expired(s1.est) {
        ExpiredStep(s1.est, us);
      } else {
        ConSoon(l, t, s.est.pulseInterval, us);
        SampleStep(s1.est, l, c.cal, t.conUs, us);
        if Processed(s.est) {
          LevelFalls(s.est.pulseInterval, t.conUs - l, us - l);
        }
      }
    } else if Decaying(s.est, l, t.conUs) {
      LevelFalls(s.est.pulseInterval, t.conUs - l, t.conUs - l);
    }
  }

  lemma IterateKeeps(before: Loop, after: Loop, l: nat, t: Trace, us: nat) returns (t': Trace)
    requires Stopping(before, l, t) && t.now <= us <= t.now + MAX_GAP_US && l <= us
    requires after == Iterate(before, us)
    ensures t'.now == us && Stopping(after, l, t') && after.est.pulseInterval == before.est.pulseInterval
  {
    t' := IterateStep(before, l, t, us);
  }

  // ---------- whole runs ----------

  /** The invariant holds right after any accepted pulse at time l that closes an interval of at
      most one second, the last iteration having been at time t.now. */
  lemma AfterPulse(s: Loop, t: Trace, l: nat)
    requires Punctual(s, t) && t.now <= l && s.est.lastPulse != 0 && Accepts(s.est, l)
    requires Since(Micros(l), s.est.lastPulse) <= INS_RPM_TIMEOUT
    requires Micros(l) != 0 && Micros(l) != s.est.lastProcessed
    ensures Stopping(s.(est := Pulse(s.est, l)), l, t)
  {
  }

  lemma {:induction false} StoppingRun(s: Loop, l: nat, t: Trace, times: seq<nat>) returns (t': Trace)
    requires Stopping(s, l, t) && Cadence(times, t.now, l)
    ensures Stopping(Iterations(s, times), l, t')
    ensures t'.now == Latest(times, t.now)
    ensures Iterations(s, times).est.pulseInterval == s.est.pulseInterval
  {
    if times == [] {
      t' := t;
    } else {
      var init, us := times[..|times| - 1], times[|times| - 1];
      CadenceLast(times, t.now, l, |init|);
      t' := StoppingRun(s, l, t, init);
      t' := IterateKeeps(Iterations(s, init), Iterations(s, times), l, t', us);
    }
  }

  /** Iteration k of the run, from the estimates before and after it. */
  lemma NextIteration(s: Loop, l: nat, t: Trace, times: seq<nat>, k: nat, before: Loop, after: Loop)
    requires Stopping(s, l, t) && Cadence(times, t.now, l) && k < |times|
    requires before == Iterations(s, times[..k]) && after == Iterations(s, times[..k + 1])
    ensures Processed(before.est) ==> Processed(after.est) && 0.0 <= after.est.rpmEst <= before.est.rpmEst
  {
    CadenceLast(times, t.now, l, k);
    var t' := StoppingRun(s, l, t, times[..k]);
    assert times[..k + 1][..k] == times[..k];
    t' := IterateStep(before, l, t', times[k]);
  }

  /** Once the sample that processes the last pulse is taken, the estimate never rises again. */
  lemma {:induction false} EstimateNeverRises(s: Loop, l: nat, t: Trace, times: seq<nat>, i: nat, j: nat)
    requires Stopping(s, l, t) && Cadence(times, t.now, l) && i <= j <= |times|
    requires Processed(Iterations(s, times[..i]).est)
    ensures Processed(Iterations(s, times[..j]).est)
    ensures Iterations(s, times[..j]).est.rpmEst <= Iterations(s, times[..i]).est.rpmEst
    decreases j
  {
    if i < j {
      EstimateNeverRises(s, l, t, times, i, j - 1);
      NextIteration(s, l, t, times, j - 1, Iterations(s, times[..j - 1]), Iterations(s, times[..j]));
    }
  }

  lemma StepAt(s: Loop, times: seq<nat>, j: nat)
    requires j < |times|
    ensures Iterations(s, times[..j + 1]) == Iterate(Iterations(s, times[..j]), times[j])
  {
    assert times[..j + 1][..j] == times[..j];
  }

  lemma DecayStep(s: Loop, l: nat, t: Trace, us: nat, after: Estimator)
    requires Stopping(s, l, t) && t.now <= us <= t.now + MAX_GAP_US && l < us && ConDue(s, us)
    requires after == Iterate(s, us).est
    ensures after.rpmEst == if us - l > AdaptiveTimeout(s.est.pulseInterval) then 0.0
                            else Level(s.est.pulseInterval, us - l)
  {
    var t' := IterateStep(s, l, t, us);
    assert Iterate(s, us).est.pulseInterval == s.est.pulseInterval;
  }

  lemma LevelIs(p: nat, d: nat)
    requires 0 < p
    ensures Level(p, d) == if d <= 100000 then 3000000.0 / p as real
                           else MinReal(3000000.0 / p as real, 3000000.0 / d as real)
  {
    PeriodRpmIs(p);
    if d > 100000 {
      PeriodRpmIs(d);
    }
  }

  /** What every control tick after the last pulse estimates, d microseconds after it and p being the
      interval it closed: the RPM of that interval for 100 ms, from then on no more than the RPM at
      which the next pulse would just have come, and nothing past twice the interval, which counts
      as 300 ms at least and a second at most. */
  lemma DecayIsExact(s: Loop, l: nat, t: Trace, times: seq<nat>, k: nat, p: nat, d: nat, after: Estimator)
    requires Stopping(s, l, t) && Cadence(times, t.now, l) && k < |times|
    requires ConDue(Iterations(s, times[..k]), times[k]) && times[k] == l + d && d > 0
    requires p == s.est.pulseInterval && after == Iterations(s, times[..k + 1]).est
    ensures 0 < p && after.rpmEst ==
            if d > (if 2 * p <= 300000 then 300000 else if 2 * p <= 1000000 then 2 * p else 1000000) then 0.0
            else if d <= 100000 then 3000000.0 / p as real
            else MinReal(3000000.0 / p as real, 3000000.0 / d as real)
  {
    CadenceLast(times, t.now, l, k);
    var t' := StoppingRun(s, l, t, times[..k]);
    StepAt(s, times, k);
    DecayStep(Iterations(s, times[..k]), l, t', times[k], after);
    TimeoutIs(p);
    LevelIs(p, d);
  }

  lemma TimeoutIs(p: nat)
    requires p <= INS_RPM_TIMEOUT
    ensures AdaptiveTimeout(p) ==
            if 2 * p <= 300000 then 300000 else if 2 * p <= 1000000 then 2 * p else 1000000
  {
  }

  // ---------- the estimate reaches zero, after any last pulse ----------

  /** The last pulse has been turned into an instant estimate, or never will be. */
  predicate Settled(e: Estimator) {
    e.pulseInterval == 0 || e.lastPulse == 0 || Processed(e)
  }

  predicate UsesInstant(e: Estimator) {
    e.rpmIns >= 0.0 && e.lastPulse != 0
  }

  /** After a sample at time conUs: the instant estimate is in use and credible, or the window average
      is in use, and was zero if the sample came late enough. */
  predicate Sampled(e: Estimator, l: nat, conUs: nat) {
    && Settled(e)
    && if UsesInstant(e) then conUs <= l + AdaptiveTimeout(e.pulseInterval)
       else conUs > l + NO_PULSE_TIMEOUT_MIN_US ==> e.rpmEst == 0.0
  }

  /** The last accepted pulse came at time l, whatever interval it closed and wherever it is stamped. */
  predicate Fading(s: Loop, l: nat, t: Trace) {
    && s.est.lastPulse == Micros(l) && Punctual(s, t) && WindowsDrain(s.est, l, t.cal)
    && (t.conUs <= l || Sampled(s.est, l, t.conUs))
  }

  lemma TimeoutAtMost(p: nat)
    ensures NO_PULSE_TIMEOUT_MIN_US <= AdaptiveTimeout(p) <= INS_RPM_TIMEOUT
  {
  }

  /** The sample of a control tick at time us. */
  lemma FadeSample(e: Estimator, l: nat, cal: nat, us: nat)
    requires e.lastPulse == Micros(l) && WindowsDrain(e, l, cal) && l <= us && Ms(us) <= cal + CAL_PERIOD - 1
    requires us < l + TICKS || (Settled(e) && !UsesInstant(e))
    ensures var e' := Sample(e, us);
            e'.lastPulse == e.lastPulse && e'.pulseInterval == e.pulseInterval && WindowsDrain(e', l, cal)
            && Sampled(e', l, us)
  {
    if us - l > NO_PULSE_TIMEOUT_MIN_US {
      DrainedInTime(e, l, cal, us);
    }
    if us < l + TICKS {
      SinceIsElapsed(l, us);
    }
  }

  lemma IterateFades(s: Loop, l: nat, t: Trace, us: nat, s': Loop) returns (t': Trace)
    requires Fading(s, l, t) && t.now <= us <= t.now + MAX_GAP_US && l <= us && s' == Iterate(s, us)
    ensures t'.now == us && t'.conUs >= t.conUs && Fading(s', l, t') && s'.est.pulseInterval == s.est.pulseInterval
    ensures ConDue(s, us) ==> t'.conUs == us
  {
    var c := CalStep(s, l, t, us);
    var s1 := CalTick(s, us);
    SinceMs(Ms(t.conUs), us);
    t' := c.(now := us);
    if Ms(us) - Ms(t.conUs) >= CON_PERIOD {
      t' := t'.(conUs := us);
      if t.conUs <= l || UsesInstant(s1.est) {
        TimeoutAtMost(s.est.pulseInterval);
        Soon(l, t, us);
      }
      FadeSample(s1.est, l, c.cal, us);
    }
  }

  lemma Soon(l: nat, t: Trace, us: nat)
    requires Ms(t.now) <= Ms(t.conUs) + CON_PERIOD - 1
    requires t.conUs <= l + INS_RPM_TIMEOUT && t.now <= us <= t.now + MAX_GAP_US
    ensures us < l + TICKS
  {
  }

  /** The invariant holds right after any accepted pulse. */
  lemma FadingStarts(s: Loop, t: Trace, l: nat)
    requires Punctual(s, t) && t.now <= l && Accepts(s.est, l)
    ensures Fading(s.(est := Pulse(s.est, l)), l, t)
  {
  }

  lemma {:induction false} FadingRun(s: Loop, l: nat, t: Trace, times: seq<nat>) returns (t': Trace)
    requires Fading(s, l, t) && Cadence(times, t.now, l)
    ensures Fading(Iterations(s, times), l, t') && t'.now == Latest(times, t.now)
    ensures Iterations(s, times).est.pulseInterval == s.est.pulseInterval
  {
    if times == [] {
      t' := t;
    } else {
      var init, us := times[..|times| - 1], times[|times| - 1];
      CadenceLast(times, t.now, l, |init|);
      t' := FadingRun(s, l, t, init);
      t' := IterateFades(Iterations(s, init), l, t', us, Iterations(s, times));
    }
  }

  lemma NextFades(s: Loop, l: nat, t: Trace, times: seq<nat>, j: nat, before: Loop, after: Loop, u: Trace)
                  returns (u': Trace)
    requires Cadence(times, t.now, l) && j < |times| && Fading(before, l, u) && u.now == Latest(times[..j], t.now)
    requires after == Iterate(before, times[j])
    ensures Fading(after, l, u') && u'.now == times[j] && u'.conUs >= u.conUs
    ensures after.est.pulseInterval == before.est.pulseInterval
    ensures ConDue(before, times[j]) ==> u'.conUs == times[j]
  {
    CadenceLast(times, t.now, l, j);
    u' := IterateFades(before, l, u, times[j], after);
  }

  /** From a control tick at iteration k on, the last control tick is no earlier. */
  lemma {:induction false} FadedSince(s: Loop, l: nat, t: Trace, times: seq<nat>, k: nat, j: nat) returns (t': Trace)
    requires Fading(s, l, t) && Cadence(times, t.now, l) && k <= j < |times|
    requires ConDue(Iterations(s, times[..k]), times[k])
    ensures Fading(Iterations(s, times[..j + 1]), l, t') && t'.now == times[j] && t'.conUs >= times[k]
    ensures Iterations(s, times[..j + 1]).est.pulseInterval == s.est.pulseInterval
    decreases j
  {
    StepAt(s, times, j);
    if k == j {
      CadencePrefix(times, t.now, l, k);
      t' := FadingRun(s, l, t, times[..k]);
    } else {
      t' := FadedSince(s, l, t, times, k, j - 1);
    }
    t' := NextFades(s, l, t, times, j, Iterations(s, times[..j]), Iterations(s, times[..j + 1]), t');
  }

  lemma LateIsZero(s: Loop, l: nat, t: Trace, p: nat)
    requires Fading(s, l, t) && s.est.pulseInterval == p && t.conUs > l + AdaptiveTimeout(p)
    ensures s.est.rpmEst == 0.0
  {
    TimeoutAtMost(p);
  }

  /** The first control tick later than the adaptive timeout, which is at most a second, sets the
      estimate to zero, and it stays zero: by then an empty window has closed, so the window
      average it falls back to is zero as well. */
  lemma EstimateReachesZero(s: Loop, l: nat, t: Trace, times: seq<nat>, k: nat, j: nat)
    requires Fading(s, l, t) && Cadence(times, t.now, l) && k <= j < |times|
    requires ConDue(Iterations(s, times[..k]), times[k])
    requires times[k] - l > AdaptiveTimeout(s.est.pulseInterval)
    ensures Iterations(s, times[..j + 1]).est.rpmEst == 0.0
  {
    var t' := FadedSince(s, l, t, times, k, j);
    LateIsZero(Iterations(s, times[..j + 1]), l, t', s.est.pulseInterval);
  }

  /** No later than 21 ms after the timeout, whatever the phase of the ticks, the estimate is zero. */
  lemma ZeroByDeadline(s: Loop, l: nat, t: Trace, times: seq<nat>)
    requires Fading(s, l, t) && Cadence(times, t.now, l) && times != []
    requires times[|times| - 1] - l > AdaptiveTimeout(s.est.pulseInterval) + 21000
    ensures Iterations(s, times).est.rpmEst == 0.0
  {
    TimeoutAtMost(s.est.pulseInterval);
    var t' := FadingRun(s, l, t, times);
  }
}
