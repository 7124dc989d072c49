/** Kick-start pulses of one wheel cannot chatter. */
module WheelStartup {
  import opened Clock
  import opened WheelModel

  /** Call i starts a kick-start pulse. */
  predicate StartsAt(calls: seq<Timed>, i: nat)
    requires i < |calls|
  {
    calls[i].call.SetTargetRpm? && Starts(Run(FRESH, calls[..i]).drv, calls[i].call.rpm)
  }

  predicate SamplesAt(calls: seq<Timed>, i: nat)
    requires i < |calls|
  {
    calls[i].call.UpdateRpm?
  }

  /** Every estimate sampled by the calls from a up to but not including n is at most 1.0. */
  ghost predicate QuietBetween(calls: seq<Timed>, a: nat, n: nat)
    requires n <= |calls|
  {
    forall k :: a <= k < n && SamplesAt(calls, k) ==> Run(FRESH, calls[..k + 1]).est.rpmEst <= STOP_RPM_THRESHOLD
  }

  /** The stop timer has been running since the sample of call a. */
  ghost predicate TimedSince(calls: seq<Timed>, i: nat, a: nat, n: nat)
    requires n <= |calls|
  {
    && i < a < n && SamplesAt(calls, a) && QuietBetween(calls, a, n)
    && Run(FRESH, calls[..n]).drv.zeroRpmStartedMs == Millis(calls[a].us)
  }

  /** Between calls i and n lies a rest: samples a and b at least 200 counts of the millisecond
      clock apart with no other kind of sample between them. */
  ghost predicate Rest(calls: seq<Timed>, i: nat, a: nat, b: nat, n: nat)
    requires n <= |calls|
  {
    && i < a < b < n && SamplesAt(calls, a) && SamplesAt(calls, b) && QuietBetween(calls, a, b + 1)
    && Ms(calls[b].us) - Ms(calls[a].us) >= FULL_STOP_WAIT_MS
  }

  ghost predicate Explained(calls: seq<Timed>, i: nat, n: nat, t: nat, a: nat, b: nat)
    requires n <= |calls|
  {
    var d := Run(FRESH, calls[..n]).drv;
    && (d.startupActive ==> !d.stopTimerRunning && !d.fullyStopped)
    && (d.stopTimerRunning ==> TimedSince(calls, i, t, n))
    && (d.fullyStopped ==> Rest(calls, i, a, b, n))
  }

  lemma ElapsedMs(earlier: nat, now: nat)
    requires earlier <= now
    ensures Since(Millis(now), Millis(earlier)) <= Ms(now) - Ms(earlier)
  {
    SinceIsElapsed(Ms(earlier), Ms(now));
  }

  /** No call other than updateRPM starts the stop timer or marks the wheel fully stopped. */
  lemma OnlySamplesTime(w: State, call: Call, us: nat)
    requires !call.UpdateRpm?
    requires w.drv.startupActive ==> !w.drv.stopTimerRunning && !w.drv.fullyStopped
    ensures var d := Do(w, call, us).drv;
            && (d.startupActive ==> !d.stopTimerRunning && !d.fullyStopped)
            && (d.stopTimerRunning ==> w.drv.stopTimerRunning && d.zeroRpmStartedMs == w.drv.zeroRpmStartedMs)
            && (d.fullyStopped ==> w.drv.fullyStopped)
  {
  }

  lemma QuietGrows(calls: seq<Timed>, a: nat, n: nat)
    requires n < |calls| && QuietBetween(calls, a, n)
    requires SamplesAt(calls, n) ==> Run(FRESH, calls[..n + 1]).est.rpmEst <= STOP_RPM_THRESHOLD
    ensures QuietBetween(calls, a, n + 1)
  {
  }

  lemma ExplainOther(calls: seq<Timed>, i: nat, n: nat, t: nat, a: nat, b: nat)
    requires n < |calls| && Explained(calls, i, n, t, a, b) && !SamplesAt(calls, n)
    ensures Explained(calls, i, n + 1, t, a, b)
  {
    RunStep(FRESH, calls, n);
    OnlySamplesTime(Run(FRESH, calls[..n]), calls[n].call, calls[n].us);
    if Run(FRESH, calls[..n]).drv.stopTimerRunning {
      QuietGrows(calls, t, n);
    }
  }

  lemma ExplainSample(calls: seq<Timed>, i: nat, n: nat, t: nat, a: nat, b: nat) returns (t': nat, a': nat, b': nat)
    requires TimeOrdered(calls) && i < n < |calls| && Explained(calls, i, n, t, a, b) && SamplesAt(calls, n)
    ensures Explained(calls, i, n + 1, t', a', b')
  {
    RunStep(FRESH, calls, n);
    t', a', b' := t, a, b;
    var d := Run(FRESH, calls[..n]).drv;
    var rpm := Run(FRESH, calls[..n + 1]).est.rpmEst;
    if !d.startupActive && rpm <= STOP_RPM_THRESHOLD {
      if !d.stopTimerRunning {
        t' := n;
        assert QuietBetween(calls, n, n + 1);
      } else {
        ElapsedMs(calls[t].us, calls[n].us);
        QuietGrows(calls, t, n);
        if Since(Millis(calls[n].us), d.zeroRpmStartedMs) >= FULL_STOP_WAIT_MS {
          a', b' := t, n;
        }
      }
    }
  }

  lemma ExplainStart(calls: seq<Timed>, i: nat)
    requires i < |calls| && StartsAt(calls, i)
    ensures Explained(calls, i, i + 1, 0, 0, 0)
  {
    RunStep(FRESH, calls, i);
  }

  lemma {:induction false} ExplainStop(calls: seq<Timed>, i: nat, n: nat) returns (t: nat, a: nat, b: nat)
    requires TimeOrdered(calls) && i < n <= |calls| && StartsAt(calls, i)
    ensures Explained(calls, i, n, t, a, b)
    decreases n
  {
    if n == i + 1 {
      ExplainStart(calls, i);
      t, a, b := 0, 0, 0;
    } else {
      t, a, b := ExplainStop(calls, i, n - 1);
      if SamplesAt(calls, n - 1) {
        t, a, b := ExplainSample(calls, i, n - 1, t, a, b);
      } else {
        ExplainOther(calls, i, n - 1, t, a, b);
      }
    }
  }

  /** Between any two kick-start pulses of one wheel there are two samples at least 200 counts apart on
      the unwrapped millisecond clock, such that every estimate sampled from the one to the other
      is at most 1.0, however targets change and across clock wraps. */
  lemma RestBetweenStartups(calls: seq<Timed>, i: nat, j: nat)
    requires TimeOrdered(calls) && i < j < |calls| && StartsAt(calls, i) && StartsAt(calls, j)
    ensures exists a, b :: Rest(calls, i, a, b, j)
  {
    var t, a, b := ExplainStop(calls, i, j);
    assert Rest(calls, i, a, b, j);
  }
}
