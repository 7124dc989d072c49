/** The obstacle interlock over whole runs of the AGV controller, in any order of its events. */
module AgvInterlock {
  import opened Clock
  import opened Schedule
  import opened AgvModel
  import WheelMotor
  import W = WheelModel
  import LineTracer

  /** The wheel is stopped, its controller reset, and stays so until it is given a target. */
  predicate Halted(d: W.Drive) {
    && d.rpmTgt == 0.0 && d.dirTgt == 0 && d.dirEst == 1 && !d.startupActive
    && d.dutyCur == 0 && d.dutyTgt == 0 && d.pin1 == 0 && d.pin2 == 0
    && d.dutyComp == 0.0 && d.errPrev == 0.0
  }

  predicate BothHalted(a: Agv) {
    Halted(a.left.drv) && Halted(a.right.drv)
  }

  /** A control tick that finds the way clear while tracing, or a SETSPEED that asks for motion. */
  predicate Releases(a: Agv, e: Event) {
    || (e.Con? && Due(a.lastCon, CON_PERIOD, e.us) && a.drivemode == 1 && !a.onobstacle)
    || (e.Serve? && e.command.SetSpeed? && (e.command.ls != 0 || e.command.rs != 0))
  }

  /** A control tick that finds an obstacle while tracing. */
  predicate StopsFor(a: Agv, us: nat) {
    Due(a.lastCon, CON_PERIOD, us) && a.drivemode == 1 && a.onobstacle
  }

  // ---------- one wheel ----------

  lemma CallKeepsHalted(w: W.State, call: W.Call, us: nat)
    requires Halted(w.drv)
    ensures Halted(W.Do(w, call, us).drv) <==> WheelMotor.KeepsZeroTarget(call)
  {
  }

  lemma CallsKeepHalted(w: W.State, calls: seq<W.Timed>)
    requires Halted(w.drv) && forall i :: 0 <= i < |calls| ==> WheelMotor.KeepsZeroTarget(calls[i].call)
    ensures Halted(W.Run(w, calls).drv)
  {
    if calls != [] {
      CallsKeepHalted(w, calls[..|calls| - 1]);
      CallKeepsHalted(W.Run(w, calls[..|calls| - 1]), calls[|calls| - 1].call, calls[|calls| - 1].us);
    }
  }

  lemma StopHalts(w: W.State, us: nat)
    requires w.drv.dirEst == 1
    ensures Halted(W.Do(w, W.StopWheel, us).drv)
  {
  }

  // ---------- one event ----------

  lemma QuietEventKeepsHalted(a: Agv, e: Event)
    requires BothHalted(a) && !Releases(a, e)
    ensures BothHalted(Do(a, e))
  {
    EventRunsCalls(a, Left, e);
    EventRunsCalls(a, Right, e);
    CallsKeepHalted(a.left, CallsOf(a, Left, e));
    CallsKeepHalted(a.right, CallsOf(a, Right, e));
  }

  /** After the policy, a control tick leaves the targets alone. */
  lemma ConTargets(a: Agv, us: nat)
    requires Due(a.lastCon, CON_PERIOD, us)
    ensures ConStep(a, us).left.drv.rpmTgt == DriveStep(a, us).left.drv.rpmTgt
    ensures ConStep(a, us).right.drv.rpmTgt == DriveStep(a, us).right.drv.rpmTgt
  {
  }

  lemma PolicyTargets(a: Agv, us: nat)
    requires a.drivemode == 1 && !a.onobstacle
    ensures var l, r := DriveStep(a, us).left.drv.rpmTgt, DriveStep(a, us).right.drv.rpmTgt;
            && (l < r <==> LineTracer.Leftward(a.tracer.policy))
            && (l > r <==> LineTracer.Rightward(a.tracer.policy))
            && l >= 0.0 && r >= 0.0 && (l > 0.0 || r > 0.0)
  {
  }

  /** A control tick with the way clear slows the wheel on the side of the turn, and only that one,
      and never reverses a wheel. */
  lemma SteersWithPolicy(a: Agv, us: nat)
    requires Due(a.lastCon, CON_PERIOD, us) && a.drivemode == 1 && !a.onobstacle
    ensures var l, r := Do(a, Con(us)).left.drv.rpmTgt, Do(a, Con(us)).right.drv.rpmTgt;
            && (l < r <==> LineTracer.Leftward(a.tracer.policy))
            && (l > r <==> LineTracer.Rightward(a.tracer.policy))
            && l >= 0.0 && r >= 0.0 && (l > 0.0 || r > 0.0)
  {
    PolicyTargets(a, us);
    ConTargets(a, us);
  }

  lemma ReleaseMoves(a: Agv, e: Event)
    requires Releases(a, e)
    ensures !BothHalted(Do(a, e))
  {
    if e.Con? {
      SteersWithPolicy(a, e.us);
    }
  }

  /** From standstill, exactly the releasing events give a wheel something to do. */
  lemma HaltedUnlessReleased(a: Agv, e: Event)
    requires BothHalted(a)
    ensures BothHalted(Do(a, e)) <==> !Releases(a, e)
  {
    if Releases(a, e) {
      ReleaseMoves(a, e);
    } else {
      QuietEventKeepsHalted(a, e);
    }
  }

  lemma ObstacleHalts(a: Agv, us: nat)
    requires StopsFor(a, us) && a.left.drv.dirEst == 1 && a.right.drv.dirEst == 1
    ensures BothHalted(Do(a, Con(us)))
  {
    StopHalts(a.left, us);
    StopHalts(a.right, us);
    assert BothHalted(DriveStep(a, us));
    CallKeepsHalted(DriveStep(a, us).left, W.UpdateRpm, us);
    CallKeepsHalted(DriveStep(a, us).right, W.UpdateRpm, us);
  }

  // ---------- runs ----------

  ghost predicate NeverReleased(a: Agv, events: seq<Event>) {
    forall k :: 0 <= k < |events| ==> !Releases(Run(a, events[..k]), events[k])
  }

  lemma NeverReleasedPrefix(a: Agv, events: seq<Event>, n: nat)
    requires NeverReleased(a, events) && n <= |events|
    ensures NeverReleased(a, events[..n])
  {
    forall k | 0 <= k < n ensures !Releases(Run(a, events[..n][..k]), events[..n][k]) {
      assert events[..n][..k] == events[..k];
    }
  }

  lemma {:induction false} StaysHalted(a: Agv, events: seq<Event>)
    requires BothHalted(a) && NeverReleased(a, events)
    ensures BothHalted(Run(a, events))
  {
    if events != [] {
      var n := |events| - 1;
      NeverReleasedPrefix(a, events, n);
      StaysHalted(a, events[..n]);
      HaltedUnlessReleased(Run(a, events[..n]), events[n]);
    }
  }

  lemma ReachableIsBounded(boot: nat, before: seq<Event>, side: Side)
    ensures WheelMotor.Bounded(WheelOf(Run(Boot(boot), before), side).drv)
  {
    WheelsRunTheirCalls(Boot(boot), side, before);
    WheelMotor.EveryStateIsBounded(Calls(Boot(boot), side, before));
  }

  /** Obstacle interlock: in any run, once a control tick in trace mode sees an obstacle, both
      motors are off after every event, in whatever order events come, until a control tick in
      trace mode sees the way clear or SETSPEED asks for motion. */
  lemma ObstacleInterlock(boot: nat, before: seq<Event>, us: nat, events: seq<Event>, k: nat)
    requires StopsFor(Run(Boot(boot), before), us)
    requires NeverReleased(Do(Run(Boot(boot), before), Con(us)), events) && k <= |events|
    ensures var a := Run(Do(Run(Boot(boot), before), Con(us)), events[..k]);
            W.Power(a.left.drv) == 0 && W.Power(a.right.drv) == 0 && BothHalted(a)
  {
    ReachableIsBounded(boot, before, Left);
    ReachableIsBounded(boot, before, Right);
    ObstacleHalts(Run(Boot(boot), before), us);
    NeverReleasedPrefix(Do(Run(Boot(boot), before), Con(us)), events, k);
    StaysHalted(Do(Run(Boot(boot), before), Con(us)), events[..k]);
  }

  // ---------- invalid ranges ----------

  /** A fast tick takes a finished measurement. */
  predicate TakesRange(a: Agv, e: Event) {
    e.Fast? && Due(a.lastFast, FAST_PERIOD, e.us) && a.sonar.resultReady
  }

  /** No event of the run takes a finished measurement. */
  predicate NoRangeTaken(a: Agv, events: seq<Event>) {
    forall k :: 0 <= k < |events| ==> !TakesRange(Run(a, events[..k]), events[k])
  }

  predicate TakesValidRange(a: Agv, e: Event) {
    TakesRange(a, e) && a.sonar.latestDistanceMm >= 0
  }

  /** True time of the last valid range; clock start counts as one. */
  function LastValid(a: Agv, events: seq<Event>): nat {
    if events == [] then 0
    else
      var init, last := events[..|events| - 1], events[|events| - 1];
      if TakesValidRange(Run(a, init), last) then last.us else LastValid(a, init)
  }

  predicate Ordered(events: seq<Event>) {
    forall i, j :: 0 <= i < j < |events| ==> events[i].us <= events[j].us
  }

  lemma LastRangeStep(a: Agv, e: Event)
    ensures Do(a, e).lastRange == if TakesValidRange(a, e) then Millis(e.us) else a.lastRange
  {
  }

  lemma {:induction false} LastRangeTracks(boot: nat, events: seq<Event>, us: nat)
    requires Ordered(events) && (events != [] ==> events[|events| - 1].us <= us)
    ensures Run(Boot(boot), events).lastRange == Millis(LastValid(Boot(boot), events))
    ensures LastValid(Boot(boot), events) <= us
  {
    if events != [] {
      var n := |events| - 1;
      assert n > 0 ==> events[n - 1].us <= events[n].us;
      LastRangeTracks(boot, events[..n], events[n].us);
      LastRangeStep(Run(Boot(boot), events[..n]), events[n]);
    }
  }

  lemma SinceMillis(l: nat, us: nat, last: nat)
    requires l <= us && last == Millis(l)
    ensures Ms(l) <= Ms(us) && Since(Millis(us), last) == (Ms(us) - Ms(l)) % TICKS <= Ms(us) - Ms(l)
  {
    SinceIsElapsed(Ms(l), Ms(us));
  }

  /** The controller's view of the time since the last valid range. */
  lemma SinceLastValid(boot: nat, events: seq<Event>, us: nat, l: nat)
    requires Ordered(events) && (events != [] ==> events[|events| - 1].us <= us) && l == LastValid(Boot(boot), events)
    ensures Ms(l) <= Ms(us)
    ensures Since(Millis(us), Run(Boot(boot), events).lastRange) == (Ms(us) - Ms(l)) % TICKS <= Ms(us) - Ms(l)
  {
    LastRangeTracks(boot, events, us);
    SinceMillis(l, us, Run(Boot(boot), events).lastRange);
  }

  /** What a fast tick makes of a finished measurement, over any run to state a, where l is the true
      time of the last valid range: a valid range decides by the 120 mm threshold, an invalid one
      counts as an obstacle exactly while less than 1000 ms have passed since l, across clock wrap. */
  lemma RangeDecidesObstacle(boot: nat, events: seq<Event>, e: Event, a: Agv, l: nat)
    requires a == Run(Boot(boot), events) && l == LastValid(Boot(boot), events)
    requires Ordered(events) && (events != [] ==> events[|events| - 1].us <= e.us)
    requires TakesRange(a, e)
    ensures Ms(l) <= Ms(e.us)
    ensures Do(a, e).onobstacle ==
            (if a.sonar.latestDistanceMm >= 0 then a.sonar.latestDistanceMm < OBSTACLE_STOP_DISTANCE_MM
             else (Ms(e.us) - Ms(l)) % TICKS < OBSTACLE_TIMEOUT)
  {
    SinceLastValid(boot, events, e.us, l);
    RangeDecides(a, e);
  }

  lemma RangeDecides(a: Agv, e: Event)
    requires TakesRange(a, e)
    ensures Do(a, e).onobstacle ==
            (if a.sonar.latestDistanceMm >= 0 then a.sonar.latestDistanceMm < OBSTACLE_STOP_DISTANCE_MM
             else Since(Millis(e.us), a.lastRange) < OBSTACLE_TIMEOUT)
  {
  }

  /** So an invalid range less than a second after the last valid one always stops the AGV at the
      next control tick in trace mode, unless another range is taken first: a is the state before
      the invalid range, b the state before the control tick. */
  lemma InvalidRangeStops(boot: nat, events: seq<Event>, e: Event, between: seq<Event>, us: nat, a: Agv, b: Agv)
    requires a == Run(Boot(boot), events) && b == Run(Do(a, e), between)
    requires Ordered(events) && (events != [] ==> events[|events| - 1].us <= e.us)
    requires TakesRange(a, e) && !TakesValidRange(a, e)
    requires Ms(e.us) - Ms(LastValid(Boot(boot), events)) < OBSTACLE_TIMEOUT
    requires NoRangeTaken(Do(a, e), between)
    requires Due(b.lastCon, CON_PERIOD, us) && b.drivemode == 1
    ensures BothHalted(Do(b, Con(us)))
  {
    InvalidIsObstacle(boot, events, e, a);
    ObstacleKept(Do(a, e), between);
    Reached(boot, events, e, between, a, b);
    ObstacleHalts(b, us);
  }

  lemma InvalidIsObstacle(boot: nat, events: seq<Event>, e: Event, a: Agv)
    requires a == Run(Boot(boot), events)
    requires Ordered(events) && (events != [] ==> events[|events| - 1].us <= e.us)
    requires TakesRange(a, e) && !TakesValidRange(a, e)
    requires Ms(e.us) - Ms(LastValid(Boot(boot), events)) < OBSTACLE_TIMEOUT
    ensures Do(a, e).onobstacle
  {
    SinceLastValid(boot, events, e.us, LastValid(Boot(boot), events));
    RangeDecides(a, e);
  }

  lemma Reached(boot: nat, events: seq<Event>, e: Event, between: seq<Event>, a: Agv, b: Agv)
    requires a == Run(Boot(boot), events) && b == Run(Do(a, e), between)
    ensures b.left.drv.dirEst == 1 && b.right.drv.dirEst == 1
  {
    var all := (events + [e]) + between;
    RunAppend(Boot(boot), events + [e], between);
    assert (events + [e])[..|events + [e]| - 1] == events;
    ReachableIsBounded(boot, all, Left);
    ReachableIsBounded(boot, all, Right);
  }

  lemma OnlyRangesDecide(a: Agv, e: Event)
    requires !TakesRange(a, e)
    ensures Do(a, e).onobstacle == a.onobstacle
  {
  }

  lemma {:induction false} ObstacleKept(a: Agv, events: seq<Event>)
    requires NoRangeTaken(a, events)
    ensures Run(a, events).onobstacle == a.onobstacle
  {
    if events != [] {
      var n := |events| - 1;
      NoRangePrefix(a, events, n);
      ObstacleKept(a, events[..n]);
      OnlyRangesDecide(Run(a, events[..n]), events[n]);
    }
  }

  lemma NoRangePrefix(a: Agv, events: seq<Event>, n: nat)
    requires NoRangeTaken(a, events) && n <= |events|
    ensures NoRangeTaken(a, events[..n])
  {
    forall k | 0 <= k < n ensures !TakesRange(Run(a, events[..n][..k]), events[..n][k]) {
      assert events[..n][..k] == events[..k];
    }
  }
}
