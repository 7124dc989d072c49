/** What the serial commands do to later events, over whole runs of the AGV controller in any order
    of its events: the hypotheses speak of the commands served, never of the drive mode. */
module AgvCommands {
  import opened Clock
  import opened Schedule
  import opened AgvModel
  import opened AgvInterlock
  import AgvTelemetry
  import LineTracer
  import Telemetry
  import WheelMotor
  import W = WheelModel

  /** LINETRACE, STOP or SETSPEED is served. */
  predicate Resumes(e: Event) {
    e.Serve? && (e.command.LineTrace? || e.command.StopDriving? || e.command.SetSpeed?)
  }

  /** Any command but SETPID is served. */
  predicate Directs(e: Event) {
    Resumes(e) || (e.Serve? && e.command.EmergencyStop?)
  }

  predicate NoneResumes(events: seq<Event>) {
    forall i :: 0 <= i < |events| ==> !Resumes(events[i])
  }

  predicate NoneDirects(events: seq<Event>) {
    forall i :: 0 <= i < |events| ==> !Directs(events[i])
  }

  /** The reports sent from the n-th on all carry this state. */
  predicate ReportsSay(sent: seq<Telemetry.Report>, n: nat, state: string) {
    forall i :: n <= i < |sent| ==> sent[i].state == state
  }

  lemma AppendKeepsReports(sent: seq<Telemetry.Report>, r: Telemetry.Report, n: nat, state: string)
    requires ReportsSay(sent, n, state) && r.state == state
    ensures ReportsSay(sent + [r], n, state)
  {
  }

  lemma EventKeepsReports(a: Agv, e: Event, n: nat, state: string)
    requires ReportsSay(a.sent, n, state) && a.drivestate == state
    ensures ReportsSay(Do(a, e).sent, n, state)
  {
    AgvTelemetry.SentByStatus(a, e);
    AppendKeepsReports(a.sent, StatusOf(a), n, state);
  }

  lemma ReachableDirection(boot: nat, before: seq<Event>)
    ensures Run(Boot(boot), before).left.drv.dirEst == 1 && Run(Boot(boot), before).right.drv.dirEst == 1
  {
    ReachableIsBounded(boot, before, Left);
    ReachableIsBounded(boot, before, Right);
  }

  // ---------- EMERGENCYSTOP ----------

  predicate Emergency(a: Agv, n: nat) {
    BothHalted(a) && a.drivemode == -1 && a.drivestate == "EMERGENCYSTOPPED"
    && ReportsSay(a.sent, n, "EMERGENCYSTOPPED")
  }

  lemma EmergencyBegins(a: Agv, us: nat)
    requires a.left.drv.dirEst == 1 && a.right.drv.dirEst == 1
    ensures Emergency(Do(a, Serve(EmergencyStop, us)), |a.sent|)
  {
    StopHalts(a.left, us);
    StopHalts(a.right, us);
  }

  lemma EmergencyMode(a: Agv, e: Event)
    requires a.drivemode == -1 && a.drivestate == "EMERGENCYSTOPPED" && !Resumes(e)
    ensures Do(a, e).drivemode == -1 && Do(a, e).drivestate == "EMERGENCYSTOPPED"
  {
  }

  lemma EmergencyStep(a: Agv, e: Event, n: nat)
    requires Emergency(a, n) && !Resumes(e)
    ensures Emergency(Do(a, e), n)
  {
    EmergencyMode(a, e);
    HaltedUnlessReleased(a, e);
    EventKeepsReports(a, e, n, "EMERGENCYSTOPPED");
  }

  lemma {:induction false} EmergencyLasts(a: Agv, events: seq<Event>, n: nat)
    requires Emergency(a, n) && NoneResumes(events)
    ensures Emergency(Run(a, events), n)
  {
    if events != [] {
      EmergencyLasts(a, events[..|events| - 1], n);
      EmergencyStep(Run(a, events[..|events| - 1]), events[|events| - 1], n);
    }
  }

  /** Once EMERGENCYSTOP is served, in any reachable state, both wheels are halted and unpowered after
      every event, obstacle or not, and every report sent says EMERGENCYSTOPPED, until LINETRACE,
      STOP or SETSPEED is served: b is the state at any later moment. */
  lemma EmergencyStopHolds(boot: nat, before: seq<Event>, a: Agv, us: nat, events: seq<Event>, b: Agv)
    requires a == Run(Boot(boot), before) && b == Run(Do(a, Serve(EmergencyStop, us)), events)
    requires NoneResumes(events)
    ensures BothHalted(b) && W.Power(b.left.drv) == 0 && W.Power(b.right.drv) == 0
    ensures b.drivestate == "EMERGENCYSTOPPED" && ReportsSay(b.sent, |a.sent|, "EMERGENCYSTOPPED")
  {
    ReachableDirection(boot, before);
    EmergencyBegins(a, us);
    EmergencyLasts(Do(a, Serve(EmergencyStop, us)), events, |a.sent|);
  }

  // ---------- the drive mode between commands ----------

  lemma {:induction false} ModeLasts(a: Agv, events: seq<Event>)
    requires NoneDirects(events)
    ensures Run(a, events).drivemode == a.drivemode
  {
    if events != [] {
      ModeLasts(a, events[..|events| - 1]);
      ModeStep(Run(a, events[..|events| - 1]), events[|events| - 1]);
    }
  }

  lemma ModeStep(a: Agv, e: Event)
    requires !Directs(e)
    ensures Do(a, e).drivemode == a.drivemode
  {
  }

  // ---------- STOP ----------

  /** Told to stop, and saying so. */
  predicate Stopping(a: Agv) {
    && a.drivestate == "STOP"
    && a.left.drv.rpmTgt == 0.0 && a.left.drv.dirTgt == 0 && !a.left.drv.startupActive
    && a.right.drv.rpmTgt == 0.0 && a.right.drv.dirTgt == 0 && !a.right.drv.startupActive
  }

  lemma ZeroTargets(w: W.State, us: nat, dtMillis: nat)
    ensures var d := W.Do(W.Do(W.Do(w, W.SetTargetRpm(0.0), us), W.UpdateRpm, us), W.FollowRpm(dtMillis), us).drv;
            d.rpmTgt == 0.0 && d.dirTgt == 0 && !d.startupActive
  {
  }

  lemma StopTick(a: Agv, t: nat)
    requires a.drivemode == 0 && Due(a.lastCon, CON_PERIOD, t)
    ensures Stopping(Do(a, Con(t)))
  {
    ZeroTargets(a.left, t, Since(Millis(t), a.lastCon));
    ZeroTargets(a.right, t, Since(Millis(t), a.lastCon));
  }

  /** Every control tick after STOP, whatever events but other commands lie between, leaves both
      targets at zero, ends any start-up pulse, and names the state STOP. */
  lemma StopIsObeyed(boot: nat, before: seq<Event>, a: Agv, us: nat, between: seq<Event>, b: Agv, t: nat)
    requires a == Run(Boot(boot), before) && b == Run(Do(a, Serve(StopDriving, us)), between)
    requires NoneDirects(between) && Due(b.lastCon, CON_PERIOD, t)
    ensures Stopping(Do(b, Con(t)))
  {
    ModeLasts(Do(a, Serve(StopDriving, us)), between);
    StopTick(b, t);
  }

  lemma {:induction false} WheelCoasts(w: W.State, calls: seq<W.Timed>)
    requires WheelMotor.Coasting(w.drv, 0)
    requires forall i :: 0 <= i < |calls| ==> WheelMotor.KeepsZeroTarget(calls[i].call)
    ensures WheelMotor.Coasting(W.Run(w, calls).drv, WheelMotor.Motors(calls))
  {
    if calls != [] {
      var n := |calls| - 1;
      WheelCoasts(w, calls[..n]);
      WheelMotor.CoastingStep(W.Run(w, calls[..n]), calls[n].call, calls[n].us, WheelMotor.Motors(calls[..n]));
    }
  }

  lemma {:induction false} StoppingCalls(a: Agv, side: Side, events: seq<Event>)
    requires a.drivemode == 0 && NoneDirects(events)
    ensures forall i :: 0 <= i < |Calls(a, side, events)| ==>
              WheelMotor.KeepsZeroTarget(Calls(a, side, events)[i].call)
  {
    if events != [] {
      var init := events[..|events| - 1];
      StoppingCalls(a, side, init);
      ModeLasts(a, init);
      StoppingCall(Run(a, init), side, events[|events| - 1]);
    }
  }

  lemma StoppingCall(a: Agv, side: Side, e: Event)
    requires a.drivemode == 0 && !Directs(e)
    ensures forall i :: 0 <= i < |CallsOf(a, side, e)| ==> WheelMotor.KeepsZeroTarget(CallsOf(a, side, e)[i].call)
  {
  }

  predicate StopSaid(a: Agv, n: nat) {
    a.drivemode == 0 && a.drivestate == "STOP" && ReportsSay(a.sent, n, "STOP")
  }

  lemma StopStaysSaid(a: Agv, e: Event, n: nat)
    requires StopSaid(a, n) && !Directs(e)
    ensures StopSaid(Do(a, e), n)
  {
    ModeStep(a, e);
    EventKeepsReports(a, e, n, "STOP");
    assert Do(a, e).drivestate == "STOP";
  }

  lemma {:induction false} StopLasts(a: Agv, events: seq<Event>, n: nat)
    requires StopSaid(a, n) && NoneDirects(events)
    ensures StopSaid(Run(a, events), n)
  {
    if events != [] {
      StopLasts(a, events[..|events| - 1], n);
      StopStaysSaid(Run(a, events[..|events| - 1]), events[|events| - 1], n);
    }
  }

  lemma StoppedCoasts(a: Agv, side: Side, events: seq<Event>)
    requires WheelMotor.Bounded(WheelOf(a, side).drv)
    requires a.drivemode == 0 && Stopping(a) && NoneDirects(events)
    requires WheelMotor.Motors(Calls(a, side, events)) >= 4
    ensures W.Power(WheelOf(Run(a, events), side).drv) == 0
  {
    StoppingCalls(a, side, events);
    WheelCoasts(WheelOf(a, side), Calls(a, side, events));
    WheelsRunTheirCalls(a, side, events);
  }

  lemma TwoStages(boot: nat, before: seq<Event>, a: Agv, e: Event, between: seq<Event>, b: Agv)
    returns (all: seq<Event>)
    requires a == Run(Boot(boot), before) && b == Run(Do(a, e), between)
    ensures b == Run(Boot(boot), all)
  {
    all := before + [e] + between;
    OneEvent(a, e);
    RunAppend(Boot(boot), before, [e]);
    RunAppend(Boot(boot), before + [e], between);
  }

  /** From such a control tick on, until another command comes, every report says STOP, and a wheel is
      without power from its fourth motor update on. */
  lemma StopCoasts(boot: nat, before: seq<Event>, a: Agv, us: nat, between: seq<Event>, b: Agv, t: nat,
                   events: seq<Event>, c: Agv, side: Side)
    requires a == Run(Boot(boot), before) && b == Run(Do(a, Serve(StopDriving, us)), between)
    requires NoneDirects(between) && Due(b.lastCon, CON_PERIOD, t)
    requires c == Run(Do(b, Con(t)), events) && NoneDirects(events)
    ensures c.drivestate == "STOP" && ReportsSay(c.sent, |b.sent|, "STOP")
    ensures WheelMotor.Motors(Calls(Do(b, Con(t)), side, events)) >= 4 ==> W.Power(WheelOf(c, side).drv) == 0
  {
    ModeLasts(Do(a, Serve(StopDriving, us)), between);
    var all := TwoStages(boot, before, a, Serve(StopDriving, us), between, b);
    var b' := Do(b, Con(t));
    StopTick(b, t);
    ModeStep(b, Con(t));
    AgvTelemetry.SentByStatus(b, Con(t));
    StopLasts(b', events, |b.sent|);
    OneEvent(b, Con(t));
    RunAppend(Boot(boot), all, [Con(t)]);
    ReachableIsBounded(boot, all + [Con(t)], side);
    if WheelMotor.Motors(Calls(b', side, events)) >= 4 {
      StoppedCoasts(b', side, events);
    }
  }

  // ---------- LINETRACE ----------

  /** The policy is driven at the RPMs of ino.ino: straight, sharp and soft turns. */
  predicate DrivenAs(p: LineTracer.Policy, l: real, r: real) {
    && (p == LineTracer.Straight ==> l == 90.0 && r == 90.0)
    && (p == LineTracer.LeftSoft ==> l == 10.0 && r == 90.0)
    && (p == LineTracer.RightSoft ==> l == 90.0 && r == 10.0)
    && (p == LineTracer.TurnLeft ==> l == 0.0 && r == 60.0)
    && (p == LineTracer.TurnRight ==> l == 60.0 && r == 0.0)
  }

  /** What a control tick in trace mode leaves behind: halted for an obstacle, or tracing. */
  predicate Traces(a: Agv, b: Agv) {
    if a.onobstacle then BothHalted(b) && b.drivestate == "OBSTACLE"
    else b.drivestate == "TRACING" && DrivenAs(a.tracer.policy, b.left.drv.rpmTgt, b.right.drv.rpmTgt)
         && b.left.drv.dirTgt >= 0 && b.right.drv.dirTgt >= 0
  }

  lemma TargetTaken(w: W.State, rpm: real, us: nat, dtMillis: nat)
    requires rpm >= 0.0
    ensures var d := W.Do(W.Do(W.Do(w, W.SetTargetRpm(rpm), us), W.UpdateRpm, us), W.FollowRpm(dtMillis), us).drv;
            d.rpmTgt == rpm && d.dirTgt >= 0
  {
  }

  lemma ClearTick(a: Agv, t: nat)
    requires a.drivemode == 1 && Due(a.lastCon, CON_PERIOD, t) && !a.onobstacle
    ensures Traces(a, Do(a, Con(t)))
  {
    var (l, r) := Targets(a.tracer.policy);
    TargetTaken(a.left, l, t, Since(Millis(t), a.lastCon));
    TargetTaken(a.right, r, t, Since(Millis(t), a.lastCon));
  }

  lemma TraceTick(a: Agv, t: nat)
    requires a.drivemode == 1 && Due(a.lastCon, CON_PERIOD, t)
    requires a.left.drv.dirEst == 1 && a.right.drv.dirEst == 1
    ensures Traces(a, Do(a, Con(t)))
  {
    if a.onobstacle {
      ObstacleHalts(a, t);
    } else {
      ClearTick(a, t);
    }
  }

  /** Every control tick after LINETRACE, whatever events but other commands lie between, stops for an
      obstacle or drives the wheels as the trace policy has it. */
  lemma LineTraceIsObeyed(boot: nat, before: seq<Event>, a: Agv, us: nat, between: seq<Event>, b: Agv, t: nat)
    requires a == Run(Boot(boot), before) && b == Run(Do(a, Serve(LineTrace, us)), between)
    requires NoneDirects(between) && Due(b.lastCon, CON_PERIOD, t)
    ensures Traces(b, Do(b, Con(t)))
  {
    ModeLasts(Do(a, Serve(LineTrace, us)), between);
    var all := TwoStages(boot, before, a, Serve(LineTrace, us), between, b);
    ReachableDirection(boot, all);
    TraceTick(b, t);
  }

  /** And a newly booted AGV traces without being told to. */
  lemma BootTraces(boot: nat, between: seq<Event>, b: Agv, t: nat)
    requires b == Run(Boot(boot), between)
    requires NoneDirects(between) && Due(b.lastCon, CON_PERIOD, t)
    ensures Traces(b, Do(b, Con(t)))
  {
    ModeLasts(Boot(boot), between);
    ReachableDirection(boot, between);
    TraceTick(b, t);
  }

  // ---------- SETSPEED ----------

  /** The wheel is to turn at the RPM v, backwards if v is negative. */
  predicate Aims(d: W.Drive, v: int) {
    && d.rpmTgt == (if v < 0 then -v else v) as real
    && d.dirTgt == if v < 0 then -1 else if v > 0 then 1 else 0
  }

  predicate Forced(a: Agv, ls: int, rs: int, n: nat) {
    Aims(a.left.drv, ls) && Aims(a.right.drv, rs) && a.drivemode == 2 && a.drivestate == "FORCEDRUN"
    && ReportsSay(a.sent, n, "FORCEDRUN")
  }

  lemma SetTargetAims(w: W.State, v: int, us: nat)
    ensures Aims(W.Do(w, W.SetTargetRpm(v as real), us).drv, v)
  {
  }

  lemma ForcedBegins(a: Agv, ls: int, rs: int, us: nat)
    ensures Forced(Do(a, Serve(SetSpeed(ls, rs), us)), ls, rs, |a.sent|)
  {
    SetTargetAims(a.left, ls, us);
    SetTargetAims(a.right, rs, us);
  }

  lemma CallKeepsAim(w: W.State, call: W.Call, us: nat)
    requires !call.SetTargetRpm? && !call.StopWheel?
    ensures var d := W.Do(w, call, us).drv; d.rpmTgt == w.drv.rpmTgt && d.dirTgt == w.drv.dirTgt
  {
  }

  lemma {:induction false} CallsKeepAim(w: W.State, calls: seq<W.Timed>)
    requires forall i :: 0 <= i < |calls| ==> !calls[i].call.SetTargetRpm? && !calls[i].call.StopWheel?
    ensures var d := W.Run(w, calls).drv; d.rpmTgt == w.drv.rpmTgt && d.dirTgt == w.drv.dirTgt
  {
    if calls != [] {
      CallsKeepAim(w, calls[..|calls| - 1]);
      CallKeepsAim(W.Run(w, calls[..|calls| - 1]), calls[|calls| - 1].call, calls[|calls| - 1].us);
    }
  }

  lemma ForcedCalls(a: Agv, side: Side, e: Event)
    requires a.drivemode == 2 && !Directs(e)
    ensures forall i :: 0 <= i < |CallsOf(a, side, e)| ==>
              !CallsOf(a, side, e)[i].call.SetTargetRpm? && !CallsOf(a, side, e)[i].call.StopWheel?
  {
  }

  lemma ForcedAims(a: Agv, side: Side, e: Event)
    requires a.drivemode == 2 && !Directs(e)
    ensures var d, d' := WheelOf(a, side).drv, WheelOf(Do(a, e), side).drv;
            d'.rpmTgt == d.rpmTgt && d'.dirTgt == d.dirTgt
  {
    ForcedCalls(a, side, e);
    EventRunsCalls(a, side, e);
    CallsKeepAim(WheelOf(a, side), CallsOf(a, side, e));
  }

  lemma ForcedMode(a: Agv, e: Event)
    requires a.drivemode == 2 && !Directs(e)
    ensures Do(a, e).drivemode == 2 && Do(a, e).drivestate == a.drivestate
  {
  }

  lemma ForcedStep(a: Agv, e: Event, ls: int, rs: int, n: nat)
    requires Forced(a, ls, rs, n) && !Directs(e)
    ensures Forced(Do(a, e), ls, rs, n)
  {
    ForcedMode(a, e);
    ForcedAims(a, Left, e);
    ForcedAims(a, Right, e);
    EventKeepsReports(a, e, n, "FORCEDRUN");
  }

  lemma {:induction false} ForcedLasts(a: Agv, events: seq<Event>, ls: int, rs: int, n: nat)
    requires Forced(a, ls, rs, n) && NoneDirects(events)
    ensures Forced(Run(a, events), ls, rs, n)
  {
    if events != [] {
      ForcedLasts(a, events[..|events| - 1], ls, rs, n);
      ForcedStep(Run(a, events[..|events| - 1]), events[|events| - 1], ls, rs, n);
    }
  }

  /** After SETSPEED no control tick and no other event but another command changes a wheel's target
      again, obstacle or not, and every report sent says FORCEDRUN. */
  lemma SetSpeedHolds(a: Agv, ls: int, rs: int, us: nat, events: seq<Event>, b: Agv)
    requires b == Run(Do(a, Serve(SetSpeed(ls, rs), us)), events) && NoneDirects(events)
    ensures Aims(b.left.drv, ls) && Aims(b.right.drv, rs)
    ensures b.drivestate == "FORCEDRUN" && ReportsSay(b.sent, |a.sent|, "FORCEDRUN")
  {
    ForcedBegins(a, ls, rs, us);
    ForcedLasts(Do(a, Serve(SetSpeed(ls, rs), us)), events, ls, rs, |a.sent|);
  }

  // ---------- SETPID ----------

  /** The gains in force after the events: those of the last SETPID served, or the initial ones. */
  function Gains(events: seq<Event>): (real, real, real) {
    if events == [] then (0.55, 2.5, 0.1)
    else
      var e := events[|events| - 1];
      if e.Serve? && e.command.SetPid? then (e.command.p, e.command.i, e.command.d)
      else Gains(events[..|events| - 1])
  }

  function GainsOf(d: W.Drive): (real, real, real) {
    (d.kp, d.ki, d.kd)
  }

  lemma CallSetsGains(w: W.State, call: W.Call, us: nat)
    ensures GainsOf(W.Do(w, call, us).drv) ==
            if call.SetPid? then (call.p, call.i, call.d) else GainsOf(w.drv)
  {
  }

  lemma {:induction false} CallsKeepGains(w: W.State, calls: seq<W.Timed>)
    requires forall i :: 0 <= i < |calls| ==> !calls[i].call.SetPid?
    ensures GainsOf(W.Run(w, calls).drv) == GainsOf(w.drv)
  {
    if calls != [] {
      CallsKeepGains(w, calls[..|calls| - 1]);
      CallSetsGains(W.Run(w, calls[..|calls| - 1]), calls[|calls| - 1].call, calls[|calls| - 1].us);
    }
  }

  lemma EventSetsGains(a: Agv, side: Side, e: Event)
    ensures GainsOf(WheelOf(Do(a, e), side).drv) ==
            if e.Serve? && e.command.SetPid? then (e.command.p, e.command.i, e.command.d)
            else GainsOf(WheelOf(a, side).drv)
  {
    if e.Serve? && e.command.SetPid? {
      CallSetsGains(WheelOf(a, side), W.SetPid(e.command.p, e.command.i, e.command.d), e.us);
    } else {
      EventRunsCalls(a, side, e);
      CallsKeepGains(WheelOf(a, side), CallsOf(a, side, e));
    }
  }

  /** In every run both wheels have the gains of the last SETPID, in its order, or 0.55, 2.5, 0.1. */
  lemma {:induction false} SetPidHolds(boot: nat, side: Side, events: seq<Event>)
    ensures GainsOf(WheelOf(Run(Boot(boot), events), side).drv) == Gains(events)
  {
    if events != [] {
      SetPidHolds(boot, side, events[..|events| - 1]);
      EventSetsGains(Run(Boot(boot), events[..|events| - 1]), side, events[|events| - 1]);
    }
  }

  function ButGains(w: W.State): W.State {
    w.(drv := w.drv.(kp := 0.0, ki := 0.0, kd := 0.0))
  }

  /** SETPID touches nothing but the gains. */
  lemma SetPidIsQuiet(a: Agv, p: real, i: real, d: real, us: nat)
    ensures var b := Do(a, Serve(SetPid(p, i, d), us));
            b == a.(left := b.left, right := b.right)
            && ButGains(b.left) == ButGains(a.left) && ButGains(b.right) == ButGains(a.right)
  {
  }
}
