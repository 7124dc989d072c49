/** The AGV controller: drive policy, scheduler and status reports, as a function of its inputs.

    One loop iteration is one instant; encoder interrupts fall between iterations.  The functions
    here are the specification of class AgvController. */
module AgvModel {
  import opened Clock
  import opened Schedule
  import LineTracer
  import Seqs
  import Telemetry
  import Ultrasonic
  import W = WheelModel

  const OBSTACLE_STOP_DISTANCE_MM := 120
  const OBSTACLE_TIMEOUT := 1000

  datatype Side = Left | Right

  datatype Agv = Agv(
    left: W.State, right: W.State, tracer: LineTracer.Tracer, sonar: Ultrasonic.Sonar,
    drivemode: int, range: int, onobstacle: bool, lastRange: nat, lastIOLTime: nat, drivestate: string,
    lastCal: nat, lastFast: nat, lastCon: nat, lastFine: nat, lastSerial: nat,
    sent: seq<Telemetry.Report>)

  /** After setup() at true time us. */
  function Boot(us: nat): Agv {
    Agv(W.FRESH, W.FRESH, LineTracer.START, Ultrasonic.Setup(us), 1, -1, false, 0, 0, "", 0, 0, 0, 0, 0, [])
  }

  /** What the serial line may ask for. */
  datatype Command = NoCommand | SetSpeed(ls: int, rs: int) | SetPid(p: real, i: real, d: real)
                   | EmergencyStop | LineTrace | StopDriving

  datatype Event =
    | PulseOf(side: Side, us: nat)
    | Serve(command: Command, us: nat)
    | Calc(us: nat)
    | Fast(us: nat, sensors: LineTracer.Sensors)
    | Con(us: nat)
    | Fine(us: nat)
    | Serial(us: nat)
    | Instant(us: nat, end: nat, echo: bool)

  function WheelOf(a: Agv, side: Side): W.State {
    if side.Left? then a.left else a.right
  }

  function Both(a: Agv, left: W.Call, right: W.Call, us: nat): Agv {
    a.(left := W.Do(a.left, left, us), right := W.Do(a.right, right, us))
  }

  // ---------- drive policy ----------

  /** Target RPMs of a trace policy, left and right. */
  function Targets(p: LineTracer.Policy): (real, real) {
    match p
    case Straight => (90.0, 90.0)
    case TurnLeft => (0.0, 60.0)
    case TurnRight => (60.0, 0.0)
    case LeftSoft => (10.0, 90.0)
    case RightSoft => (90.0, 10.0)
  }

  function TraceLine(a: Agv, us: nat): Agv {
    if a.onobstacle
    then Both(a, W.StopWheel, W.StopWheel, us).(lastIOLTime := Millis(us), drivestate := "OBSTACLE")
    else
      var (l, r) := Targets(a.tracer.policy);
      Both(a, W.SetTargetRpm(l), W.SetTargetRpm(r), us)
  }

  function DriveStep(a: Agv, us: nat): Agv {
    if a.drivemode == 0 then Both(a, W.SetTargetRpm(0.0), W.SetTargetRpm(0.0), us).(drivestate := "STOP")
    else if a.drivemode == 1 then TraceLine(a.(drivestate := "TRACING"), us)
    else a
  }

  function ServeStep(a: Agv, c: Command, us: nat): Agv {
    match c
    case NoCommand => a
    case SetSpeed(ls, rs) =>
      Both(a, W.SetTargetRpm(ls as real), W.SetTargetRpm(rs as real), us).(drivemode := 2, drivestate := "FORCEDRUN")
    case SetPid(p, i, d) => Both(a, W.SetPid(p, i, d), W.SetPid(p, i, d), us)
    case EmergencyStop =>
      Both(a, W.StopWheel, W.StopWheel, us).(drivemode := -1, drivestate := "EMERGENCYSTOPPED")
    case LineTrace => a.(drivemode := 1)
    case StopDriving => a.(drivemode := 0)
  }

  // ---------- the scheduler's phases ----------

  predicate Due(last: nat, period: nat, us: nat) {
    Since(Millis(us), last) >= period
  }

  function CalcStep(a: Agv, us: nat): Agv {
    if !Due(a.lastCal, CAL_PERIOD, us) then a
    else
      var call := W.EstimateAverage(Since(Millis(us), a.lastCal));
      Both(a, call, call, us).(lastCal := Millis(us))
  }

  /** A new range decides onobstacle. */
  function TakeRange(a: Agv, us: nat): Agv {
    var (sonar, range, ready) := Ultrasonic.Read(a.sonar, a.range);
    var b := a.(sonar := sonar, range := range);
    if !ready then b
    else if range >= 0 then b.(onobstacle := range < OBSTACLE_STOP_DISTANCE_MM, lastRange := Millis(us))
    else b.(onobstacle := Since(Millis(us), a.lastRange) < OBSTACLE_TIMEOUT)
  }

  function FastStep(a: Agv, us: nat, sensors: LineTracer.Sensors): Agv {
    if !Due(a.lastFast, FAST_PERIOD, us) then a
    else
      var b := TakeRange(a, us);
      b.(tracer := LineTracer.Update(b.tracer, sensors, Millis(us)), lastFast := Millis(us))
  }

  function ControlWheels(a: Agv, us: nat): Agv {
    var b := Both(a, W.UpdateRpm, W.UpdateRpm, us);
    var call := W.FollowRpm(Since(Millis(us), a.lastCon));
    Both(b, call, call, us)
  }

  function ConStep(a: Agv, us: nat): Agv {
    if !Due(a.lastCon, CON_PERIOD, us) then a
    else ControlWheels(DriveStep(a, us), us).(lastCon := Millis(us))
  }

  function FineStep(a: Agv, us: nat): Agv {
    if !Due(a.lastFine, FINE_PERIOD, us) then a
    else Both(a, W.DriveMotor, W.DriveMotor, us).(lastFine := Millis(us))
  }

  /** The values reportStatus prints. */
  function StatusOf(a: Agv): Telemetry.Report {
    var s := a.tracer.lastIOL;
    Telemetry.Report(a.drivestate, a.range, s.left, s.center, s.right,
                     a.left.est.rpmEst.Floor, a.right.est.rpmEst.Floor)
  }

  function SerialStep(a: Agv, us: nat): Agv {
    if !Due(a.lastSerial, SERIAL_PERIOD, us) then a
    else a.(sent := a.sent + [StatusOf(a)], lastSerial := Millis(us))
  }

  function Do(a: Agv, e: Event): Agv {
    match e
    case PulseOf(side, us) =>
      if side.Left? then a.(left := W.Do(a.left, W.EncoderPulse, us))
        else a.(right := W.Do(a.right, W.EncoderPulse, us))
    case Serve(c, us) => ServeStep(a, c, us)
    case Calc(us) => CalcStep(a, us)
    case Fast(us, sensors) => FastStep(a, us, sensors)
    case Con(us) => ConStep(a, us)
    case Fine(us) => FineStep(a, us)
    case Serial(us) => SerialStep(a, us)
    case Instant(us, end, echo) => a.(sonar := Ultrasonic.Poll(a.sonar, us, end, echo))
  }

  function Run(a: Agv, events: seq<Event>): Agv {
    if events == [] then a else Do(Run(a, events[..|events| - 1]), events[|events| - 1])
  }

  /** Inputs of one loop iteration. */
  datatype Tick = Tick(us: nat, command: Command, sensors: LineTracer.Sensors, end: nat, echo: bool)

  /** loop(). */
  function Iteration(t: Tick): seq<Event> {
    [Serve(t.command, t.us), Calc(t.us), Fast(t.us, t.sensors), Con(t.us), Fine(t.us), Serial(t.us),
     Instant(t.us, t.end, t.echo)]
  }

  /** Less than a wrap of millis(), and a window to spare, lies between two iterations of the loop. */
  predicate NoStall(earlier: nat, later: nat) {
    Ms(later) - Ms(earlier) <= TICKS - CAL_PERIOD
  }

  lemma RunStep(a: Agv, events: seq<Event>, k: nat)
    requires k < |events|
    ensures Run(a, events[..k + 1]) == Do(Run(a, events[..k]), events[k])
  {
    assert events[..k + 1][..k] == events[..k];
  }

  lemma OneEvent(a: Agv, e: Event)
    ensures Run(a, [e]) == Do(a, e)
  {
    assert [e][..0] == [];
  }

  lemma {:induction false} RunAppend(a: Agv, x: seq<Event>, y: seq<Event>)
    ensures Run(a, x + y) == Run(Run(a, x), y)
    decreases |y|
  {
    if y == [] {
      assert x + y == x;
    } else {
      assert (x + y)[..|x + y| - 1] == x + y[..|y| - 1];
      RunAppend(a, x, y[..|y| - 1]);
    }
  }

  lemma ThreeEvents(a: Agv, e: Event, f: Event, g: Event)
    ensures Run(a, [e, f, g]) == Do(Do(Do(a, e), f), g)
  {
    var events := [e, f, g];
    OneEvent(a, e);
    assert events[..1] == [e];
    RunStep(a, events, 1);
    RunStep(a, events, 2);
    assert events[..3] == events;
  }

  /** The seven phases of an iteration, one after the other. */
  lemma IterationIs(a: Agv, t: Tick)
    ensures Run(a, Iteration(t)) ==
            Do(SerialStep(FineStep(ConStep(FastStep(CalcStep(ServeStep(a, t.command, t.us), t.us), t.us, t.sensors),
                                           t.us), t.us), t.us), Instant(t.us, t.end, t.echo))
  {
    var x := [Serve(t.command, t.us), Calc(t.us), Fast(t.us, t.sensors)];
    var y := [Con(t.us), Fine(t.us), Serial(t.us)];
    var z := [Instant(t.us, t.end, t.echo)];
    assert Iteration(t) == x + y + z;
    ThreeEvents(a, x[0], x[1], x[2]);
    ThreeEvents(Run(a, x), y[0], y[1], y[2]);
    RunAppend(a, x, y);
    RunAppend(a, x + y, z);
    OneEvent(Run(a, x + y), z[0]);
  }

  // ---------- the calls a run makes on one wheel ----------

  function PolicyCalls(a: Agv, side: Side, us: nat): seq<W.Timed> {
    if a.drivemode == 0 then [W.Timed(W.SetTargetRpm(0.0), us)]
    else if a.drivemode != 1 then []
    else if a.onobstacle then [W.Timed(W.StopWheel, us)]
    else
      var (l, r) := Targets(a.tracer.policy);
      [W.Timed(W.SetTargetRpm(if side.Left? then l else r), us)]
  }

  function CallsOf(a: Agv, side: Side, e: Event): seq<W.Timed> {
    match e
    case PulseOf(s, us) => if s == side then [W.Timed(W.EncoderPulse, us)] else []
    case Serve(c, us) =>
      (match c
       case SetSpeed(ls, rs) => [W.Timed(W.SetTargetRpm((if side.Left? then ls else rs) as real), us)]
       case SetPid(p, i, d) => [W.Timed(W.SetPid(p, i, d), us)]
       case EmergencyStop => [W.Timed(W.StopWheel, us)]
       case _ => [])
    case Calc(us) =>
      if Due(a.lastCal, CAL_PERIOD, us) then [W.Timed(W.EstimateAverage(Since(Millis(us), a.lastCal)), us)] else []
    case Con(us) =>
      if Due(a.lastCon, CON_PERIOD, us)
      then PolicyCalls(a, side, us)
           + [W.Timed(W.UpdateRpm, us), W.Timed(W.FollowRpm(Since(Millis(us), a.lastCon)), us)]
      else []
    case Fine(us) => if Due(a.lastFine, FINE_PERIOD, us) then [W.Timed(W.DriveMotor, us)] else []
    case _ => []
  }

  function Calls(a: Agv, side: Side, events: seq<Event>): seq<W.Timed> {
    if events == [] then []
    else
      var init := events[..|events| - 1];
      Calls(a, side, init) + CallsOf(Run(a, init), side, events[|events| - 1])
  }

  lemma PolicyRunsCalls(a: Agv, side: Side, us: nat)
    ensures WheelOf(DriveStep(a, us), side) == W.Run(WheelOf(a, side), PolicyCalls(a, side, us))
    ensures DriveStep(a, us).lastCon == a.lastCon
  {
    var p := PolicyCalls(a, side, us);
    if p != [] {
      W.OneCall(WheelOf(a, side), p[0]);
      assert p == [p[0]];
    }
  }

  lemma ConRunsCalls(a: Agv, side: Side, us: nat)
    ensures WheelOf(ConStep(a, us), side) == W.Run(WheelOf(a, side), CallsOf(a, side, Con(us)))
  {
    if Due(a.lastCon, CON_PERIOD, us) {
      PolicyRunsCalls(a, side, us);
      var c, d := W.Timed(W.UpdateRpm, us), W.Timed(W.FollowRpm(Since(Millis(us), a.lastCon)), us);
      W.RunAppend(WheelOf(a, side), PolicyCalls(a, side, us), [c, d]);
      W.TwoCalls(WheelOf(DriveStep(a, us), side), c, d);
    }
  }

  lemma EventRunsCalls(a: Agv, side: Side, e: Event)
    ensures WheelOf(Do(a, e), side) == W.Run(WheelOf(a, side), CallsOf(a, side, e))
  {
    if e.Con? {
      ConRunsCalls(a, side, e.us);
    } else {
      var calls := CallsOf(a, side, e);
      if calls != [] {
        W.OneCall(WheelOf(a, side), calls[0]);
        assert calls == [calls[0]];
      }
    }
  }

  /** A run of the AGV is, for each wheel, a run of that wheel: every theorem about wheel runs
      holds of both wheels. */
  lemma {:induction false} WheelsRunTheirCalls(a: Agv, side: Side, events: seq<Event>)
    ensures WheelOf(Run(a, events), side) == W.Run(WheelOf(a, side), Calls(a, side, events))
  {
    if events != [] {
      var init := events[..|events| - 1];
      WheelsRunTheirCalls(a, side, init);
      EventRunsCalls(Run(a, init), side, events[|events| - 1]);
      W.RunAppend(WheelOf(a, side), Calls(a, side, init), CallsOf(Run(a, init), side, events[|events| - 1]));
    }
  }

  // ---------- what a run does to the automaton and the sensor ----------

  /** The samples the line tracer sees: one for each due fast tick. */
  function SamplesOf(a: Agv, events: seq<Event>): seq<LineTracer.Sample> {
    if events == [] then []
    else
      var init, e := events[..|events| - 1], events[|events| - 1];
      SamplesOf(a, init)
      + if e.Fast? && Due(Run(a, init).lastFast, FAST_PERIOD, e.us)
        then [LineTracer.Sample(Ms(e.us), e.sensors)] else []
  }

  lemma TracerStep(a: Agv, e: Event)
    ensures Do(a, e).tracer ==
            if e.Fast? && Due(a.lastFast, FAST_PERIOD, e.us)
              then LineTracer.Update(a.tracer, e.sensors, Ms(e.us) % TICKS)
            else a.tracer
  {
  }

  lemma TracerAppend(samples: seq<LineTracer.Sample>, s: LineTracer.Sample)
    ensures LineTracer.Run(samples + [s]) == LineTracer.Update(LineTracer.Run(samples), s.sensors, s.ms % TICKS)
  {
    assert (samples + [s])[..|samples|] == samples;
  }

  /** A run of the AGV is a run of the line tracer over its due fast ticks. */
  lemma {:induction false} TracerRunsItsSamples(boot: nat, events: seq<Event>)
    ensures Run(Boot(boot), events).tracer == LineTracer.Run(SamplesOf(Boot(boot), events))
  {
    if events != [] {
      var init, e := events[..|events| - 1], events[|events| - 1];
      TracerRunsItsSamples(boot, init);
      TracerStep(Run(Boot(boot), init), e);
      if e.Fast? && Due(Run(Boot(boot), init).lastFast, FAST_PERIOD, e.us) {
        TracerAppend(SamplesOf(Boot(boot), init), LineTracer.Sample(Ms(e.us), e.sensors));
      } else {
        Seqs.EmptyConcat(SamplesOf(Boot(boot), init));
      }
    }
  }

  /** The ultrasonic sensor's share of an event. */
  function SonarEvents(a: Agv, e: Event): seq<Ultrasonic.Event> {
    if e.Instant? then [Ultrasonic.PollAt(e.us, e.end, e.echo)]
    else if e.Fast? && Due(a.lastFast, FAST_PERIOD, e.us) then [Ultrasonic.ReadResult]
    else []
  }

  function PollsOf(a: Agv, events: seq<Event>): seq<Ultrasonic.Event> {
    if events == [] then []
    else
      var init := events[..|events| - 1];
      PollsOf(a, init) + SonarEvents(Run(a, init), events[|events| - 1])
  }

  lemma SonarStep(a: Agv, e: Event)
    ensures Do(a, e).sonar ==
            if e.Instant? then Ultrasonic.Do(a.sonar, Ultrasonic.PollAt(e.us, e.end, e.echo))
            else if e.Fast? && Due(a.lastFast, FAST_PERIOD, e.us) then Ultrasonic.Do(a.sonar, Ultrasonic.ReadResult)
            else a.sonar
  {
  }

  lemma SonarAppend(s: Ultrasonic.Sonar, polls: seq<Ultrasonic.Event>, e: Ultrasonic.Event)
    ensures Ultrasonic.Run(s, polls + [e]) == Ultrasonic.Do(Ultrasonic.Run(s, polls), e)
  {
    assert (polls + [e])[..|polls|] == polls;
  }

  /** A run of the AGV is a run of the ultrasonic sensor over its polls and due fast ticks. */
  lemma {:induction false} SonarRunsItsPolls(boot: nat, events: seq<Event>)
    ensures Run(Boot(boot), events).sonar == Ultrasonic.Run(Ultrasonic.Setup(boot), PollsOf(Boot(boot), events))
  {
    if events != [] {
      var init, e := events[..|events| - 1], events[|events| - 1];
      SonarRunsItsPolls(boot, init);
      var a := Run(Boot(boot), init);
      SonarStep(a, e);
      if SonarEvents(a, e) != [] {
        SonarAppend(Ultrasonic.Setup(boot), PollsOf(Boot(boot), init), SonarEvents(a, e)[0]);
        assert SonarEvents(a, e) == [SonarEvents(a, e)[0]];
      } else {
        Seqs.EmptyConcat(PollsOf(Boot(boot), init));
      }
    }
  }
}
