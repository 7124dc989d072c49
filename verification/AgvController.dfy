/** The AGV controller in place: the namespaces DrivePolicy, IOstream and Update over two wheels,
    the line tracer and the ultrasonic sensor. */
module AgvController {
  import opened Clock
  import opened Schedule
  import opened AgvModel
  import opened WheelObject
  import W = WheelModel
  import Ultrasonic
  import Telemetry
  import LineTracer

  class AgvController {
    const leftWheel: Wheel
    const rightWheel: Wheel
    const tracer: LineTracer.TracePolicy
    const sonar: Ultrasonic.HCSR04
    // DrivePolicy
    var drivemode: int
    var range: int
    var onobstacle: bool
    var lastRange: nat
    var lastIOLTime: nat
    var drivestate: string
    // Update
    var lastcalmillis: nat
    var lastcalmillisFast: nat
    var lastconmillis: nat
    var lastconmillisFine: nat
    var lastserialmillis: nat
    // the reports sent so far
    ghost var sent: seq<Telemetry.Report>

    ghost predicate Valid() {
      leftWheel != rightWheel
    }

    ghost function Now(): Agv
      reads this, leftWheel, rightWheel, tracer, sonar
    {
      Agv(leftWheel.Now(), rightWheel.Now(), tracer.Now(), sonar.Now(),
          drivemode, range, onobstacle, lastRange, lastIOLTime, drivestate,
          lastcalmillis, lastcalmillisFast, lastconmillis, lastconmillisFine, lastserialmillis, sent)
    }

    constructor (us: nat)
      ensures Valid() && Now() == Boot(us)
      ensures fresh(leftWheel) && fresh(rightWheel) && fresh(tracer) && fresh(sonar)
    {
      leftWheel := new Wheel();
      rightWheel := new Wheel();
      tracer := new LineTracer.TracePolicy();
      sonar := new Ultrasonic.HCSR04(us);
      drivemode, range, onobstacle, lastRange, lastIOLTime, drivestate := 1, -1, false, 0, 0, "";
      lastcalmillis, lastcalmillisFast, lastconmillis, lastconmillisFine, lastserialmillis := 0, 0, 0, 0, 0;
      sent := [];
    }

    // ---------- DrivePolicy ----------

    method StopWheels(us: nat)
      requires Valid()
      modifies leftWheel, rightWheel
      ensures Now() == Both(old(Now()), W.StopWheel, W.StopWheel, us)
    {
      leftWheel.Stop(us);
      rightWheel.Stop(us);
    }

    method SetTargets(left: real, right: real, us: nat)
      requires Valid()
      modifies leftWheel, rightWheel
      ensures Now() == Both(old(Now()), W.SetTargetRpm(left), W.SetTargetRpm(right), us)
    {
      leftWheel.SetTargetRPM(left, us);
      rightWheel.SetTargetRPM(right, us);
    }

    method LineTrace(us: nat)
      requires Valid()
      modifies this, leftWheel, rightWheel
      ensures Now() == TraceLine(old(Now()), us)
    {
      if onobstacle {
        StopWheels(us);
        lastIOLTime := Millis(us);
        drivestate := "OBSTACLE";
        return;
      }
      match tracer.tracePolicy {
        case Straight => SetTargets(90.0, 90.0, us);
        case TurnLeft => SetTargets(0.0, 60.0, us);
        case TurnRight => SetTargets(60.0, 0.0, us);
        case LeftSoft => SetTargets(10.0, 90.0, us);
        case RightSoft => SetTargets(90.0, 10.0, us);
      }
    }

    method Drive(us: nat)
      requires Valid()
      modifies this, leftWheel, rightWheel
      ensures Now() == DriveStep(old(Now()), us)
    {
      if drivemode == 0 {
        SetTargets(0.0, 0.0, us);
        drivestate := "STOP";
      } else if drivemode == 1 {
        drivestate := "TRACING";
        LineTrace(us);
      }
    }

    method Force(ls: int, rs: int, us: nat)
      requires Valid()
      modifies this, leftWheel, rightWheel
      ensures Now() == ServeStep(old(Now()), SetSpeed(ls, rs), us)
    {
      drivemode := 2;
      SetTargets(ls as real, rs as real, us);
      drivestate := "FORCEDRUN";
    }

    method EmergencyStopNow(us: nat)
      requires Valid()
      modifies this, leftWheel, rightWheel
      ensures Now() == ServeStep(old(Now()), EmergencyStop, us)
    {
      drivemode := -1;
      StopWheels(us);
      drivestate := "EMERGENCYSTOPPED";
    }

    // ---------- IOstream ----------

    method DoSerialCommand(command: Command, us: nat)
      requires Valid()
      modifies this, leftWheel, rightWheel
      ensures Now() == ServeStep(old(Now()), command, us)
    {
      match command {
        case NoCommand =>
        case SetSpeed(ls, rs) => Force(ls, rs, us);
        case SetPid(p, i, d) =>
          leftWheel.SetPID(p, i, d);
          rightWheel.SetPID(p, i, d);
        case EmergencyStop => EmergencyStopNow(us);
        case LineTrace => drivemode := 1;
        case StopDriving => drivemode := 0;
      }
    }

    method ReportStatus() returns (message: string)
      modifies this`sent
      ensures message == Telemetry.Message(StatusOf(old(Now())))
      ensures Now() == old(Now()).(sent := old(sent) + [StatusOf(old(Now()))])
    {
      var s := tracer.lastIOL;
      var report := Telemetry.Report(drivestate, range, s.left, s.center, s.right,
                                     leftWheel.rpmEst.Floor, rightWheel.rpmEst.Floor);
      message := Telemetry.Message(report);
      sent := sent + [report];
    }

    // ---------- Update ----------

    method UpdateCalc(us: nat) returns (ran: bool)
      requires Valid()
      modifies this`lastcalmillis, leftWheel, rightWheel
      ensures Now() == CalcStep(old(Now()), us) && ran == Due(old(lastcalmillis), CAL_PERIOD, us)
    {
      var span := Since(Millis(us), lastcalmillis);
      if span >= CAL_PERIOD {
        leftWheel.EstimateAverageRPM(span);
        rightWheel.EstimateAverageRPM(span);
        lastcalmillis := Millis(us);
        return true;
      }
      ran := false;
    }

    method ReadRange(us: nat)
      requires Valid()
      modifies this`range, this`onobstacle, this`lastRange, sonar
      ensures Now() == TakeRange(old(Now()), us)
    {
      var ready;
      range, ready := sonar.ReadDistance(range);
      if ready {
        if range >= 0 {
          onobstacle := range < OBSTACLE_STOP_DISTANCE_MM;
          lastRange := Millis(us);
        } else if Since(Millis(us), lastRange) >= OBSTACLE_TIMEOUT {
          onobstacle := false;
        } else {
          onobstacle := true;
        }
      }
    }

    method UpdateFast(us: nat, sensors: LineTracer.Sensors) returns (ran: bool)
      requires Valid()
      modifies this`lastcalmillisFast, this`range, this`onobstacle, this`lastRange, sonar, tracer
      ensures Now() == FastStep(old(Now()), us, sensors) && ran == Due(old(lastcalmillisFast), FAST_PERIOD, us)
    {
      if Since(Millis(us), lastcalmillisFast) >= FAST_PERIOD {
        ReadRange(us);
        tracer.UpdateTracePolicy(sensors, Millis(us));
        lastcalmillisFast := Millis(us);
        return true;
      }
      ran := false;
    }

    method RunControllers(span: nat, us: nat)
      requires Valid() && span == Since(Millis(us), lastconmillis)
      modifies leftWheel, rightWheel
      ensures Now() == ControlWheels(old(Now()), us)
    {
      leftWheel.UpdateRPM(us);
      rightWheel.UpdateRPM(us);
      assert Now() == Both(old(Now()), W.UpdateRpm, W.UpdateRpm, us);
      leftWheel.FollowRPM(span);
      rightWheel.FollowRPM(span);
    }

    method UpdateCon(us: nat) returns (ran: bool)
      requires Valid()
      modifies this, leftWheel, rightWheel
      ensures Now() == ConStep(old(Now()), us) && ran == Due(old(lastconmillis), CON_PERIOD, us)
    {
      var span := Since(Millis(us), lastconmillis);
      if span >= CON_PERIOD {
        Drive(us);
        RunControllers(span, us);
        lastconmillis := Millis(us);
        return true;
      }
      ran := false;
    }

    method UpdateFine(us: nat) returns (ran: bool)
      requires Valid()
      modifies this`lastconmillisFine, leftWheel, rightWheel
      ensures Now() == FineStep(old(Now()), us) && ran == Due(old(lastconmillisFine), FINE_PERIOD, us)
    {
      if Since(Millis(us), lastconmillisFine) >= FINE_PERIOD {
        leftWheel.UpdateMotor(us);
        rightWheel.UpdateMotor(us);
        lastconmillisFine := Millis(us);
        return true;
      }
      ran := false;
    }

    method UpdateSerial(us: nat) returns (messages: seq<string>)
      requires Valid()
      modifies this`lastserialmillis, this`sent
      ensures Now() == SerialStep(old(Now()), us)
      ensures messages == if Due(old(lastserialmillis), SERIAL_PERIOD, us)
                          then [Telemetry.Message(StatusOf(old(Now())))] else []
    {
      messages := [];
      if Since(Millis(us), lastserialmillis) >= SERIAL_PERIOD {
        var message := ReportStatus();
        messages := [message];
        lastserialmillis := Millis(us);
      }
    }

    /** loop(): what it prints on the serial line is the status lines of the new reports. */
    method Loop(t: Tick) returns (messages: seq<string>)
      requires Valid()
      modifies this, leftWheel, rightWheel, tracer, sonar
      ensures Now() == Run(old(Now()), Iteration(t))
    {
      ghost var a := Now();
      var ran;
      DoSerialCommand(t.command, t.us);
      ran := UpdateCalc(t.us);
      ran := UpdateFast(t.us, t.sensors);
      ran := UpdateCon(t.us);
      ran := UpdateFine(t.us);
      messages := UpdateSerial(t.us);
      sonar.UpdateMeasurement(t.us, t.end, t.echo);
      IterationIs(a, t);
    }
  }
}
