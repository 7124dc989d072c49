/** class Wheel, updating its fields in place; each method implements the function of WheelModel
    it names.  `us` is the true time of the call, from which micros() and millis() are read. */
module WheelObject {
  import opened Clock
  import opened WheelModel

  class Wheel {
    // encoder and estimate
    var encCount: nat
    var lastEncodedMicros: nat
    var encoderPulseInterval: nat
    var lastRpmProcessed: nat
    var rpmEst: real
    var rpmAvr: real
    var rpmIns: real
    var rpmPrev: real
    var rpmPp: real
    // target, duty and motor pins
    var rpmTgt: real
    var dirTgt: int
    var dirEst: int
    var dutyCur: int
    var dutyTgt: int
    var pin1: int
    var pin2: int
    // start and stop
    var fullyStopped: bool
    var stopTimerRunning: bool
    var startupPulseActive: bool
    var zeroRpmStartedMs: nat
    var startupPulseStartedMs: nat
    // controller
    var kp: real
    var ki: real
    var kd: real
    var errPrev: real
    var dutyComp: real

    function Est(): Estimator
      reads this
    {
      Estimator(encCount, lastEncodedMicros, encoderPulseInterval, lastRpmProcessed,
                rpmEst, rpmAvr, rpmIns, rpmPrev, rpmPp)
    }

    function Drv(): Drive
      reads this
    {
      Drive(rpmTgt, dirTgt, dirEst, dutyCur, dutyTgt, fullyStopped, stopTimerRunning, startupPulseActive,
            zeroRpmStartedMs, startupPulseStartedMs, kp, ki, kd, errPrev, dutyComp, pin1, pin2)
    }

    function Now(): State
      reads this
    {
      State(Est(), Drv())
    }

    constructor ()
      ensures Now() == FRESH
    {
      encCount, lastEncodedMicros, encoderPulseInterval, lastRpmProcessed := 0, 0, 0, 0;
      rpmEst, rpmAvr, rpmIns, rpmPrev, rpmPp := 0.0, 0.0, -1.0, 0.0, 0.0;
      rpmTgt, dirTgt, dirEst, dutyCur, dutyTgt, pin1, pin2 := 0.0, 0, 1, 0, 0, 0, 0;
      fullyStopped, stopTimerRunning, startupPulseActive := true, false, false;
      zeroRpmStartedMs, startupPulseStartedMs := 0, 0;
      kp, ki, kd, errPrev, dutyComp := 0.55, 2.5, 0.1, 0.0, 0.0;
    }

    method OnEncoderInterrupt(us: nat)
      modifies this`encCount, this`lastEncodedMicros, this`encoderPulseInterval
      ensures Est() == Pulse(old(Est()), us)
    {
      var now := Micros(us);
      if lastEncodedMicros != 0 {
        var inv := Since(now, lastEncodedMicros);
        if inv < MIN_ENCODER_PULSE_MICROS {
          return;
        }
        encoderPulseInterval := inv;
      }
      lastEncodedMicros := now;
      encCount := (encCount + 1) % TICKS;
    }

    method EstimateAverageRPM(timespan: nat)
      modifies this`encCount, this`rpmAvr
      ensures Est() == Average(old(Est()), timespan)
    {
      if timespan == 0 {
        return;
      }
      var c := encCount;
      encCount := 0;
      rpmAvr := c as real / ENCODER_SLOTS as real * 60000.0 / timespan as real;
    }

    method EstimateInstantRPM()
      modifies this`lastRpmProcessed, this`rpmIns
      ensures Est() == EstimateInstant(old(Est()))
    {
      var period, last := encoderPulseInterval, lastEncodedMicros;
      if period == 0 || last == 0 || last == lastRpmProcessed {
        return;
      }
      lastRpmProcessed := last;
      if period > INS_RPM_TIMEOUT {
        rpmIns := -1.0;
        return;
      }
      rpmIns := PeriodRpm(period);
    }

    method UpdateRPM(us: nat)
      modifies this
      ensures Est() == Sample(old(Est()), us)
      ensures Drv() == StopState(old(Drv()), rpmEst, us)
    {
      EstimateInstantRPM();
      rpmPp := rpmPrev;
      rpmPrev := rpmEst;
      ghost var drv := Drv();
      assert Est() == EstimateInstant(old(Est())).(rpmPp := old(rpmPrev), rpmPrev := old(rpmEst));
      ChooseEstimate(us);
      assert Drv() == drv == old(Drv());
      UpdateStopState(us);
    }

    /** The second half of updateRPM. */
    method ChooseEstimate(us: nat)
      modifies this`rpmEst, this`rpmIns
      ensures Est() == Choose(old(Est()), us)
    {
      var last, period := lastEncodedMicros, encoderPulseInterval;
      if rpmIns < 0.0 || last == 0 {
        rpmEst := rpmAvr;
      } else {
        var elapsed := Since(Micros(us), last);
        var periodBasedTimeout := INS_RPM_TIMEOUT;
        if !(period > INS_RPM_TIMEOUT / NO_PULSE_TIMEOUT_PERIODS) {
          periodBasedTimeout := (period * NO_PULSE_TIMEOUT_PERIODS) % TICKS;
        }
        var adaptiveTimeout :=
          if periodBasedTimeout > NO_PULSE_TIMEOUT_MIN_US then periodBasedTimeout else NO_PULSE_TIMEOUT_MIN_US;
        if elapsed > adaptiveTimeout {
          rpmIns := -1.0;
          rpmEst := 0.0;
        } else if elapsed > NO_PULSE_DECAY_START_US {
          var noPulseUpperRpm := PeriodRpm(elapsed);
          rpmEst := MinReal(rpmIns, noPulseUpperRpm);
        } else {
          rpmEst := rpmIns;
        }
      }
    }

    method UpdateStopState(us: nat)
      modifies this`stopTimerRunning, this`zeroRpmStartedMs, this`fullyStopped
      ensures Drv() == StopState(old(Drv()), rpmEst, us)
    {
      if startupPulseActive {
        return;
      }
      if rpmEst <= STOP_RPM_THRESHOLD {
        if !stopTimerRunning {
          stopTimerRunning := true;
          zeroRpmStartedMs := Millis(us);
        } else if Since(Millis(us), zeroRpmStartedMs) >= FULL_STOP_WAIT_MS {
          fullyStopped := true;
        }
      } else {
        stopTimerRunning := false;
        fullyStopped := false;
      }
    }

    method SetTargetRPM(rpm: real, us: nat)
      modifies this
      ensures Now() == Do(old(Now()), SetTargetRpm(rpm), us)
    {
      var startRequested := rpmTgt == 0.0 && rpm > 0.0;
      if rpm > 0.0 {
        rpmTgt := rpm;
        dirTgt := 1;
        if startRequested && fullyStopped {
          startupPulseActive := true;
          startupPulseStartedMs := Millis(us);
          fullyStopped := false;
          stopTimerRunning := false;
          ResetController();
        }
      } else if rpm < 0.0 {
        rpmTgt := -rpm;
        dirTgt := -1;
      } else {
        rpmTgt := 0.0;
        dirTgt := 0;
        startupPulseActive := false;
      }
    }

    method SetMotorPower(s: int)
      modifies this`pin1, this`pin2
      ensures Drv() == SetPower(old(Drv()), s)
    {
      if s > 0 {
        pin1 := s;
        pin2 := 0;
      } else if s < 0 {
        pin1 := 0;
        pin2 := -s;
      } else {
        pin1 := 0;
        pin2 := 0;
      }
    }

    method ResetController()
      modifies this`dutyComp, this`dutyTgt, this`errPrev
      ensures Drv() == WheelModel.ResetController(old(Drv()))
    {
      dutyComp := 0.0;
      dutyTgt := 0;
      errPrev := 0.0;
    }

    method Stop(us: nat)
      modifies this
      ensures Now() == Do(old(Now()), StopWheel, us)
    {
      SetTargetRPM(0.0, us);
      SetMotorPower(0);
      dutyCur := 0;
      ResetController();
    }

    method FollowRPM(dtMillis: nat)
      modifies this`dutyTgt, this`dutyComp, this`errPrev
      ensures Drv() == Follow(old(Drv()), Est(), dtMillis)
    {
      if dtMillis == 0 || startupPulseActive {
        return;
      }
      if rpmTgt == 0.0 {
        dutyTgt := 0;
        return;
      }
      var dt := Seconds(dtMillis);
      var err := rpmTgt - rpmEst;
      var pTerm := ProportionalTerm(kp, err, errPrev);
      var dTerm := DerivativeTerm(kd, rpmEst, rpmPrev, rpmPp, dt);
      dTerm := Constrain(dTerm, -D_LIMIT, D_LIMIT);
      var iTerm := IntegralTerm(ki, err, dt);
      iTerm := Constrain(iTerm, -I_LIMIT, I_LIMIT);
      var comp := Constrain(pTerm + iTerm + dTerm, -COMP_LIMIT, COMP_LIMIT);
      dutyComp := dutyComp + comp;
      dutyComp := Constrain(dutyComp, 0.0, DUTY_MAX as real);
      dutyTgt := if dutyComp.Floor > DUTY_MAX then DUTY_MAX else dutyComp.Floor;
      errPrev := err;
    }

    method UpdateMotor(us: nat)
      modifies this
      ensures Now() == Do(old(Now()), DriveMotor, us)
    {
      if startupPulseActive {
        if Since(Millis(us), startupPulseStartedMs) < STARTUP_PULSE_MS {
          dutyCur := STARTUP_DUTY;
          SetMotorPower(STARTUP_DUTY * dirTgt);
          return;
        }
        startupPulseActive := false;
        dutyCur := RUNNING_MINIMUM_DUTY;
        dutyTgt := RUNNING_MINIMUM_DUTY;
        dutyComp := RUNNING_MINIMUM_DUTY as real;
      }
      RampMotor();
    }

    /** updateMotor once no startup pulse is in force. */
    method RampMotor()
      modifies this`dutyCur, this`pin1, this`pin2
      ensures Drv() == Ramp(old(Drv()), rpmEst)
    {
      if dirTgt == dirEst {
        var dutyErr := dutyTgt - dutyCur;
        if dutyErr > 0 {
          dutyCur := dutyCur + Min(RAMP_UP_RATE, dutyErr);
        } else if dutyErr < 0 {
          dutyCur := dutyCur - Min(RAMP_DOWN_RATE, -dutyErr);
        }
        SetMotorPower(dutyCur * dirTgt);
      } else if rpmEst < 5.0 && dutyCur < 10 {
        SetMotorPower(dutyCur * dirTgt);
      } else {
        if dutyCur > 0 {
          dutyCur := dutyCur - Min(RAMP_DOWN_RATE, dutyCur);
        }
        if dutyCur < 0 {
          dutyCur := 0;
        }
        SetMotorPower(dutyCur * dirEst);
      }
    }

    method SetPID(p: real, i: real, d: real)
      modifies this`kp, this`ki, this`kd
      ensures Now() == Do(old(Now()), SetPid(p, i, d), 0)
    {
      kp, ki, kd := p, i, d;
    }
  }
}
