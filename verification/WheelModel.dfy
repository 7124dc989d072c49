/** One driven wheel of the AGV: encoder, RPM estimator, PID controller and motor output.

    The functions here are the specification of class Wheel; floats are reals, clocks are 32
    bits wide, and every function that reads a clock takes the true time in microseconds. */
module WheelModel {
  import opened Clock

  const ENCODER_SLOTS := 20
  const INS_RPM_TIMEOUT := 1000000
  const NO_PULSE_DECAY_START_US := 100000
  const NO_PULSE_TIMEOUT_MIN_US := 300000
  const NO_PULSE_TIMEOUT_PERIODS := 2
  const MIN_ENCODER_PULSE_MICROS := 10000
  const FULL_STOP_WAIT_MS := 200
  const STARTUP_PULSE_MS := 120
  const STARTUP_DUTY := 100
  const RUNNING_MINIMUM_DUTY := 40
  const STOP_RPM_THRESHOLD := 1.0
  const RAMP_UP_RATE := 15
  const RAMP_DOWN_RATE := 75
  const D_LIMIT := 3.0
  const I_LIMIT := 40.0
  const COMP_LIMIT := 60.0
  const DUTY_MAX := 255

  // ---------- the encoder and the RPM estimate ----------

  datatype Estimator = Estimator(
    encCount: nat, lastPulse: nat, pulseInterval: nat, lastProcessed: nat,
    rpmEst: real, rpmAvr: real, rpmIns: real, rpmPrev: real, rpmPp: real)

  const FRESH_ESTIMATOR := Estimator(0, 0, 0, 0, 0.0, 0.0, -1.0, 0.0, 0.0)

  /** A falling encoder edge passes the debounce. */
  predicate Accepts(e: Estimator, us: nat) {
    e.lastPulse == 0 || Since(Micros(us), e.lastPulse) >= MIN_ENCODER_PULSE_MICROS
  }

  function Pulse(e: Estimator, us: nat): Estimator {
    if !Accepts(e, us) then e
    else e.(pulseInterval := if e.lastPulse == 0 then e.pulseInterval else Since(Micros(us), e.lastPulse),
            lastPulse := Micros(us), encCount := (e.encCount + 1) % TICKS)
  }

  /** estimateAverageRPM: the count of one window of `timespan` milliseconds. */
  function Average(e: Estimator, timespan: nat): Estimator {
    if timespan == 0 then e
    else e.(encCount := 0, rpmAvr := e.encCount as real / 20.0 * 60000.0 / timespan as real)
  }

  function PeriodRpm(period: nat): real
    requires period > 0
  {
    60000000.0 / (20.0 * period as real)
  }

  function EstimateInstant(e: Estimator): Estimator {
    if e.pulseInterval == 0 || e.lastPulse == 0 || e.lastPulse == e.lastProcessed then e
    else e.(lastProcessed := e.lastPulse,
            rpmIns := if e.pulseInterval > INS_RPM_TIMEOUT then -1.0 else PeriodRpm(e.pulseInterval))
  }

  /** How long without a pulse the last period stays credible. */
  function AdaptiveTimeout(period: nat): nat {
    var byPeriod := if period > INS_RPM_TIMEOUT / NO_PULSE_TIMEOUT_PERIODS then INS_RPM_TIMEOUT
                    else (period * NO_PULSE_TIMEOUT_PERIODS) % TICKS;
    if byPeriod > NO_PULSE_TIMEOUT_MIN_US then byPeriod else NO_PULSE_TIMEOUT_MIN_US
  }

  function MinReal(a: real, b: real): real {
    if b < a then b else a
  }

  /** The estimate updateRPM picks: the averaged, the instant, the decayed one, or zero. */
  function Choose(e: Estimator, us: nat): Estimator {
    if e.rpmIns < 0.0 || e.lastPulse == 0 then e.(rpmEst := e.rpmAvr)
    else
      var elapsed := Since(Micros(us), e.lastPulse);
      if elapsed > AdaptiveTimeout(e.pulseInterval) then e.(rpmIns := -1.0, rpmEst := 0.0)
      else if elapsed > NO_PULSE_DECAY_START_US then e.(rpmEst := MinReal(e.rpmIns, PeriodRpm(elapsed)))
      else e.(rpmEst := e.rpmIns)
  }

  /** updateRPM up to the stop timer. */
  function Sample(e: Estimator, us: nat): Estimator {
    Choose(EstimateInstant(e).(rpmPp := e.rpmPrev, rpmPrev := e.rpmEst), us)
  }

  // ---------- controller, start and stop ----------

  datatype Drive = Drive(
    rpmTgt: real, dirTgt: int, dirEst: int, dutyCur: int, dutyTgt: int,
    fullyStopped: bool, stopTimerRunning: bool, startupActive: bool,
    zeroRpmStartedMs: nat, startupStartedMs: nat,
    kp: real, ki: real, kd: real, errPrev: real, dutyComp: real,
    pin1: int, pin2: int)

  const FRESH_DRIVE :=
    Drive(0.0, 0, 1, 0, 0, true, false, false, 0, 0, 0.55, 2.5, 0.1, 0.0, 0.0, 0, 0)

  /** updateStopState, with the estimate just sampled. */
  function StopState(d: Drive, rpmEst: real, us: nat): Drive {
    if d.startupActive then d
    else if rpmEst <= STOP_RPM_THRESHOLD then
      if !d.stopTimerRunning then d.(stopTimerRunning := true, zeroRpmStartedMs := Millis(us))
      else if Since(Millis(us), d.zeroRpmStartedMs) >= FULL_STOP_WAIT_MS then d.(fullyStopped := true)
      else d
    else d.(stopTimerRunning := false, fullyStopped := false)
  }

  /** setTargetRPM starts a kick-start pulse. */
  predicate Starts(d: Drive, rpm: real) {
    d.rpmTgt == 0.0 && rpm > 0.0 && d.fullyStopped
  }

  function ResetController(d: Drive): Drive {
    d.(dutyComp := 0.0, dutyTgt := 0, errPrev := 0.0)
  }

  function SetTarget(d: Drive, rpm: real, us: nat): Drive {
    if rpm > 0.0 then
      var d' := d.(rpmTgt := rpm, dirTgt := 1);
      if Starts(d, rpm)
      then ResetController(d'.(startupActive := true, startupStartedMs := Millis(us),
                               fullyStopped := false, stopTimerRunning := false))
      else d'
    else if rpm < 0.0 then d.(rpmTgt := -rpm, dirTgt := -1)
    else d.(rpmTgt := 0.0, dirTgt := 0, startupActive := false)
  }

  function SetPower(d: Drive, s: int): Drive {
    if s > 0 then d.(pin1 := s, pin2 := 0)
    else if s < 0 then d.(pin1 := 0, pin2 := -s)
    else d.(pin1 := 0, pin2 := 0)
  }

  /** Signed motor power: the duty on the forward pin, or minus the duty on the other. */
  function Power(d: Drive): int {
    d.pin1 - d.pin2
  }

  function Stop(d: Drive, us: nat): Drive {
    ResetController(SetPower(SetTarget(d, 0.0, us), 0).(dutyCur := 0))
  }

  function Constrain(x: real, lo: real, hi: real): (r: real)
    requires lo <= hi
    ensures lo <= r <= hi
  {
    if x < lo then lo else if x > hi then hi else x
  }

  function ProportionalTerm(kp: real, err: real, errPrev: real): real {
    kp * (err - errPrev)
  }

  function DerivativeTerm(kd: real, rpm: real, prev: real, beforePrev: real, dt: real): real
    requires dt > 0.0
  {
    -kd * (rpm - 2.0 * prev + beforePrev) / dt
  }

  function IntegralTerm(ki: real, err: real, dt: real): real {
    ki * err * dt
  }

  function Seconds(dtMillis: nat): (dt: real)
    requires dtMillis > 0
    ensures dt > 0.0
  {
    dtMillis as real * 0.001
  }

  /** The bounded change of the compensated duty in one followRPM. */
  function Correction(d: Drive, e: Estimator, dtMillis: nat): (c: real)
    requires dtMillis > 0
    ensures -COMP_LIMIT <= c <= COMP_LIMIT
  {
    var dt, err := Seconds(dtMillis), d.rpmTgt - e.rpmEst;
    var p := ProportionalTerm(d.kp, err, d.errPrev);
    var dTerm := Constrain(DerivativeTerm(d.kd, e.rpmEst, e.rpmPrev, e.rpmPp, dt), -D_LIMIT, D_LIMIT);
    var i := Constrain(IntegralTerm(d.ki, err, dt), -I_LIMIT, I_LIMIT);
    Constrain(p + i + dTerm, -COMP_LIMIT, COMP_LIMIT)
  }

  function Follow(d: Drive, e: Estimator, dtMillis: nat): Drive {
    if dtMillis == 0 || d.startupActive then d
    else if d.rpmTgt == 0.0 then d.(dutyTgt := 0)
    else
      var comp := Constrain(d.dutyComp + Correction(d, e, dtMillis), 0.0, 255.0);
      d.(dutyComp := comp, dutyTgt := comp.Floor, errPrev := d.rpmTgt - e.rpmEst)
  }

  function Min(a: int, b: int): int {
    if a < b then a else b
  }

  /** updateMotor once no startup pulse is in force. */
  function Ramp(d: Drive, rpmEst: real): Drive {
    if d.dirTgt == d.dirEst then
      var err := d.dutyTgt - d.dutyCur;
      var duty := if err > 0 then d.dutyCur + Min(RAMP_UP_RATE, err)
                  else if err < 0 then d.dutyCur - Min(RAMP_DOWN_RATE, -err) else d.dutyCur;
      SetPower(d.(dutyCur := duty), duty * d.dirTgt)
    else if rpmEst < 5.0 && d.dutyCur < 10 then SetPower(d, d.dutyCur * d.dirTgt)
    else
      var lowered := if d.dutyCur > 0 then d.dutyCur - Min(RAMP_DOWN_RATE, d.dutyCur) else d.dutyCur;
      var duty := if lowered < 0 then 0 else lowered;
      SetPower(d.(dutyCur := duty), duty * d.dirEst)
  }

  function UpdateMotor(d: Drive, rpmEst: real, us: nat): Drive {
    if d.startupActive && Since(Millis(us), d.startupStartedMs) < STARTUP_PULSE_MS then
      SetPower(d.(dutyCur := STARTUP_DUTY), STARTUP_DUTY * d.dirTgt)
    else if d.startupActive then
      Ramp(d.(startupActive := false, dutyCur := RUNNING_MINIMUM_DUTY, dutyTgt := RUNNING_MINIMUM_DUTY,
              dutyComp := RUNNING_MINIMUM_DUTY as real), rpmEst)
    else Ramp(d, rpmEst)
  }

  // ---------- a wheel, its calls and its runs ----------

  datatype State = State(est: Estimator, drv: Drive)

  const FRESH := State(FRESH_ESTIMATOR, FRESH_DRIVE)

  datatype Call =
    | EncoderPulse
    | EstimateAverage(timespan: nat)
    | UpdateRpm
    | SetTargetRpm(rpm: real)
    | StopWheel
    | FollowRpm(dtMillis: nat)
    | DriveMotor
    | SetPid(p: real, i: real, d: real)

  function Do(w: State, call: Call, us: nat): State {
    match call
    case EncoderPulse => w.(est := Pulse(w.est, us))
    case EstimateAverage(timespan) => w.(est := Average(w.est, timespan))
    case UpdateRpm => var est := Sample(w.est, us); State(est, StopState(w.drv, est.rpmEst, us))
    case SetTargetRpm(rpm) => w.(drv := SetTarget(w.drv, rpm, us))
    case StopWheel => w.(drv := Stop(w.drv, us))
    case FollowRpm(dt) => w.(drv := Follow(w.drv, w.est, dt))
    case DriveMotor => w.(drv := UpdateMotor(w.drv, w.est.rpmEst, us))
    case SetPid(p, i, d) => w.(drv := w.drv.(kp := p, ki := i, kd := d))
  }

  /** A call and the true time at which it is made. */
  datatype Timed = Timed(call: Call, us: nat)

  function Run(w: State, calls: seq<Timed>): State {
    if calls == [] then w
    else
      var last := calls[|calls| - 1];
      Do(Run(w, calls[..|calls| - 1]), last.call, last.us)
  }

  lemma RunStep(w: State, calls: seq<Timed>, k: nat)
    requires k < |calls|
    ensures Run(w, calls[..k + 1]) == Do(Run(w, calls[..k]), calls[k].call, calls[k].us)
  {
    assert calls[..k + 1][..k] == calls[..k];
  }

  lemma {:induction false} RunAppend(w: State, x: seq<Timed>, y: seq<Timed>)
    ensures Run(w, x + y) == Run(Run(w, x), y)
    decreases |y|
  {
    if y == [] {
      assert x + y == x;
    } else {
      assert (x + y)[..|x + y| - 1] == x + y[..|y| - 1];
      RunAppend(w, x, y[..|y| - 1]);
    }
  }

  lemma OneCall(w: State, c: Timed)
    ensures Run(w, [c]) == Do(w, c.call, c.us)
  {
    assert [c][..0] == [];
  }

  lemma TwoCalls(w: State, c: Timed, d: Timed)
    ensures Run(w, [c, d]) == Do(Do(w, c.call, c.us), d.call, d.us)
  {
    assert [c, d][..1] == [c];
    OneCall(w, c);
  }

  predicate TimeOrdered(calls: seq<Timed>) {
    forall i, j :: 0 <= i < j < |calls| ==> calls[i].us <= calls[j].us
  }
}
