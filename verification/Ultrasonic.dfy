/** The HC-SR04 measurement machine. */
module Ultrasonic {
  import opened Clock

  const MEASUREMENT_INTERVAL_US := 60000
  const ECHO_TIMEOUT_US := 25000

  datatype MeasurementState = WaitInterval | WaitEchoRise | WaitEchoFall

  datatype Sonar = Sonar(
    state: MeasurementState, lastTriggerUs: nat, echoWaitStartedUs: nat, echoRiseUs: nat,
    latestDistanceMm: int, resultReady: bool)

  function Setup(us: nat): Sonar {
    Sonar(WaitInterval, Micros(us), 0, 0, -1, false)
  }

  /** Conversion to the 16-bit int of the AGV controller. */
  function ToInt16(v: nat): int {
    var w := v % 0x1_0000;
    if w < 0x8000 then w else w - 0x1_0000
  }

  /** Echo duration to millimetres: a 32-bit product, an integer quotient, a 16-bit int. */
  function Distance(durationUs: nat): int {
    ToInt16((durationUs * 343) % TICKS / 2000)
  }

  function Finish(s: Sonar, distanceMm: int): Sonar {
    s.(latestDistanceMm := distanceMm, resultReady := true, state := WaitInterval)
  }

  predicate Triggers(s: Sonar, us: nat) {
    s.state.WaitInterval? && !s.resultReady && Since(Micros(us), s.lastTriggerUs) >= MEASUREMENT_INTERVAL_US
  }

  /** One updateMeasurement that begins at true time `us`, ends at `end`, and reads `echo`.  Only
      a triggering poll takes time: the clock is read again after the trigger pulse. */
  function Poll(s: Sonar, us: nat, end: nat, echo: bool): Sonar {
    match s.state
    case WaitInterval =>
      if Triggers(s, us)
      then s.(lastTriggerUs := Micros(end), echoWaitStartedUs := Micros(end), state := WaitEchoRise) else s
    case WaitEchoRise =>
      if echo then s.(echoRiseUs := Micros(us), state := WaitEchoFall)
      else if Since(Micros(us), s.echoWaitStartedUs) >= ECHO_TIMEOUT_US then Finish(s, -1)
      else s
    case WaitEchoFall =>
      var durationUs := Since(Micros(us), s.echoRiseUs);
      if !echo then Finish(s, Distance(durationUs))
      else if durationUs >= ECHO_TIMEOUT_US then Finish(s, -1)
      else s
  }

  /** readDistance: the new range and whether there was one. */
  function Read(s: Sonar, range: int): (Sonar, int, bool) {
    if s.resultReady then (s.(resultReady := false), s.latestDistanceMm, true) else (s, range, false)
  }

  class HCSR04 {
    var measurementState: MeasurementState
    var lastTriggerUs: nat
    var echoWaitStartedUs: nat
    var echoRiseUs: nat
    var latestDistanceMm: int
    var resultReady: bool

    function Now(): Sonar
      reads this
    {
      Sonar(measurementState, lastTriggerUs, echoWaitStartedUs, echoRiseUs, latestDistanceMm, resultReady)
    }

    constructor (us: nat)
      ensures Now() == Setup(us)
    {
      measurementState := WaitInterval;
      lastTriggerUs, echoWaitStartedUs, echoRiseUs, latestDistanceMm, resultReady := Micros(us), 0, 0, -1, false;
    }

    method FinishMeasurement(distanceMm: int)
      modifies this
      ensures Now() == Finish(old(Now()), distanceMm)
    {
      latestDistanceMm := distanceMm;
      resultReady := true;
      measurementState := WaitInterval;
    }

    method UpdateMeasurement(us: nat, end: nat, echo: bool)
      modifies this
      ensures Now() == Poll(old(Now()), us, end, echo)
    {
      var now := Micros(us);
      match measurementState {
        case WaitInterval =>
          if resultReady {
            return;
          }
          if Since(now, lastTriggerUs) < MEASUREMENT_INTERVAL_US {
            return;
          }
          lastTriggerUs := Micros(end);
          echoWaitStartedUs := lastTriggerUs;
          measurementState := WaitEchoRise;
        case WaitEchoRise =>
          if echo {
            echoRiseUs := now;
            measurementState := WaitEchoFall;
          } else if Since(now, echoWaitStartedUs) >= ECHO_TIMEOUT_US {
            FinishMeasurement(-1);
          }
        case WaitEchoFall =>
          if !echo {
            var durationUs := Since(now, echoRiseUs);
            FinishMeasurement(Distance(durationUs));
          } else if Since(now, echoRiseUs) >= ECHO_TIMEOUT_US {
            FinishMeasurement(-1);
          }
      }
    }

    method ReadDistance(range: int) returns (newRange: int, ok: bool)
      modifies this`resultReady
      ensures (Now(), newRange, ok) == Read(old(Now()), range)
    {
      if !resultReady {
        return range, false;
      }
      newRange := latestDistanceMm;
      resultReady := false;
      ok := true;
    }
  }

  // ---------- runs ----------

  datatype Event = PollAt(us: nat, end: nat, echo: bool) | ReadResult

  function Do(s: Sonar, e: Event): Sonar {
    match e
    case PollAt(us, end, echo) => Poll(s, us, end, echo)
    case ReadResult => Read(s, 0).0
  }

  function Run(s: Sonar, events: seq<Event>): Sonar {
    if events == [] then s else Do(Run(s, events[..|events| - 1]), events[|events| - 1])
  }

  /** Polls do not overlap, and each begins at most `gap` microseconds after the one before ended;
      `from` is when setup ran. */
  predicate Paced(events: seq<Event>, from: nat, gap: nat) {
    events == [] ||
    (var init, last := events[..|events| - 1], events[|events| - 1];
     && Paced(init, from, gap)
     && (last.PollAt? ==> LastEnd(init, from) <= last.us <= LastEnd(init, from) + gap && last.us <= last.end)
     && (last.PollAt? && last.end > last.us ==> Triggers(Run(Setup(from), init), last.us)))
  }

  /** When the last poll ended. */
  function LastEnd(events: seq<Event>, from: nat): nat {
    if events == [] then from
    else
      var last := events[|events| - 1];
      if last.PollAt? then last.end else LastEnd(events[..|events| - 1], from)
  }

  predicate TriggeredAt(events: seq<Event>, from: nat, n: nat)
    requires n < |events|
  {
    events[n].PollAt? && Triggers(Run(Setup(from), events[..n]), events[n].us)
  }

  /** True time of the last trigger pulse, or of setup. */
  function LastTrigger(events: seq<Event>, from: nat): nat {
    if events == [] then from
    else if TriggeredAt(events, from, |events| - 1) then events[|events| - 1].end
    else LastTrigger(events[..|events| - 1], from)
  }

  predicate RoseAt(events: seq<Event>, from: nat, n: nat)
    requires n < |events|
  {
    events[n].PollAt? && events[n].echo && Run(Setup(from), events[..n]).state.WaitEchoRise?
  }

  /** True time of the last seen echo rise. */
  function LastRise(events: seq<Event>, from: nat): nat {
    if events == [] then from
    else if RoseAt(events, from, |events| - 1) then events[|events| - 1].us
    else LastRise(events[..|events| - 1], from)
  }

  // ---------- for every run ----------

  /** The trigger's time stamp is the wrapped true one. */
  predicate TriggerTracked(s: Sonar, now: nat, trigger: nat) {
    trigger <= now && s.lastTriggerUs == Micros(trigger)
  }

  lemma TriggerStep(s: Sonar, now: nat, trigger: nat, us: nat, end: nat, echo: bool)
    requires TriggerTracked(s, now, trigger) && now <= us <= end
    ensures TriggerTracked(Poll(s, us, end, echo), end, if Triggers(s, us) then end else trigger)
    ensures Triggers(s, us) ==> us - trigger >= MEASUREMENT_INTERVAL_US
  {
    SinceIsElapsed(trigger, us);
  }

  lemma {:induction false} TriggersTracked(events: seq<Event>, from: nat, gap: nat)
    requires Paced(events, from, gap)
    ensures TriggerTracked(Run(Setup(from), events), LastEnd(events, from), LastTrigger(events, from))
  {
    if events != [] {
      var init, last := events[..|events| - 1], events[|events| - 1];
      TriggersTracked(init, from, gap);
      if last.PollAt? {
        TriggerStep(Run(Setup(from), init), LastEnd(init, from), LastTrigger(init, from), last.us, last.end, last.echo);
      }
    }
  }

  /** Trigger pulses, and setup, are at least 60 ms of true time apart, however far apart the polls are. */
  lemma TriggersAreSpaced(events: seq<Event>, from: nat, gap: nat, n: nat)
    requires Paced(events, from, gap) && n < |events| && TriggeredAt(events, from, n)
    ensures events[n].us - LastTrigger(events[..n], from) >= MEASUREMENT_INTERVAL_US
  {
    PacedPrefix(events, from, gap, n + 1);
    var upto := events[..n + 1];
    assert upto[..n] == events[..n] && upto[n] == events[n];
    TriggersTracked(events[..n], from, gap);
    TriggerStep(Run(Setup(from), events[..n]), LastEnd(events[..n], from), LastTrigger(events[..n], from),
                events[n].us, events[n].end, events[n].echo);
  }

  lemma {:induction false} PacedPrefix(events: seq<Event>, from: nat, gap: nat, n: nat)
    requires Paced(events, from, gap) && n <= |events|
    ensures Paced(events[..n], from, gap)
    decreases |events|
  {
    if n < |events| {
      var init := events[..|events| - 1];
      PacedPrefix(init, from, gap, n);
      assert init[..n] == events[..n];
    } else {
      assert events[..n] == events;
    }
  }

  lemma {:induction false} ResultsWait(events: seq<Event>, from: nat)
    ensures Run(Setup(from), events).resultReady ==> Run(Setup(from), events).state.WaitInterval?
  {
    if events != [] {
      ResultsWait(events[..|events| - 1], from);
    }
  }

  /** In every run, polled at any times, a finished result stays as it is until readDistance
      consumes it: no poll changes anything before. */
  lemma ResultIsNeverOverwritten(events: seq<Event>, from: nat, next: Event)
    requires Run(Setup(from), events).resultReady && next.PollAt?
    ensures Do(Run(Setup(from), events), next) == Run(Setup(from), events)
  {
    ResultsWait(events, from);
  }

  // ---------- deadlines ----------

  /** The machine against true time. */
  predicate OnTime(s: Sonar, now: nat, trigger: nat, rise: nat, gap: nat) {
    && TriggerTracked(s, now, trigger)
    && (s.state.WaitEchoRise? ==> s.echoWaitStartedUs == Micros(trigger) && now < trigger + ECHO_TIMEOUT_US)
    && (s.state.WaitEchoFall? ==> s.echoRiseUs == Micros(rise) && trigger <= rise <= now < rise + ECHO_TIMEOUT_US
                                  && rise < trigger + ECHO_TIMEOUT_US + gap)
  }

  lemma PollStep(s: Sonar, now: nat, trigger: nat, rise: nat, gap: nat, us: nat, end: nat, echo: bool)
    requires OnTime(s, now, trigger, rise, gap) && gap + ECHO_TIMEOUT_US <= TICKS
    requires now <= us <= now + gap && us <= end && (end > us ==> Triggers(s, us))
    ensures var trigger' := if Triggers(s, us) then end else trigger;
            var rise' := if s.state.WaitEchoRise? && echo then us else rise;
            OnTime(Poll(s, us, end, echo), end, trigger', rise', gap)
  {
    SinceIsElapsed(trigger, us);
    if s.state.WaitEchoFall? {
      SinceIsElapsed(rise, us);
    }
  }

  lemma {:induction false} RunIsOnTime(events: seq<Event>, from: nat, gap: nat)
    requires Paced(events, from, gap) && gap + ECHO_TIMEOUT_US <= TICKS
    ensures OnTime(Run(Setup(from), events), LastEnd(events, from), LastTrigger(events, from),
            LastRise(events, from), gap)
  {
    if events != [] {
      var init, last := events[..|events| - 1], events[|events| - 1];
      RunIsOnTime(init, from, gap);
      if last.PollAt? {
        PollStep(Run(Setup(from), init), LastEnd(init, from), LastTrigger(init, from), LastRise(init, from), gap,
                 last.us, last.end, last.echo);
      }
    }
  }

  /** Polled at most `gap` apart, the measurement in progress ends 50 ms + gap after its trigger. */
  ghost predicate EndsInTime(events: seq<Event>, from: nat, gap: nat) {
    Paced(events, from, gap) && LastEnd(events, from) >= LastTrigger(events, from) + 2 * ECHO_TIMEOUT_US + gap ==>
      Run(Setup(from), events).state.WaitInterval?
  }

  /** Every measurement ends in time, in every run, exactly when the gap leaves the echo timeout
      room below a clock wrap. */
  lemma MeasurementsEnd(gap: nat)
    ensures (forall events, from :: EndsInTime(events, from, gap)) <==> gap + ECHO_TIMEOUT_US <= TICKS
  {
    if gap + ECHO_TIMEOUT_US <= TICKS {
      forall events, from ensures EndsInTime(events, from, gap) {
        if Paced(events, from, gap) {
          RunIsOnTime(events, from, gap);
        }
      }
    } else {
      var jump := WholeWraps(gap + ECHO_TIMEOUT_US - 1);
      StuckPolls(3, jump, gap);
      assert StuckAt(3, jump) == 60000 + 3 * jump by {
        assert StuckAt(1, jump) == 60000 + jump;
      }
      assert !EndsInTime(Stuck(3, jump), 0, gap);
    }
  }

  lemma WholeWraps(bound: nat) returns (jump: nat)
    ensures jump <= bound < jump + TICKS && jump % TICKS == 0
  {
    jump := bound - bound % TICKS;
    ModShift(0, bound / TICKS);
    assert jump == 0 + bound / TICKS * TICKS;
  }

  /** Polls that all see the echo wait younger than its timeout, although it has lasted n jumps. */
  function Stuck(n: nat, jump: nat): seq<Event> {
    if n == 0 then [PollAt(60000, 60000, false)]
    else
      var t := StuckAt(n - 1, jump) + ECHO_TIMEOUT_US - 1;
      Stuck(n - 1, jump) + [PollAt(t, t, false)] + [PollAt(StuckAt(n, jump), StuckAt(n, jump), false)]
  }

  function StuckAt(n: nat, jump: nat): nat {
    if n == 0 then 60000 else StuckAt(n - 1, jump) + jump
  }

  lemma StuckPoll(events: seq<Event>, gap: nat, us: nat)
    requires Paced(events, 0, gap) && Run(Setup(0), events).state.WaitEchoRise?
    requires Run(Setup(0), events).echoWaitStartedUs == 60000
    requires LastEnd(events, 0) <= us <= LastEnd(events, 0) + gap && Since(Micros(us), 60000) < ECHO_TIMEOUT_US
    ensures var after := events + [PollAt(us, us, false)];
            Paced(after, 0, gap) && Run(Setup(0), after) == Run(Setup(0), events)
            && LastEnd(after, 0) == us && LastTrigger(after, 0) == LastTrigger(events, 0)
  {
    var after := events + [PollAt(us, us, false)];
    assert after[..|events|] == events;
  }

  lemma Wrapped(x: nat, jump: nat)
    requires jump % TICKS == 0
    ensures (x + jump) % TICKS == x % TICKS
  {
    ModShift(x, jump / TICKS);
  }

  lemma Young(x: nat, d: nat)
    requires Micros(x) == 60000 && d < ECHO_TIMEOUT_US
    ensures Since(Micros(x + d), 60000) == d
  {
    SinceIsElapsed(x, x + d);
  }

  /** The echo wait is still open at the end, and no younger for the machine than at its start. */
  predicate StillWaiting(events: seq<Event>, gap: nat, t: nat) {
    && Run(Setup(0), events).state.WaitEchoRise? && Run(Setup(0), events).echoWaitStartedUs == 60000
    && Paced(events, 0, gap) && LastEnd(events, 0) == t && LastTrigger(events, 0) == 60000
  }

  lemma FirstPoll(events: seq<Event>, gap: nat)
    requires events == [PollAt(60000, 60000, false)] && gap >= 60000
    ensures StillWaiting(events, gap, 60000)
  {
    assert events[..0] == [];
  }

  lemma StuckRound(events: seq<Event>, gap: nat, t: nat, jump: nat, after: seq<Event>)
    requires StillWaiting(events, gap, t) && Micros(t) == 60000
    requires jump % TICKS == 0 && ECHO_TIMEOUT_US <= jump <= gap + ECHO_TIMEOUT_US - 1 && gap >= 60000
    requires var u := t + ECHO_TIMEOUT_US - 1;
             after == events + [PollAt(u, u, false)] + [PollAt(t + jump, t + jump, false)]
    ensures StillWaiting(after, gap, t + jump) && Micros(t + jump) == 60000
  {
    var u := t + ECHO_TIMEOUT_US - 1;
    Young(t, ECHO_TIMEOUT_US - 1);
    StuckPoll(events, gap, u);
    Wrapped(t, jump);
    Young(t + jump, 0);
    StuckPoll(events + [PollAt(u, u, false)], gap, t + jump);
  }

  lemma {:induction false} StuckPolls(n: nat, jump: nat, gap: nat)
    requires jump % TICKS == 0 && ECHO_TIMEOUT_US <= jump <= gap + ECHO_TIMEOUT_US - 1 && gap >= 60000
    ensures StillWaiting(Stuck(n, jump), gap, StuckAt(n, jump)) && Micros(StuckAt(n, jump)) == 60000
  {
    if n == 0 {
      FirstPoll(Stuck(0, jump), gap);
    } else {
      StuckPolls(n - 1, jump, gap);
      StuckRound(Stuck(n - 1, jump), gap, StuckAt(n - 1, jump), jump, Stuck(n, jump));
    }
  }

  // ---------- distances ----------

  /** The longest gap at which no distance overflows 16 bits. */
  const MAX_GAP_US := 166068

  lemma DistanceIsExact(d: nat)
    requires d < ECHO_TIMEOUT_US + MAX_GAP_US
    ensures Distance(d) == d * 343 / 2000 >= 0
  {
  }

  predicate DistanceInRange(s: Sonar, gap: nat) {
    -1 <= s.latestDistanceMm <= (ECHO_TIMEOUT_US + gap) * 343 / 2000
  }

  lemma DistanceStep(s: Sonar, now: nat, trigger: nat, rise: nat, gap: nat, us: nat, end: nat, echo: bool)
    requires OnTime(s, now, trigger, rise, gap) && gap <= MAX_GAP_US && DistanceInRange(s, gap)
    requires now <= us <= now + gap
    ensures DistanceInRange(Poll(s, us, end, echo), gap)
  {
    if s.state.WaitEchoFall? {
      SinceIsElapsed(rise, us);
      DistanceIsExact(us - rise);
    }
  }

  /** With polls at most `gap` apart the distance is -1 or at most (25000 + gap) * 343 / 2000
      millimetres, without overflow. */
  lemma {:induction false} DistanceIsBounded(events: seq<Event>, from: nat, gap: nat)
    requires Paced(events, from, gap) && gap <= MAX_GAP_US
    ensures DistanceInRange(Run(Setup(from), events), gap)
  {
    if events != [] {
      var init, last := events[..|events| - 1], events[|events| - 1];
      DistanceIsBounded(init, from, gap);
      RunIsOnTime(init, from, gap);
      if last.PollAt? {
        DistanceStep(Run(Setup(from), init), LastEnd(init, from), LastTrigger(init, from), LastRise(init, from), gap,
                     last.us, last.end, last.echo);
      }
    }
  }

  /** An echo seen to fall one microsecond too late for 16 bits. */
  const LATE_FALL: seq<Event> := [
    PollAt(60000, 60000, false), PollAt(60001, 60001, true), PollAt(85000, 85000, true), PollAt(251069, 251069, false)]

  lemma LateFallRises(gap: nat)
    requires gap > MAX_GAP_US
    ensures Paced(LATE_FALL[..2], 0, gap) && LastEnd(LATE_FALL[..2], 0) == 60001
    ensures Run(Setup(0), LATE_FALL[..2]) == Sonar(WaitEchoFall, 60000, 60000, 60001, -1, false)
  {
    var r := LATE_FALL;
    assert r[..1][..0] == [] && r[..2][..1] == r[..1];
    assert Run(Setup(0), r[..1]) == Sonar(WaitEchoRise, 60000, 60000, 0, -1, false);
  }

  lemma LateFallOverflows(gap: nat)
    requires gap > MAX_GAP_US
    ensures Paced(LATE_FALL, 0, gap) && Run(Setup(0), LATE_FALL).latestDistanceMm == -0x8000
  {
    var r := LATE_FALL;
    LateFallRises(gap);
    assert r[..3][..2] == r[..2] && r[..4] == r && r[..|r| - 1] == r[..3];
    assert Run(Setup(0), r[..3]) == Run(Setup(0), r[..2]);
    assert LastEnd(r[..3], 0) == 85000;
  }

  /** Paced polls never leave a distance below the -1 that stands for no echo. */
  ghost predicate NoOverflow(events: seq<Event>, from: nat, gap: nat) {
    Paced(events, from, gap) ==> Run(Setup(from), events).latestDistanceMm >= -1
  }

  /** The 16-bit distance never overflows, in any run, exactly when polls come at most 166068
      microseconds apart. */
  lemma OverflowsIff(gap: nat)
    ensures (forall events, from :: NoOverflow(events, from, gap)) <==> gap <= MAX_GAP_US
  {
    if gap <= MAX_GAP_US {
      forall events, from ensures NoOverflow(events, from, gap) {
        if Paced(events, from, gap) {
          DistanceIsBounded(events, from, gap);
        }
      }
    } else {
      LateFallOverflows(gap);
      assert !NoOverflow(LATE_FALL, 0, gap);
    }
  }
}
