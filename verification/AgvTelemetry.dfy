/** Telemetry from the wheel to the backend: what reportStatus sends in any run of the control
    loop, and what the backend reads from it. */
module AgvTelemetry {
  import opened Clock
  import opened Schedule
  import opened AgvModel
  import opened AgvInterlock
  import opened Esp32Parser
  import opened Telemetry
  import E = WheelEstimator
  import W = WheelModel
  import LineTracer

  // ---------- the calls of a run, as the estimator's theorems want them ----------

  /** No two edges of one wheel fall in the same microsecond. */
  predicate EdgesApart(events: seq<Event>) {
    forall i, j :: 0 <= i < j < |events| && events[i].PulseOf? ==> events[i] != events[j]
  }

  predicate NoEdgeAtZero(events: seq<Event>) {
    forall i :: 0 <= i < |events| && events[i].PulseOf? ==> Micros(events[i].us) != 0
  }

  /** True time of the last calc tick, due or not; 0 before the first. */
  function LastCalc(events: seq<Event>): nat {
    if events == [] then 0
    else if events[|events| - 1].Calc? then events[|events| - 1].us else LastCalc(events[..|events| - 1])
  }

  /** The loop never stalls for the 49.7 days in which millis() wraps. */
  predicate CalcOften(events: seq<Event>) {
    forall k :: 0 <= k < |events| && events[k].Calc? ==>
      NoStall(LastCalc(events[..k]), events[k].us)
  }

  /** What runs of the controller have to satisfy. */
  predicate Regular(events: seq<Event>) {
    Ordered(events) && EdgesApart(events) && CalcOften(events)
  }

  lemma RegularPrefix(events: seq<Event>, n: nat)
    requires Regular(events) && n <= |events|
    ensures Regular(events[..n])
  {
    forall k | 0 <= k < n && events[..n][k].Calc?
      ensures NoStall(LastCalc(events[..n][..k]), events[..n][k].us)
    {
      assert events[..n][..k] == events[..k];
    }
  }

  /** The calls made so far end no later than us, and their edges are edges of the run. */
  ghost predicate EndsBy(calls: seq<W.Timed>, us: nat, side: Side, events: seq<Event>) {
    && W.TimeOrdered(calls) && E.EdgesDistinct(calls)
    && (forall i :: 0 <= i < |calls| ==> calls[i].us <= us)
    && (forall i :: 0 <= i < |calls| && calls[i].call.EncoderPulse? ==> PulseOf(side, calls[i].us) in events)
  }

  /** All calls of an event are made at its time; only an edge of this wheel makes an edge call. */
  lemma CallsOfEvent(a: Agv, side: Side, e: Event)
    ensures forall i :: 0 <= i < |CallsOf(a, side, e)| ==>
              CallsOf(a, side, e)[i].us == e.us
              && (CallsOf(a, side, e)[i].call.EncoderPulse? ==> e == PulseOf(side, e.us))
              && (CallsOf(a, side, e)[i].call.EstimateAverage? ==> e.Calc?)
    ensures e.PulseOf? ==> |CallsOf(a, side, e)| <= 1
  {
  }

  lemma EndsByAppend(x: seq<W.Timed>, y: seq<W.Timed>, side: Side, init: seq<Event>, e: Event, us: nat,
                     all: seq<W.Timed>, events: seq<Event>)
    requires EndsBy(x, e.us, side, init) && e.us <= us && all == x + y && events == init + [e]
    requires forall i :: 0 <= i < |y| ==> y[i].us == e.us && (y[i].call.EncoderPulse? ==> e == PulseOf(side, e.us))
    requires e.PulseOf? ==> e !in init && |y| <= 1
    ensures EndsBy(all, us, side, events)
  {
  }

  lemma LastEventIsNew(events: seq<Event>)
    requires Regular(events) && events != []
    ensures var init, e := events[..|events| - 1], events[|events| - 1];
            Regular(init) && events == init + [e] && (init != [] ==> init[|init| - 1].us <= e.us)
            && (e.PulseOf? ==> e !in init)
  {
    RegularPrefix(events, |events| - 1);
  }

  lemma {:induction false} CallsEndBy(a: Agv, side: Side, events: seq<Event>, us: nat)
    requires Regular(events) && (events != [] ==> events[|events| - 1].us <= us)
    ensures EndsBy(Calls(a, side, events), us, side, events)
  {
    if events != [] {
      var init, e := events[..|events| - 1], events[|events| - 1];
      LastEventIsNew(events);
      CallsEndBy(a, side, init, e.us);
      CallsOfEvent(Run(a, init), side, e);
      EndsByAppend(Calls(a, side, init), CallsOf(Run(a, init), side, e), side, init, e, us, Calls(a, side, events),
        events);
    }
  }

  // ---------- averaging windows ----------

  predicate NoAverage(calls: seq<W.Timed>) {
    forall i :: 0 <= i < |calls| ==> !calls[i].call.EstimateAverage?
  }

  lemma {:induction false} OthersKeepWindows(x: seq<W.Timed>, y: seq<W.Timed>)
    requires E.WindowsTimed(x) && NoAverage(y)
    ensures E.WindowsTimed(x + y) && E.LastAverage(x + y) == E.LastAverage(x)
  {
    if y == [] {
      assert x + y == x;
    } else {
      var init := x + y[..|y| - 1];
      OthersKeepWindows(x, y[..|y| - 1]);
      assert (x + y)[..|x + y| - 1] == init;
      OneMoreCall(init, y[|y| - 1]);
      assert x + y == init + [y[|y| - 1]];
    }
  }

  lemma OneMoreCall(x: seq<W.Timed>, c: W.Timed)
    requires E.WindowsTimed(x)
    requires c.call.EstimateAverage? ==>
               c.call.timespan >= 100 && c.call.timespan == Ms(c.us) - Ms(E.LastAverage(x))
    ensures E.WindowsTimed(x + [c])
    ensures E.LastAverage(x + [c]) == if c.call.EstimateAverage? then c.us else E.LastAverage(x)
  {
    var all := x + [c];
    forall i | 0 <= i < |all| && all[i].call.EstimateAverage?
      ensures all[i].call.timespan >= 100 && all[i].call.timespan == Ms(all[i].us) - Ms(E.LastAverage(all[..i]))
    {
      assert all[..i] == x[..i];
      assert x[..|x|] == x;
    }
    assert all[..|all| - 1] == x;
  }

  /** The window start kept by the controller is the wrapped true one. */
  predicate WindowOpen(a: Agv, calls: seq<W.Timed>, latest: nat) {
    && E.WindowsTimed(calls) && E.LastAverage(calls) <= latest
    && a.lastCal == Ms(E.LastAverage(calls)) % TICKS
    && Ms(latest) - Ms(E.LastAverage(calls)) < CAL_PERIOD
  }

  lemma CalcKeepsWindow(a: Agv, side: Side, calls: seq<W.Timed>, latest: nat, us: nat)
    requires WindowOpen(a, calls, latest) && latest <= us && NoStall(latest, us)
    ensures WindowOpen(CalcStep(a, us), calls + CallsOf(a, side, Calc(us)), us)
  {
    SinceIsElapsed(Ms(E.LastAverage(calls)), Ms(us));
    if Due(a.lastCal, CAL_PERIOD, us) {
      OneMoreCall(calls, W.Timed(W.EstimateAverage(Since(Millis(us), a.lastCal)), us));
    } else {
      assert calls + [] == calls;
    }
  }

  lemma OtherEventsKeepLastCal(a: Agv, e: Event)
    requires !e.Calc?
    ensures Do(a, e).lastCal == a.lastCal
  {
  }

  lemma EventKeepsWindow(a: Agv, side: Side, calls: seq<W.Timed>, latest: nat, e: Event)
    requires WindowOpen(a, calls, latest)
    requires e.Calc? ==> latest <= e.us && NoStall(latest, e.us)
    ensures WindowOpen(Do(a, e), calls + CallsOf(a, side, e), if e.Calc? then e.us else latest)
  {
    if e.Calc? {
      CalcKeepsWindow(a, side, calls, latest, e.us);
    } else {
      OtherEventsKeepLastCal(a, e);
      CallsOfEvent(a, side, e);
      OthersKeepWindows(calls, CallsOf(a, side, e));
    }
  }

  lemma {:induction false} LastCalcInPast(events: seq<Event>)
    requires Ordered(events) && events != []
    ensures LastCalc(events) <= events[|events| - 1].us
  {
    if !events[|events| - 1].Calc? && |events| > 1 {
      LastCalcInPast(events[..|events| - 1]);
    }
  }

  lemma {:induction false} WindowsAreTimed(boot: nat, side: Side, events: seq<Event>)
    requires Regular(events)
    ensures WindowOpen(Run(Boot(boot), events), Calls(Boot(boot), side, events), LastCalc(events))
  {
    if events != [] {
      var n := |events| - 1;
      RegularPrefix(events, n);
      WindowsAreTimed(boot, side, events[..n]);
      if n > 0 {
        LastCalcInPast(events[..n]);
      }
      EventKeepsWindow(Run(Boot(boot), events[..n]), side, Calls(Boot(boot), side, events[..n]),
        LastCalc(events[..n]), events[n]);
    }
  }

  /** In every run of the controller both estimates lie in 0..361 RPM, and in 0..330 RPM if no edge
      falls where micros() reads 0. */
  lemma EstimatesInRange(boot: nat, side: Side, events: seq<Event>)
    requires Regular(events)
    ensures E.InRange(WheelOf(Run(Boot(boot), events), side).est, 361.0)
    ensures NoEdgeAtZero(events) ==> E.InRange(WheelOf(Run(Boot(boot), events), side).est, 330.0)
  {
    var calls := Calls(Boot(boot), side, events);
    CallsEndBy(Boot(boot), side, events, if events == [] then 0 else events[|events| - 1].us);
    WindowsAreTimed(boot, side, events);
    WheelsRunTheirCalls(Boot(boot), side, events);
    E.EstimateStaysNearRange(calls);
    if NoEdgeAtZero(events) {
      E.WindowsDebouncedWithoutZero(calls);
      E.EstimateStaysInRange(calls);
    }
  }

  // ---------- every report is well formed ----------

  predicate RangesFit(a: Agv) {
    Int16(a.range) && Int16(a.sonar.latestDistanceMm)
  }

  predicate Reportable(r: Report, top: int) {
    DriveState(r.state) && Int16(r.range) && 0 <= r.leftRpm <= top && 0 <= r.rightRpm <= top
  }

  lemma EventKeepsRanges(a: Agv, e: Event)
    requires RangesFit(a) && DriveState(a.drivestate)
    ensures RangesFit(Do(a, e)) && DriveState(Do(a, e).drivestate)
  {
  }

  lemma SentBy(a: Agv, e: Event)
    ensures Do(a, e).sent == a.sent || Do(a, e).sent == a.sent + [StatusOf(a)]
  {
  }

  lemma StatusIsReportable(a: Agv, top: int)
    requires RangesFit(a) && DriveState(a.drivestate) && E.InRange(a.left.est, top as real)
    requires E.InRange(a.right.est, top as real)
    ensures Reportable(StatusOf(a), top)
  {
  }

  /** The bound on the RPMs reported in a run. */
  function Top(events: seq<Event>): int {
    if NoEdgeAtZero(events) then 330 else 361
  }

  lemma {:induction false} ReportsAreReportable(boot: nat, events: seq<Event>, top: int)
    requires Regular(events) && (top == 361 || (top == 330 && NoEdgeAtZero(events)))
    ensures var a := Run(Boot(boot), events);
            RangesFit(a) && DriveState(a.drivestate) && forall i :: 0 <= i < |a.sent| ==> Reportable(a.sent[i], top)
  {
    if events != [] {
      var n := |events| - 1;
      RegularPrefix(events, n);
      ReportsAreReportable(boot, events[..n], top);
      var a := Run(Boot(boot), events[..n]);
      EventKeepsRanges(a, events[n]);
      EstimatesInRange(boot, Left, events[..n]);
      EstimatesInRange(boot, Right, events[..n]);
      StatusIsReportable(a, top);
      SentBy(a, events[n]);
    }
  }

  /** Report r shows the state a: its drive state, range, last line sensors and both estimates,
      truncated to integers. */
  predicate Shows(r: Report, a: Agv) {
    && r.state == a.drivestate && r.range == a.range
    && (r.left <==> a.tracer.lastIOL.left) && (r.center <==> a.tracer.lastIOL.center)
       && (r.right <==> a.tracer.lastIOL.right)
    && r.leftRpm as real <= a.left.est.rpmEst < r.leftRpm as real + 1.0
    && r.rightRpm as real <= a.right.est.rpmEst < r.rightRpm as real + 1.0
  }

  /** The i-th report was sent at event k, a due serial tick. */
  ghost predicate SentAt(a: Agv, events: seq<Event>, i: nat, k: nat)
    requires i < |Run(a, events).sent|
  {
    && k < |events| && events[k].Serial? && Due(Run(a, events[..k]).lastSerial, SERIAL_PERIOD, events[k].us)
    && |Run(a, events[..k]).sent| == i && Shows(Run(a, events).sent[i], Run(a, events[..k]))
  }

  lemma SentByStatus(a: Agv, e: Event)
    ensures if e.Serial? && Due(a.lastSerial, SERIAL_PERIOD, e.us)
            then Do(a, e).sent == a.sent + [StatusOf(a)] && Shows(StatusOf(a), a) else Do(a, e).sent == a.sent
  {
  }

  /** Every report was sent at a due serial tick, and shows the state at that tick. */
  lemma {:induction false} ReportsAreSnapshots(a: Agv, events: seq<Event>, i: nat) returns (k: nat)
    requires a.sent == [] && i < |Run(a, events).sent|
    ensures SentAt(a, events, i, k)
    decreases |events|
  {
    var n := |events| - 1;
    var init := events[..n];
    SentByStatus(Run(a, init), events[n]);
    if i < |Run(a, init).sent| {
      k := ReportsAreSnapshots(a, init, i);
      assert init[..k] == events[..k];
    } else {
      k := n;
    }
  }

  /** Conversely every due serial tick sends the next report. */
  lemma TicksAreReported(a: Agv, events: seq<Event>, k: nat)
    requires a.sent == [] && k < |events| && events[k].Serial?
    requires Due(Run(a, events[..k]).lastSerial, SERIAL_PERIOD, events[k].us)
    ensures |Run(a, events[..k]).sent| < |Run(a, events).sent|
    ensures SentAt(a, events, |Run(a, events[..k]).sent|, k)
  {
    SentByStatus(Run(a, events[..k]), events[k]);
    RunStep(a, events, k);
    SentGrows(a, events, k + 1);
    assert Run(a, events).sent[|Run(a, events[..k]).sent|] == Run(a, events[..k + 1]).sent[|Run(a, events[..k]).sent|];
  }

  lemma {:induction false} SentGrows(a: Agv, events: seq<Event>, k: nat)
    requires k <= |events|
    ensures Run(a, events[..k]).sent <= Run(a, events).sent
    decreases |events|
  {
    if k < |events| {
      var n := |events| - 1;
      SentGrows(a, events[..n], k);
      assert events[..n][..k] == events[..k];
      SentByStatus(Run(a, events[..n]), events[n]);
    } else {
      assert events[..k] == events;
    }
  }

  // ---------- the first report ----------

  /** Encoder edges between iterations of loop(). */
  datatype Turn = Edge(side: Side, us: nat) | Pass(tick: Tick)

  function EventsOfTurn(t: Turn): seq<Event> {
    match t
    case Edge(side, us) => [PulseOf(side, us)]
    case Pass(tick) => Iteration(tick)
  }

  function EventsOf(turns: seq<Turn>): seq<Event> {
    if turns == [] then [] else EventsOf(turns[..|turns| - 1]) + EventsOfTurn(turns[|turns| - 1])
  }

  /** Before the first control tick nothing has been reported. */
  predicate Named(a: Agv) {
    && (a.drivestate == "" ==>
          a.lastCon == 0 && a.lastSerial == 0 && a.sent == [] && (a.drivemode == 0 || a.drivemode == 1))
    && forall i :: 0 <= i < |a.sent| ==> a.sent[i].state != ""
  }

  lemma ServeKeepsNamed(a: Agv, c: Command, us: nat)
    requires Named(a)
    ensures Named(ServeStep(a, c, us))
  {
  }

  lemma UntilControl(a: Agv, us: nat, sensors: LineTracer.Sensors)
    requires Named(a)
    ensures Named(FastStep(CalcStep(a, us), us, sensors))
  {
  }

  /** A control tick before each serial tick: the state has a name by the time it is reported. */
  lemma FromControl(a: Agv, us: nat)
    requires Named(a)
    ensures var b := FineStep(ConStep(a, us), us);
            Named(b) && (b.drivestate == "" ==> !Due(b.lastSerial, SERIAL_PERIOD, us))
  {
    var b := ConStep(a, us);
    if Due(a.lastCon, CON_PERIOD, us) {
      assert b.sent == a.sent;
      assert a.drivestate == "" ==> b.drivestate != "";
    }
  }

  lemma SerialKeepsNamed(a: Agv, us: nat)
    requires Named(a) && (a.drivestate == "" ==> !Due(a.lastSerial, SERIAL_PERIOD, us))
    ensures Named(SerialStep(a, us))
  {
  }

  lemma PassKeepsNamed(a: Agv, t: Tick)
    requires Named(a)
    ensures Named(Run(a, Iteration(t)))
  {
    IterationIs(a, t);
    ServeKeepsNamed(a, t.command, t.us);
    var b := ServeStep(a, t.command, t.us);
    UntilControl(b, t.us, t.sensors);
    var c := FastStep(CalcStep(b, t.us), t.us, t.sensors);
    FromControl(c, t.us);
    SerialKeepsNamed(FineStep(ConStep(c, t.us), t.us), t.us);
  }

  lemma {:induction false} ReportsAreNamed(boot: nat, turns: seq<Turn>)
    ensures Named(Run(Boot(boot), EventsOf(turns)))
  {
    if turns != [] {
      var init, last := turns[..|turns| - 1], turns[|turns| - 1];
      ReportsAreNamed(boot, init);
      RunAppend(Boot(boot), EventsOf(init), EventsOfTurn(last));
      var a := Run(Boot(boot), EventsOf(init));
      match last
      case Pass(tick) => PassKeepsNamed(a, tick);
      case Edge(side, us) => OneEvent(a, PulseOf(side, us));
    }
  }

  /** End to end: in every run of the control loop every status line fits the buffer, and the
      backend reads back exactly the reported values when the state is TRACING, OBSTACLE or STOP,
      and otherwise rejects the line as an unsupported event; the state is never empty, and the
      RPMs lie in 0..361, or 0..330 if no edge falls where micros() reads 0. */
  lemma EveryReportIsRead(boot: nat, turns: seq<Turn>, r: Report)
    requires Regular(EventsOf(turns)) && r in Run(Boot(boot), EventsOf(turns)).sent
    ensures Message(r) == StatusText(r)
    ensures r.state != "" && 0 <= r.leftRpm <= Top(EventsOf(turns)) && 0 <= r.rightRpm <= Top(EventsOf(turns))
    ensures ParseLine(Message(r) + "\r") ==
            if SupportedEvent(r.state) then ExpectedSensors(r) else Rejected(UnsupportedEvent)
  {
    ReportsAreNamed(boot, turns);
    ReportsAreReportable(boot, EventsOf(turns), Top(EventsOf(turns)));
    StatusFitsBuffer(r);
    StatusRoundTrip(r);
  }
}
