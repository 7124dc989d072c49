/** When the phases of the control loop act, over whole runs and in true time. */
module AgvSchedule {
  import opened Clock
  import opened Schedule
  import opened AgvModel
  import opened AgvInterlock
  import opened WheelMotor
  import Seqs
  import W = WheelModel

  datatype Phase = CalcPhase | FastPhase | ConPhase | FinePhase | SerialPhase

  /** Milliseconds between two actions of a phase. */
  function Period(p: Phase): nat {
    match p
    case CalcPhase => 100
    case FastPhase => 5
    case ConPhase => 20
    case FinePhase => 10
    case SerialPhase => 200
  }

  predicate IsOf(e: Event, p: Phase) {
    match p
    case CalcPhase => e.Calc?
    case FastPhase => e.Fast?
    case ConPhase => e.Con?
    case FinePhase => e.Fine?
    case SerialPhase => e.Serial?
  }

  /** When the phase acted last, as the controller remembers it. */
  function Stamp(a: Agv, p: Phase): nat {
    match p
    case CalcPhase => a.lastCal
    case FastPhase => a.lastFast
    case ConPhase => a.lastCon
    case FinePhase => a.lastFine
    case SerialPhase => a.lastSerial
  }

  /** The phase acts at this event, for all the controller can tell. */
  predicate Acts(a: Agv, e: Event, p: Phase) {
    IsOf(e, p) && Since(Millis(e.us), Stamp(a, p)) >= Period(p)
  }

  lemma IdleTick(a: Agv, e: Event, p: Phase)
    requires IsOf(e, p) && !Acts(a, e, p)
    ensures Do(a, e) == a
  {
  }

  lemma StampStep(a: Agv, e: Event, p: Phase)
    ensures Stamp(Do(a, e), p) == if Acts(a, e, p) then Millis(e.us) else Stamp(a, p)
  {
    if e.Serve? {
      ServeKeepsStamps(a, e.command, e.us, p);
    } else if e.Con? {
      ConStamps(a, e.us, p);
    }
  }

  lemma ServeKeepsStamps(a: Agv, c: Command, us: nat, p: Phase)
    ensures Stamp(ServeStep(a, c, us), p) == Stamp(a, p)
  {
  }

  lemma ConStamps(a: Agv, us: nat, p: Phase)
    ensures Stamp(ConStep(a, us), p) == if Due(a.lastCon, 20, us) && p.ConPhase? then Millis(us) else Stamp(a, p)
  {
  }

  /** True time of the phase's last action; clock start counts as one. */
  function LastAction(a: Agv, events: seq<Event>, p: Phase): nat {
    if events == [] then 0
    else
      var init, last := events[..|events| - 1], events[|events| - 1];
      if Acts(Run(a, init), last, p) then last.us else LastAction(a, init, p)
  }

  lemma {:induction false} StampTracks(boot: nat, events: seq<Event>, p: Phase, us: nat)
    requires Ordered(events) && (events != [] ==> events[|events| - 1].us <= us)
    ensures Stamp(Run(Boot(boot), events), p) == Millis(LastAction(Boot(boot), events, p))
    ensures LastAction(Boot(boot), events, p) <= us
  {
    if events != [] {
      var n := |events| - 1;
      assert n > 0 ==> events[n - 1].us <= events[n].us;
      StampTracks(boot, events[..n], p, events[n].us);
      StampStep(Run(Boot(boot), events[..n]), events[n], p);
    }
  }

  lemma ActsIff(a: Agv, e: Event, p: Phase, l: nat)
    requires IsOf(e, p) && l <= e.us && Stamp(a, p) == Millis(l)
    ensures Ms(l) <= Ms(e.us)
    ensures Acts(a, e, p) <==> (Ms(e.us) - Ms(l)) % TICKS >= Period(p)
    ensures Acts(a, e, p) ==> Ms(e.us) - Ms(l) >= Period(p)
  {
    SinceMillis(l, e.us, Stamp(a, p));
  }

  /** Over every run, a is its state and l the true time of the phase's last action: the phase acts at an
      event of its own exactly if a period or more has passed since l by the wrapped clock, so two
      actions are never closer in true time than a period, and between them the phase changes nothing. */
  lemma PhaseActsIff(boot: nat, events: seq<Event>, e: Event, p: Phase, a: Agv, l: nat)
    requires a == Run(Boot(boot), events) && l == LastAction(Boot(boot), events, p) && IsOf(e, p)
    requires Ordered(events) && (events != [] ==> events[|events| - 1].us <= e.us)
    ensures Ms(l) <= Ms(e.us)
    ensures Acts(a, e, p) <==> (Ms(e.us) - Ms(l)) % TICKS >= Period(p)
    ensures Acts(a, e, p) ==> Ms(e.us) - Ms(l) >= Period(p) && Stamp(Do(a, e), p) == Millis(e.us)
    ensures !Acts(a, e, p) ==> Do(a, e) == a
  {
    StampTracks(boot, events, p, e.us);
    ActsIff(a, e, p, l);
    StampStep(a, e, p);
    if !Acts(a, e, p) {
      IdleTick(a, e, p);
    }
  }

  /** How often the phase acted. */
  function Actions(a: Agv, events: seq<Event>, p: Phase): nat {
    if events == [] then 0
    else
      var init := events[..|events| - 1];
      Actions(a, init, p) + if Acts(Run(a, init), events[|events| - 1], p) then 1 else 0
  }

  lemma {:induction false} MotorsAppend(x: seq<W.Timed>, y: seq<W.Timed>)
    ensures Motors(x + y) == Motors(x) + Motors(y)
  {
    if y == [] {
      Seqs.EmptyConcat(x);
    } else {
      Seqs.InitOfConcat(x, y);
      MotorsAppend(x, y[..|y| - 1]);
    }
  }

  lemma NoMotors(calls: seq<W.Timed>)
    requires forall i :: 0 <= i < |calls| ==> !calls[i].call.DriveMotor?
    ensures Motors(calls) == 0
  {
  }

  lemma MotorsOfEvent(a: Agv, side: Side, e: Event)
    ensures Motors(CallsOf(a, side, e)) == if Acts(a, e, FinePhase) then 1 else 0
  {
    if Acts(a, e, FinePhase) {
      assert CallsOf(a, side, e)[..0] == [];
    } else {
      NoMotors(CallsOf(a, side, e));
    }
  }

  /** In every run each wheel's motor is updated once for every action of the fine phase, and by
      nothing else. */
  lemma {:induction false} MotorUpdatesAre(a: Agv, side: Side, events: seq<Event>)
    ensures Motors(Calls(a, side, events)) == Actions(a, events, FinePhase)
  {
    if events != [] {
      var init, e := events[..|events| - 1], events[|events| - 1];
      MotorUpdatesAre(a, side, init);
      MotorsOfEvent(Run(a, init), side, e);
      MotorsAppend(Calls(a, side, init), CallsOf(Run(a, init), side, e));
    }
  }

  /** A control tick samples both wheels and then runs their controllers over the milliseconds since
      the control tick before, at true time l. */
  lemma ControlTickIs(boot: nat, events: seq<Event>, us: nat, a: Agv, l: nat, side: Side)
    requires a == Run(Boot(boot), events) && l == LastAction(Boot(boot), events, ConPhase)
    requires Ordered(events) && (events != [] ==> events[|events| - 1].us <= us)
    requires Acts(a, Con(us), ConPhase)
    ensures WheelOf(Do(a, Con(us)), side) ==
            W.Do(W.Do(WheelOf(DriveStep(a, us), side), W.UpdateRpm, us),
                 W.FollowRpm((Ms(us) - Ms(l)) % TICKS), us)
  {
    StampTracks(boot, events, ConPhase, us);
    SinceMillis(l, us, a.lastCon);
    TickOfWheel(a, us, side);
  }

  lemma TickOfWheel(a: Agv, us: nat, side: Side)
    requires Due(a.lastCon, 20, us)
    ensures WheelOf(ConStep(a, us), side) ==
            W.Do(W.Do(WheelOf(DriveStep(a, us), side), W.UpdateRpm, us),
                 W.FollowRpm(Since(Millis(us), a.lastCon)), us)
  {
    PolicyRunsCalls(a, side, us);
  }
}
