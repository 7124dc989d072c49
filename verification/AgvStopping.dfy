/** The stopping wheel inside the control loop: the loop's iterations drive each wheel's estimator
    as module WheelStopping describes, whatever else they do. */
module AgvStopping {
  import Seqs
  import opened Clock
  import opened Schedule
  import opened AgvModel
  import opened AgvTelemetry
  import S = WheelStopping
  import W = WheelModel
  import LineTracer

  function LoopOf(a: Agv, side: Side): S.Loop {
    S.Loop(WheelOf(a, side).est, a.lastCal, a.lastCon)
  }

  // ---------- the loop's phases leave the estimator to updateCalc and updateCon ----------

  lemma ServeKeepsLoop(a: Agv, side: Side, c: Command, us: nat)
    ensures LoopOf(ServeStep(a, c, us), side) == LoopOf(a, side)
  {
  }

  lemma CalcIsCalTick(a: Agv, side: Side, us: nat)
    ensures LoopOf(CalcStep(a, us), side) == S.CalTick(LoopOf(a, side), us)
  {
  }

  lemma FastKeepsLoop(a: Agv, side: Side, us: nat, sensors: LineTracer.Sensors)
    ensures LoopOf(FastStep(a, us, sensors), side) == LoopOf(a, side)
  {
  }

  lemma DriveKeepsLoop(a: Agv, side: Side, us: nat)
    ensures LoopOf(DriveStep(a, us), side) == LoopOf(a, side)
  {
  }

  lemma ConIsConTick(a: Agv, side: Side, us: nat)
    ensures LoopOf(ConStep(a, us), side) == S.ConTick(LoopOf(a, side), us)
  {
    DriveKeepsLoop(a, side, us);
  }

  lemma FineKeepsLoop(a: Agv, side: Side, us: nat)
    ensures LoopOf(FineStep(a, us), side) == LoopOf(a, side)
  {
  }

  lemma LastPhasesKeepLoop(a: Agv, side: Side, t: Tick)
    ensures LoopOf(Do(SerialStep(a, t.us), Instant(t.us, t.end, t.echo)), side) == LoopOf(a, side)
  {
  }

  lemma IterationIsLoop(a: Agv, side: Side, t: Tick)
    ensures LoopOf(Run(a, Iteration(t)), side) == S.Iterate(LoopOf(a, side), t.us)
  {
    IterationIs(a, t);
    var b := ServeStep(a, t.command, t.us);
    ServeKeepsLoop(a, side, t.command, t.us);
    CalcIsCalTick(b, side, t.us);
    var c := CalcStep(b, t.us);
    FastKeepsLoop(c, side, t.us, t.sensors);
    var d := FastStep(c, t.us, t.sensors);
    ConIsConTick(d, side, t.us);
    FineKeepsLoop(ConStep(d, t.us), side, t.us);
    LastPhasesKeepLoop(FineStep(ConStep(d, t.us), t.us), side, t);
  }

  // ---------- runs without accepted edges of one wheel ----------

  /** No edge of the wheel passes its debounce. */
  ghost predicate NoEdgeTaken(a: Agv, turns: seq<Turn>, side: Side) {
    forall i :: 0 <= i < |turns| && turns[i].Edge? && turns[i].side == side ==>
      !W.Accepts(WheelOf(Run(a, EventsOf(turns[..i])), side).est, turns[i].us)
  }

  lemma NoEdgePrefix(a: Agv, turns: seq<Turn>, side: Side, n: nat)
    requires NoEdgeTaken(a, turns, side) && n <= |turns|
    ensures NoEdgeTaken(a, turns[..n], side)
  {
    forall i | 0 <= i < n && turns[..n][i].Edge? && turns[..n][i].side == side
      ensures !W.Accepts(WheelOf(Run(a, EventsOf(turns[..n][..i])), side).est, turns[..n][i].us)
    {
      assert turns[..n][..i] == turns[..i];
    }
  }

  function PassTimes(turns: seq<Turn>): seq<nat> {
    if turns == [] then []
    else
      var last := turns[|turns| - 1];
      PassTimes(turns[..|turns| - 1]) + if last.Pass? then [last.tick.us] else []
  }

  lemma TurnStep(a: Agv, turns: seq<Turn>)
    requires turns != []
    ensures Run(a, EventsOf(turns)) ==
            Run(Run(a, EventsOf(turns[..|turns| - 1])), EventsOfTurn(turns[|turns| - 1]))
  {
    RunAppend(a, EventsOf(turns[..|turns| - 1]), EventsOfTurn(turns[|turns| - 1]));
  }

  lemma EdgeOnly(a: Agv, edge: Side, us: nat, side: Side)
    ensures LoopOf(Run(a, [PulseOf(edge, us)]), side) ==
            if edge == side then LoopOf(a, side).(est := W.Pulse(WheelOf(a, side).est, us)) else LoopOf(a, side)
  {
    OneEvent(a, PulseOf(edge, us));
  }

  /** Without accepted edges of its own a wheel's estimator sees only the iterations. */
  lemma {:induction false} TurnsAreIterations(a: Agv, side: Side, turns: seq<Turn>)
    requires NoEdgeTaken(a, turns, side)
    ensures LoopOf(Run(a, EventsOf(turns)), side) == S.Iterations(LoopOf(a, side), PassTimes(turns))
  {
    if turns != [] {
      var n := |turns| - 1;
      NoEdgePrefix(a, turns, side, n);
      TurnsAreIterations(a, side, turns[..n]);
      TurnStep(a, turns);
      TurnIsIteration(Run(a, EventsOf(turns[..n])), side, turns[n], LoopOf(a, side), PassTimes(turns[..n]),
        PassTimes(turns));
    }
  }

  lemma TurnIsIteration(b: Agv, side: Side, turn: Turn, s: S.Loop, times: seq<nat>, after: seq<nat>)
    requires LoopOf(b, side) == S.Iterations(s, times)
    requires after == times + if turn.Pass? then [turn.tick.us] else []
    requires turn.Edge? && turn.side == side ==> !W.Accepts(WheelOf(b, side).est, turn.us)
    ensures LoopOf(Run(b, EventsOfTurn(turn)), side) == S.Iterations(s, after)
  {
    match turn
    case Pass(tick) =>
      IterationIsLoop(b, side, tick);
      assert after[..|after| - 1] == times;
    case Edge(edge, us) =>
      EdgeOnly(b, edge, us, side);
      assert after == times;
  }

  // ---------- the tick times in every run ----------

  /** True time of the last iteration; 0 before the first. */
  function LastPass(turns: seq<Turn>): nat {
    if turns == [] then 0
    else if turns[|turns| - 1].Pass? then turns[|turns| - 1].tick.us else LastPass(turns[..|turns| - 1])
  }

  /** Iterations in order of time, never a clock wrap apart. */
  predicate Unstalled(turns: seq<Turn>) {
    forall i :: 0 <= i < |turns| && turns[i].Pass? ==>
      LastPass(turns[..i]) <= turns[i].tick.us && NoStall(LastPass(turns[..i]), turns[i].tick.us)
  }

  lemma UnstalledPrefix(turns: seq<Turn>, n: nat)
    requires Unstalled(turns) && n <= |turns|
    ensures Unstalled(turns[..n])
  {
    forall i | 0 <= i < n && turns[..n][i].Pass?
      ensures LastPass(turns[..n][..i]) <= turns[..n][i].tick.us
      ensures NoStall(LastPass(turns[..n][..i]), turns[..n][i].tick.us)
    {
      assert turns[..n][..i] == turns[..i];
    }
  }

  lemma IterateKeepsPunctual(s: S.Loop, t: S.Trace, us: nat) returns (t': S.Trace)
    requires S.Punctual(s, t) && t.now <= us && NoStall(t.now, us)
    ensures S.Punctual(S.Iterate(s, us), t') && t'.now == us
  {
    S.SinceMs(t.cal, us);
    S.SinceMs(Ms(t.conUs), us);
    var c := if Ms(us) - t.cal >= CAL_PERIOD then Ms(us) else t.cal;
    var u := if Ms(us) - Ms(t.conUs) >= CON_PERIOD then us else t.conUs;
    t' := S.Trace(us, c, u);
  }

  lemma PulseKeepsPunctual(s: S.Loop, t: S.Trace, us: nat)
    requires S.Punctual(s, t)
    ensures S.Punctual(s.(est := W.Pulse(s.est, us)), t)
  {
  }

  /** In every run the controller's tick times are the wrapped true ones. */
  lemma {:induction false} ReachableIsPunctual(boot: nat, side: Side, turns: seq<Turn>) returns (t: S.Trace)
    requires Unstalled(turns)
    ensures S.Punctual(LoopOf(Run(Boot(boot), EventsOf(turns)), side), t) && t.now == LastPass(turns)
  {
    if turns == [] {
      t := S.Trace(0, 0, 0);
    } else {
      var init, last := turns[..|turns| - 1], turns[|turns| - 1];
      UnstalledPrefix(turns, |init|);
      t := ReachableIsPunctual(boot, side, init);
      TurnStep(Boot(boot), turns);
      var a := Run(Boot(boot), EventsOf(init));
      match last
      case Pass(tick) =>
        IterationIsLoop(a, side, tick);
        t := IterateKeepsPunctual(LoopOf(a, side), t, tick.us);
      case Edge(edge, us) =>
        EdgeOnly(a, edge, us, side);
        PulseKeepsPunctual(LoopOf(a, side), t, us);
    }
  }

  /** An accepted pulse at time l that closes an interval of at most one second. */
  predicate LastPulseAt(e: W.Estimator, l: nat) {
    && e.lastPulse != 0 && W.Accepts(e, l) && Since(Micros(l), e.lastPulse) <= W.INS_RPM_TIMEOUT
    && Micros(l) != 0 && Micros(l) != e.lastProcessed
  }

  /** The state after the pulse, in any run, is one from which the wheel is stopping. */
  lemma StoppingStarts(boot: nat, side: Side, before: seq<Turn>, l: nat, a: Agv) returns (t: S.Trace)
    requires Unstalled(before) && LastPass(before) <= l && a == Run(Boot(boot), EventsOf(before))
    requires LastPulseAt(WheelOf(a, side).est, l)
    ensures S.Stopping(LoopOf(Do(a, PulseOf(side, l)), side), l, t) && t.now == LastPass(before)
  {
    t := ReachableIsPunctual(boot, side, before);
    S.AfterPulse(LoopOf(a, side), t, l);
  }

  /** A stopped wheel reads as stopped, in any run of the whole controller: if the last accepted pulse
      of a wheel comes at time l, whatever came before it, and iterations are at most 50 ms apart from
      then on, the wheel's RPM estimate is 0 at every iteration later than the adaptive timeout of the
      pulse interval plus 21 ms. */
  lemma StoppedWheelReadsZero(boot: nat, side: Side, before: seq<Turn>, l: nat, after: seq<Turn>, a: Agv, b: Agv)
    requires Unstalled(before) && LastPass(before) <= l && a == Run(Boot(boot), EventsOf(before))
    requires W.Accepts(WheelOf(a, side).est, l)
    requires b == Run(Do(a, PulseOf(side, l)), EventsOf(after)) && NoEdgeTaken(Do(a, PulseOf(side, l)), after, side)
    requires S.Cadence(PassTimes(after), LastPass(before), l) && PassTimes(after) != []
    requires PassTimes(after)[|PassTimes(after)| - 1] - l
             > W.AdaptiveTimeout(W.Pulse(WheelOf(a, side).est, l).pulseInterval) + 21000
    ensures WheelOf(b, side).est.rpmEst == 0.0
  {
    var t := ReachableIsPunctual(boot, side, before);
    S.FadingStarts(LoopOf(a, side), t, l);
    TurnsAreIterations(Do(a, PulseOf(side, l)), side, after);
    S.ZeroByDeadline(LoopOf(Do(a, PulseOf(side, l)), side), l, t, PassTimes(after));
  }

  lemma {:induction false} PassTimesAppend(x: seq<Turn>, y: seq<Turn>)
    ensures PassTimes(x + y) == PassTimes(x) + PassTimes(y)
    decreases |y|
  {
    if y == [] {
      Seqs.EmptyConcat(x);
    } else {
      Seqs.InitOfConcat(x, y);
      PassTimesAppend(x, y[..|y| - 1]);
      var last := y[|y| - 1];
      Seqs.Assoc(PassTimes(x), PassTimes(y[..|y| - 1]), if last.Pass? then [last.tick.us] else []);
    }
  }

  lemma NeverRises(s: S.Loop, l: nat, t: S.Trace, first: seq<nat>, more: seq<nat>)
    requires S.Stopping(s, l, t) && S.Cadence(first + more, t.now, l)
    requires S.Processed(S.Iterations(s, first).est)
    ensures S.Iterations(s, first + more).est.rpmEst <= S.Iterations(s, first).est.rpmEst
  {
    var times := first + more;
    assert times[..|first|] == first && times[..|times|] == times;
    S.EstimateNeverRises(s, l, t, times, |first|, |times|);
  }

  /** If the last pulse closed an interval of at most a second, the estimate never rises on the way
      there once a sample has processed the pulse: p is the state after the pulse, b and c are the
      states after the turns x and after the turns x + y. */
  lemma StoppingWheelNeverSpeedsUp(boot: nat, side: Side, before: seq<Turn>, l: nat, x: seq<Turn>, y: seq<Turn>,
                                   a: Agv, p: Agv, b: Agv, c: Agv)
    requires Unstalled(before) && LastPass(before) <= l && a == Run(Boot(boot), EventsOf(before))
    requires LastPulseAt(WheelOf(a, side).est, l) && p == Do(a, PulseOf(side, l)) && NoEdgeTaken(p, x + y, side)
    requires b == Run(p, EventsOf(x)) && c == Run(p, EventsOf(x + y))
    requires S.Cadence(PassTimes(x + y), LastPass(before), l)
    requires S.Processed(WheelOf(b, side).est)
    ensures WheelOf(c, side).est.rpmEst <= WheelOf(b, side).est.rpmEst
  {
    var t := StoppingStarts(boot, side, before, l, a);
    NoEdgePrefix(p, x + y, side, |x|);
    assert (x + y)[..|x|] == x;
    TurnsAreIterations(p, side, x);
    TurnsAreIterations(p, side, x + y);
    PassTimesAppend(x, y);
    NeverRises(LoopOf(p, side), l, t, PassTimes(x), PassTimes(y));
  }

  // ---------- such runs exist ----------

  /** n iterations, 50 ms apart. */
  function EvenPasses(n: nat): seq<Turn> {
    if n == 0 then []
    else EvenPasses(n - 1) + [Pass(Tick(50000 * n, NoCommand, LineTracer.Sensors(false, true, false), 50000 * n,
         false))]
  }

  lemma {:induction false} EvenPassTimes(n: nat)
    ensures |PassTimes(EvenPasses(n))| == n && forall i :: 0 <= i < |EvenPasses(n)| ==> EvenPasses(n)[i].Pass?
    ensures forall i :: 0 <= i < n ==> PassTimes(EvenPasses(n))[i] == 50000 * (i + 1)
  {
    if n > 0 {
      EvenPassTimes(n - 1);
      Seqs.InitOfConcat(EvenPasses(n - 1), [EvenPasses(n)[|EvenPasses(n)| - 1]]);
    }
  }

  lemma EvenCadence(times: seq<nat>)
    requires forall i :: 0 <= i < |times| ==> times[i] == 50000 * (i + 1)
    ensures S.Cadence(times, 0, 40000)
  {
  }

  lemma FirstEdge(a: Agv, before: seq<Turn>)
    requires before == [Edge(Left, 20000)] && a == Run(Boot(0), EventsOf(before))
    ensures Unstalled(before) && LastPass(before) == 0 && LastPulseAt(a.left.est, 40000)
    ensures a.left.est.lastPulse == 20000
  {
    assert before[..0] == [];
    assert EventsOf(before) == [PulseOf(Left, 20000)];
    OneEvent(Boot(0), PulseOf(Left, 20000));
  }

  /** The assumptions of both theorems can be met: two edges 20 ms apart, then iterations
      every 50 ms for n * 50 ms, n being at least 8. */
  lemma StoppingRunExists(n: nat, before: seq<Turn>, a: Agv)
    requires n >= 8 && before == [Edge(Left, 20000)] && a == Run(Boot(0), EventsOf(before))
    ensures Unstalled(before) && LastPass(before) <= 40000 && LastPulseAt(a.left.est, 40000)
    ensures var after := EvenPasses(n);
            && NoEdgeTaken(Do(a, PulseOf(Left, 40000)), after, Left)
               && S.Cadence(PassTimes(after), LastPass(before), 40000) && PassTimes(after) != []
            && PassTimes(after)[|PassTimes(after)| - 1] - 40000
               > W.AdaptiveTimeout(W.Pulse(a.left.est, 40000).pulseInterval) + 21000
  {
    FirstEdge(a, before);
    EvenPassTimes(n);
    EvenCadence(PassTimes(EvenPasses(n)));
  }
}
