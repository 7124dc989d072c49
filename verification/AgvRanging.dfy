/** What the AGV makes of its ranges over whole runs: the range it keeps, and the open space in which
    no echo returns. */
module AgvRanging {
  import opened Clock
  import opened Schedule
  import opened AgvModel
  import opened AgvInterlock
  import Ultrasonic
  import Echo = UltrasonicEcho

  /** The result taken last, -1 before the first. */
  function LastTaken(a: Agv, events: seq<Event>): int {
    if events == [] then -1
    else
      var init, last := events[..|events| - 1], events[|events| - 1];
      if TakesRange(Run(a, init), last) then Run(a, init).sonar.latestDistanceMm else LastTaken(a, init)
  }

  lemma RangeStep(a: Agv, e: Event)
    ensures Do(a, e).range == if TakesRange(a, e) then a.sonar.latestDistanceMm else a.range
  {
  }

  /** In every run the range that reports show is the result taken last, valid or not. */
  lemma {:induction false} RangeIsLastTaken(boot: nat, events: seq<Event>)
    ensures Run(Boot(boot), events).range == LastTaken(Boot(boot), events)
  {
    if events != [] {
      var n := |events| - 1;
      RangeIsLastTaken(boot, events[..n]);
      RangeStep(Run(Boot(boot), events[..n]), events[n]);
    }
  }

  /** Which is the true echo: the range a fast tick takes in a run whose sensor is polled at most 166068
      microseconds apart is that of the polls p made so far, of which the one at index t triggered last. */
  lemma RangeIsTheEcho(boot: nat, events: seq<Event>, e: Event, a: Agv, p: seq<Ultrasonic.Event>, gap: nat)
    returns (t: nat)
    requires a == Run(Boot(boot), events) && TakesRange(a, e) && p == PollsOf(Boot(boot), events)
    requires Ultrasonic.Paced(p, boot, gap) && gap <= Ultrasonic.MAX_GAP_US
    ensures Echo.LastTriggerAt(p, boot, t, |p|)
    ensures Do(a, e).range == -1 <==> forall r: nat, f: nat :: !Echo.FallsAt(p, t, r, f)
    ensures forall r: nat, f: nat :: Echo.FallsAt(p, t, r, f) ==>
              Do(a, e).range == (p[f].us - p[r].us) * 343 / 2000
  {
    SonarRunsItsPolls(boot, events);
    t := Echo.ResultIsTheEcho(p, boot, gap, a.sonar);
    RangeStep(a, e);
  }

  // ---------- open space ----------

  /** No poll sees an echo. */
  predicate NoEcho(events: seq<Event>) {
    forall i :: 0 <= i < |events| && events[i].Instant? ==> !events[i].echo
  }

  /** No echo is being timed, and no valid range waits to be read. */
  predicate Unheard(s: Ultrasonic.Sonar) {
    !s.state.WaitEchoFall? && (s.resultReady ==> s.latestDistanceMm == -1)
  }

  lemma UnheardStep(a: Agv, e: Event)
    requires Unheard(a.sonar) && (e.Instant? ==> !e.echo)
    ensures Unheard(Do(a, e).sonar) && !TakesValidRange(a, e)
  {
    SonarStep(a, e);
  }

  lemma {:induction false} StaysUnheard(a: Agv, events: seq<Event>)
    requires Unheard(a.sonar) && NoEcho(events)
    ensures Unheard(Run(a, events).sonar)
  {
    if events != [] {
      StaysUnheard(a, events[..|events| - 1]);
      UnheardStep(Run(a, events[..|events| - 1]), events[|events| - 1]);
    }
  }

  /** The last valid range of a run is not moved by events without an echo. */
  lemma {:induction false} LastValidKept(boot: nat, before: seq<Event>, quiet: seq<Event>)
    requires Unheard(Run(Boot(boot), before).sonar) && NoEcho(quiet)
    ensures LastValid(Boot(boot), before + quiet) == LastValid(Boot(boot), before)
  {
    if quiet == [] {
      assert before + quiet == before;
    } else {
      var n := |quiet| - 1;
      var init := before + quiet[..n];
      LastValidKept(boot, before, quiet[..n]);
      assert (before + quiet)[..|before + quiet| - 1] == init;
      assert (before + quiet)[|before + quiet| - 1] == quiet[n];
      RunAppend(Boot(boot), before, quiet[..n]);
      StaysUnheard(Run(Boot(boot), before), quiet[..n]);
      UnheardStep(Run(Boot(boot), init), quiet[n]);
    }
  }

  /** While no echo returns, from any moment of any run at which none is being timed or left to be
      read, every range taken is -1 and counts as an obstacle exactly while less than 1000 ms by the
      wrapped clock have passed since the last valid range, at true time l: after that open space is
      taken for clear. */
  lemma OpenSpaceClears(boot: nat, before: seq<Event>, l: nat, quiet: seq<Event>, e: Event, b: Agv)
    requires Unheard(Run(Boot(boot), before).sonar) && NoEcho(quiet) && l == LastValid(Boot(boot), before)
    requires b == Run(Boot(boot), before + quiet) && TakesRange(b, e) && Ordered(before + quiet + [e])
    ensures Do(b, e).range == -1
    ensures Do(b, e).onobstacle <==> (Ms(e.us) - Ms(l)) % TICKS < 1000
  {
    RunAppend(Boot(boot), before, quiet);
    StaysUnheard(Run(Boot(boot), before), quiet);
    LastValidKept(boot, before, quiet);
    OrderedInit(before + quiet, e);
    RangeDecidesObstacle(boot, before + quiet, e, b, l);
    RangeStep(b, e);
  }

  lemma OrderedInit(events: seq<Event>, e: Event)
    requires Ordered(events + [e])
    ensures Ordered(events) && (events != [] ==> events[|events| - 1].us <= e.us)
  {
    var all := events + [e];
    forall i, j | 0 <= i < j < |events| ensures events[i].us <= events[j].us {
      assert all[i].us <= all[j].us;
    }
    if events != [] {
      assert all[|events| - 1].us <= all[|events|].us;
    }
  }

  lemma EmptyRun(boot: nat, none: seq<Event>)
    requires none == []
    ensures Unheard(Run(Boot(boot), none).sonar) && LastValid(Boot(boot), none) == 0
  {
  }

  /** In particular an AGV that has never heard an echo. */
  lemma SilentRunClears(boot: nat, quiet: seq<Event>, e: Event, b: Agv)
    requires NoEcho(quiet) && b == Run(Boot(boot), quiet) && TakesRange(b, e) && Ordered(quiet + [e])
    ensures Do(b, e).onobstacle <==> Ms(e.us) % TICKS < 1000
  {
    var none: seq<Event> := [];
    EmptyRun(boot, none);
    assert none + quiet == quiet;
    OpenSpaceClears(boot, none, 0, quiet, e, b);
  }
}
