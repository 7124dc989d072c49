/** What a finished ultrasonic measurement says, in the true times at which its polls saw the echo. */
module UltrasonicEcho {
  import opened Clock
  import opened Ultrasonic

  // ---------- the echo of one measurement ----------

  /** Every poll after the trigger at index t and before index n sees no echo, within 25 ms of the trigger. */
  ghost predicate Silence(events: seq<Event>, t: nat, n: nat)
    requires t < |events| && n <= |events| && events[t].PollAt?
  {
    forall k :: t < k < n && events[k].PollAt? ==> !events[k].echo && events[k].us < events[t].end + 25000
  }

  /** Every poll after the rise at index r and before index n sees the echo, within 25 ms of the rise. */
  ghost predicate Sound(events: seq<Event>, r: nat, n: nat)
    requires r < |events| && n <= |events| && events[r].PollAt?
  {
    forall k :: r < k < n && events[k].PollAt? ==> events[k].echo && events[k].us < events[r].us + 25000
  }

  /** The measurement triggered at index t saw the echo rise at index r. */
  ghost predicate RisesAt(events: seq<Event>, t: nat, r: nat) {
    && t < r < |events| && events[t].PollAt? && events[r].PollAt? && events[r].echo && Silence(events, t, r)
  }

  /** And fall at index f. */
  ghost predicate FallsAt(events: seq<Event>, t: nat, r: nat, f: nat) {
    RisesAt(events, t, r) && r < f < |events| && events[f].PollAt? && !events[f].echo && Sound(events, r, f)
  }

  /** It ended at index m without: the echo had not risen after 25 ms. */
  ghost predicate NeverRises(events: seq<Event>, t: nat, m: nat) {
    && t < m < |events| && events[t].PollAt? && events[m].PollAt? && !events[m].echo
    && Silence(events, t, m) && events[m].us >= events[t].end + 25000
  }

  /** Or it had not fallen 25 ms after its rise. */
  ghost predicate NeverFalls(events: seq<Event>, t: nat, r: nat, m: nat) {
    && RisesAt(events, t, r) && r < m < |events| && events[m].PollAt? && events[m].echo
    && Sound(events, r, m) && events[m].us >= events[r].us + 25000
  }

  lemma RiseIsUnique(events: seq<Event>, t: nat, r: nat, q: nat)
    requires RisesAt(events, t, r) && RisesAt(events, t, q)
    ensures r == q
  {
  }

  lemma FallIsUnique(events: seq<Event>, t: nat, r: nat, f: nat, q: nat, g: nat)
    requires FallsAt(events, t, r, f) && FallsAt(events, t, q, g)
    ensures r == q && f == g
  {
    RiseIsUnique(events, t, r, q);
  }

  lemma SilenceExcludesFall(events: seq<Event>, t: nat, m: nat, r: nat, f: nat)
    requires NeverRises(events, t, m)
    ensures !FallsAt(events, t, r, f)
  {
  }

  lemma SoundExcludesFall(events: seq<Event>, t: nat, q: nat, m: nat, r: nat, f: nat)
    requires NeverFalls(events, t, q, m)
    ensures !FallsAt(events, t, r, f)
  {
    if RisesAt(events, t, r) {
      RiseIsUnique(events, t, r, q);
    }
  }

  // ---------- the course of a run ----------

  /** How far the measurement triggered at index t has come. */
  datatype Course =
    | Idle
    | Listening(t: nat)
    | Rising(t: nat, r: nat)
    | Heard(t: nat, r: nat, f: nat)
    | Unanswered(t: nat, m: nat)
    | Unended(t: nat, r: nat, m: nat)

  predicate Ended(c: Course) {
    c.Heard? || c.Unanswered? || c.Unended?
  }

  ghost predicate OnCourse(s: Sonar, trigger: nat, rise: nat, events: seq<Event>, n: nat, c: Course)
    requires n <= |events|
  {
    && (c.Idle? ==> s.state.WaitInterval? && !s.resultReady)
    && (c.Listening? ==> s.state.WaitEchoRise? && c.t < n && events[c.t].PollAt? && trigger == events[c.t].end
                         && Silence(events, c.t, n))
    && (c.Rising? ==> s.state.WaitEchoFall? && c.r < n && RisesAt(events, c.t, c.r) && rise == events[c.r].us
                      && Sound(events, c.r, n))
    && (Ended(c) ==> s.state.WaitInterval? && c.t < n)
    && (c.Heard? ==> c.f < n && FallsAt(events, c.t, c.r, c.f) && events[c.f].us >= events[c.r].us
                     && s.latestDistanceMm == (events[c.f].us - events[c.r].us) * 343 / 2000)
    && (c.Unanswered? ==> c.m < n && NeverRises(events, c.t, c.m) && s.latestDistanceMm == -1)
    && (c.Unended? ==> c.m < n && NeverFalls(events, c.t, c.r, c.m) && s.latestDistanceMm == -1)
  }

  predicate TriggersOn(s: Sonar, e: Event) {
    e.PollAt? && Triggers(s, e.us)
  }

  predicate RisesOn(s: Sonar, e: Event) {
    s.state.WaitEchoRise? && e.PollAt? && e.echo
  }

  /** The next event comes at most gap microseconds after `now`. */
  predicate Soon(s: Sonar, now: nat, gap: nat, e: Event) {
    e.PollAt? ==> now <= e.us <= now + gap && e.us <= e.end && (e.end > e.us ==> Triggers(s, e.us))
  }

  lemma ListeningStep(s: Sonar, now: nat, trigger: nat, rise: nat, gap: nat, events: seq<Event>, n: nat, c: Course)
                     returns (c': Course)
    requires n < |events| && OnTime(s, now, trigger, rise, gap) && gap <= MAX_GAP_US
    requires c.Listening? && OnCourse(s, trigger, rise, events, n, c) && Soon(s, now, gap, events[n])
    requires events[n].PollAt?
    ensures OnCourse(Do(s, events[n]), trigger, if events[n].echo then events[n].us else rise, events, n + 1, c')
    ensures !c'.Idle? && c'.t == c.t
  {
    var us := events[n].us;
    SinceIsElapsed(trigger, us);
    if events[n].echo {
      c' := Rising(c.t, n);
    } else if us >= trigger + 25000 {
      c' := Unanswered(c.t, n);
    } else {
      c' := c;
    }
  }

  lemma RisingStep(s: Sonar, now: nat, trigger: nat, rise: nat, gap: nat, events: seq<Event>, n: nat, c: Course)
                  returns (c': Course)
    requires n < |events| && OnTime(s, now, trigger, rise, gap) && gap <= MAX_GAP_US
    requires c.Rising? && OnCourse(s, trigger, rise, events, n, c) && Soon(s, now, gap, events[n])
    requires events[n].PollAt?
    ensures OnCourse(Do(s, events[n]), trigger, rise, events, n + 1, c')
    ensures !c'.Idle? && c'.t == c.t
  {
    var us := events[n].us;
    SinceIsElapsed(rise, us);
    DistanceIsExact(us - rise);
    if !events[n].echo {
      c' := Heard(c.t, c.r, n);
    } else if us >= rise + 25000 {
      c' := Unended(c.t, c.r, n);
    } else {
      c' := c;
    }
  }

  lemma CourseStep(s: Sonar, now: nat, trigger: nat, rise: nat, gap: nat, events: seq<Event>, n: nat, c: Course)
                  returns (c': Course)
    requires n < |events| && OnTime(s, now, trigger, rise, gap) && gap <= MAX_GAP_US
    requires OnCourse(s, trigger, rise, events, n, c) && Soon(s, now, gap, events[n])
    ensures OnCourse(Do(s, events[n]), if TriggersOn(s, events[n]) then events[n].end else trigger,
                     if RisesOn(s, events[n]) then events[n].us else rise, events, n + 1, c')
    ensures TriggersOn(s, events[n]) ==> !c'.Idle? && c'.t == n
    ensures !TriggersOn(s, events[n]) ==> c'.Idle? == c.Idle? && (!c.Idle? ==> c'.t == c.t)
  {
    if TriggersOn(s, events[n]) {
      c' := Listening(n);
    } else if c.Listening? && events[n].PollAt? {
      c' := ListeningStep(s, now, trigger, rise, gap, events, n, c);
    } else if c.Rising? && events[n].PollAt? {
      c' := RisingStep(s, now, trigger, rise, gap, events, n, c);
    } else {
      c' := c;
    }
  }

  // ---------- runs ----------

  /** Index t is the last of the first n events to trigger a measurement. */
  ghost predicate LastTriggerAt(events: seq<Event>, from: nat, t: nat, n: nat)
    requires n <= |events|
  {
    t < n && TriggeredAt(events, from, t) && forall k :: t < k < n ==> !TriggeredAt(events, from, k)
  }

  lemma PrefixStep(events: seq<Event>, from: nat, gap: nat, n: nat)
    requires Paced(events, from, gap) && n < |events|
    ensures var s, init := Run(Setup(from), events[..n]), events[..n];
            && Paced(init, from, gap) && Run(Setup(from), events[..n + 1]) == Do(s, events[n])
            && Soon(s, LastEnd(init, from), gap, events[n])
            && (TriggeredAt(events, from, n) <==> TriggersOn(s, events[n]))
            && LastTrigger(events[..n + 1], from)
               == (if TriggersOn(s, events[n]) then events[n].end else LastTrigger(init, from))
            && LastRise(events[..n + 1], from)
               == (if RisesOn(s, events[n]) then events[n].us else LastRise(init, from))
  {
    PacedPrefix(events, from, gap, n + 1);
    var upto := events[..n + 1];
    assert upto[..n] == events[..n] && upto[n] == events[n] && |upto| - 1 == n;
  }

  /** The measurement in progress after n events is the one triggered last. */
  ghost predicate Current(events: seq<Event>, from: nat, n: nat, c: Course)
    requires n <= |events|
  {
    if c.Idle? then forall k :: 0 <= k < n ==> !TriggeredAt(events, from, k) else LastTriggerAt(events, from, c.t, n)
  }

  lemma CurrentStep(events: seq<Event>, from: nat, n: nat, c: Course, c': Course)
    requires n < |events| && Current(events, from, n, c)
    requires if TriggeredAt(events, from, n) then !c'.Idle? && c'.t == n
             else c'.Idle? == c.Idle? && (!c.Idle? ==> c'.t == c.t)
    ensures Current(events, from, n + 1, c')
  {
  }

  ghost predicate OnRun(events: seq<Event>, from: nat, n: nat, c: Course)
    requires n <= |events|
  {
    OnCourse(Run(Setup(from), events[..n]), LastTrigger(events[..n], from), LastRise(events[..n], from), events, n, c)
  }

  lemma CourseNext(events: seq<Event>, from: nat, gap: nat, n: nat, c: Course) returns (c': Course)
    requires Paced(events, from, gap) && gap <= MAX_GAP_US && n < |events|
    requires OnRun(events, from, n, c) && Current(events, from, n, c)
    ensures OnRun(events, from, n + 1, c') && Current(events, from, n + 1, c')
  {
    var init := events[..n];
    PrefixStep(events, from, gap, n);
    RunIsOnTime(init, from, gap);
    c' := CourseStep(Run(Setup(from), init), LastEnd(init, from), LastTrigger(init, from), LastRise(init, from), gap,
                     events, n, c);
    CurrentStep(events, from, n, c, c');
  }

  lemma {:induction false} CourseOf(events: seq<Event>, from: nat, gap: nat, n: nat) returns (c: Course)
    requires Paced(events, from, gap) && gap <= MAX_GAP_US && n <= |events|
    ensures OnRun(events, from, n, c) && Current(events, from, n, c)
  {
    if n == 0 {
      c := Idle;
    } else {
      c := CourseOf(events, from, gap, n - 1);
      c := CourseNext(events, from, gap, n - 1, c);
    }
  }

  lemma CourseSays(s: Sonar, trigger: nat, rise: nat, events: seq<Event>, c: Course)
    requires OnCourse(s, trigger, rise, events, |events|, c) && Ended(c)
    ensures s.latestDistanceMm == -1 <==> forall r: nat, f: nat :: !FallsAt(events, c.t, r, f)
    ensures forall r: nat, f: nat :: FallsAt(events, c.t, r, f) ==>
              s.latestDistanceMm == (events[f].us - events[r].us) * 343 / 2000
  {
    forall r: nat, f: nat | FallsAt(events, c.t, r, f)
      ensures c.Heard? && r == c.r && f == c.f
    {
      match c
      case Heard(t, q, g) => FallIsUnique(events, t, r, f, q, g);
      case Unanswered(t, m) => SilenceExcludesFall(events, t, m, r, f);
      case Unended(t, q, m) => SoundExcludesFall(events, t, q, m, r, f);
    }
    if c.Heard? {
      assert FallsAt(events, c.t, c.r, c.f);
    }
  }

  /** A finished measurement, in every run polled at most 166068 microseconds apart: it is -1 exactly
      when no polls since its trigger saw the echo rise and then fall, each within its 25 ms, and
      otherwise it is the true time from that rise to that fall at 343 m/s there and back. */
  lemma ResultIsTheEcho(events: seq<Event>, from: nat, gap: nat, s: Sonar) returns (t: nat)
    requires Paced(events, from, gap) && gap <= MAX_GAP_US && s == Run(Setup(from), events) && s.resultReady
    ensures LastTriggerAt(events, from, t, |events|)
    ensures s.latestDistanceMm == -1 <==> forall r: nat, f: nat :: !FallsAt(events, t, r, f)
    ensures forall r: nat, f: nat :: FallsAt(events, t, r, f) ==>
              s.latestDistanceMm == (events[f].us - events[r].us) * 343 / 2000
  {
    assert events[..|events|] == events;
    ResultsWait(events, from);
    var c := CourseOf(events, from, gap, |events|);
    t := c.t;
    CourseSays(s, LastTrigger(events, from), LastRise(events, from), events, c);
  }

  // ---------- progress ----------

  /** In every run exactly those polls trigger that find no measurement in progress and no result
      unread, 60 ms or more after the last trigger by the wrapped clock. */
  lemma TriggersIff(events: seq<Event>, from: nat, gap: nat, n: nat)
    requires Paced(events, from, gap) && n < |events| && events[n].PollAt?
    ensures var s := Run(Setup(from), events[..n]);
            TriggeredAt(events, from, n) <==>
            s.state.WaitInterval? && !s.resultReady
            && (events[n].us - LastTrigger(events[..n], from)) % TICKS >= 60000
  {
    PrefixStep(events, from, gap, n);
    TriggersTracked(events[..n], from, gap);
    SinceIsElapsed(LastTrigger(events[..n], from), events[n].us);
  }

  /** A result is read at index k. */
  predicate ReadAt(events: seq<Event>, from: nat, k: nat)
    requires k < |events|
  {
    events[k].ReadResult? && Run(Setup(from), events[..k]).resultReady
  }

  lemma StepKeepsAnswer(s: Sonar, e: Event)
    requires !TriggersOn(s, e) && (s.state.WaitInterval? ==> s.resultReady)
    ensures Do(s, e).state.WaitInterval? && !Do(s, e).resultReady ==> e.ReadResult? && s.resultReady
  {
  }

  lemma TriggerListens(s: Sonar, e: Event)
    requires TriggersOn(s, e)
    ensures Do(s, e).state.WaitEchoRise?
  {
  }

  /** Every measurement that has ended is there to be read until it is read. */
  lemma {:induction false} ResultIsKept(events: seq<Event>, from: nat, gap: nat, t: nat, n: nat)
    requires Paced(events, from, gap) && n <= |events| && LastTriggerAt(events, from, t, n)
    requires Run(Setup(from), events[..n]).state.WaitInterval?
    ensures Run(Setup(from), events[..n]).resultReady || exists k :: t < k < n && ReadAt(events, from, k)
    decreases n
  {
    PrefixStep(events, from, gap, n - 1);
    var s := Run(Setup(from), events[..n - 1]);
    if t == n - 1 {
      TriggerListens(s, events[t]);
    } else {
      if s.state.WaitInterval? {
        ResultIsKept(events, from, gap, t, n - 1);
      }
      if s.state.WaitInterval? ==> s.resultReady {
        StepKeepsAnswer(s, events[n - 1]);
      }
      assert s.resultReady && events[n - 1].ReadResult? ==> ReadAt(events, from, n - 1);
    }
  }

  /** Every trigger is answered: 50 ms and a gap after it, in runs polled at most `gap` apart, its result
      is ready or has been read. */
  lemma TriggersAreAnswered(events: seq<Event>, from: nat, gap: nat, t: nat)
    requires Paced(events, from, gap) && gap <= MAX_GAP_US && LastTriggerAt(events, from, t, |events|)
    requires LastEnd(events, from) >= events[t].end + 50000 + gap
    ensures Run(Setup(from), events).resultReady || exists k :: t < k < |events| && ReadAt(events, from, k)
  {
    LastTriggerIs(events, from, gap, t, |events|);
    assert events[..|events|] == events;
    MeasurementsEnd(gap);
    assert EndsInTime(events, from, gap);
    ResultIsKept(events, from, gap, t, |events|);
  }

  lemma {:induction false} LastTriggerIs(events: seq<Event>, from: nat, gap: nat, t: nat, n: nat)
    requires Paced(events, from, gap) && n <= |events| && LastTriggerAt(events, from, t, n)
    ensures LastTrigger(events[..n], from) == events[t].end
    decreases n
  {
    PrefixStep(events, from, gap, n - 1);
    if t < n - 1 {
      LastTriggerIs(events, from, gap, t, n - 1);
    }
  }
}
