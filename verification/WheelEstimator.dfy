/** What the RPM estimate of a wheel means over whole runs: debounce and range, exactness on
    steady rotation. */
module WheelEstimator {
  import opened Options
  import opened Clock
  import opened WheelModel

  /** PeriodRpm decreases with the period. */
  lemma PeriodRpmDecreases(p: nat, q: nat)
    requires 0 < p <= q
    ensures PeriodRpm(q) <= PeriodRpm(p)
    ensures PeriodRpm(q) > 0.0
  {
    var x, y := 20.0 * p as real, 20.0 * q as real;
    assert 0.0 < x <= y;
    Reciprocal(60000000.0, x, y);
  }

  lemma Reciprocal(c: real, x: real, y: real)
    requires c > 0.0 && 0.0 < x <= y
    ensures 0.0 < c / y <= c / x
  {
    var a, b := c / y, c / x;
    assert a * y == c && b * x == c;
    assert (a - b) * x == a * (x - y);
  }

  lemma PeriodRpmIs(p: nat)
    requires p > 0
    ensures PeriodRpm(p) == 3000000.0 / p as real
  {
    assert PeriodRpm(p) * (20.0 * p as real) == 60000000.0;
    assert PeriodRpm(p) * p as real == 3000000.0;
  }

  // ---------- debounce ----------

  predicate AcceptedAt(calls: seq<Timed>, k: nat)
    requires k < |calls|
  {
    calls[k].call.EncoderPulse? && Accepts(Run(FRESH, calls[..k]).est, calls[k].us)
  }

  /** True time of the last accepted pulse. */
  function LastAccepted(calls: seq<Timed>): Option<nat> {
    if calls == [] then None
    else if AcceptedAt(calls, |calls| - 1) then Some(calls[|calls| - 1].us)
    else LastAccepted(calls[..|calls| - 1])
  }

  lemma PrefixOrdered(calls: seq<Timed>, n: nat)
    requires TimeOrdered(calls) && n <= |calls|
    ensures TimeOrdered(calls[..n])
  {
  }

  lemma {:induction false} LastPulseTracks(calls: seq<Timed>)
    requires TimeOrdered(calls)
    ensures var e, l := Run(FRESH, calls).est, LastAccepted(calls);
            match l
            case None => e.lastPulse == 0
            case Some(t) => e.lastPulse == Micros(t) && calls != [] && t <= calls[|calls| - 1].us
  {
    if calls != [] {
      var n := |calls| - 1;
      PrefixOrdered(calls, n);
      LastPulseTracks(calls[..n]);
      assert calls[..n] != [] ==> calls[n - 1].us <= calls[n].us;
    }
  }

  /** The last accepted edge is stamped 0, which the debounce takes for no edge at all. */
  predicate ZeroStamped(calls: seq<Timed>) {
    LastAccepted(calls).Some? && Micros(LastAccepted(calls).value) == 0
  }

  /** After these calls no edge less than 10 ms after the last accepted one is accepted. */
  ghost predicate Debounces(calls: seq<Timed>)
    requires LastAccepted(calls).Some?
  {
    forall us :: us >= LastAccepted(calls).value && Accepts(Run(FRESH, calls).est, us) ==>
      us - LastAccepted(calls).value >= MIN_ENCODER_PULSE_MICROS
  }

  /** The debounce is in force in any run exactly when the last accepted edge did not fall where
      micros() read 0. */
  lemma DebouncesIff(calls: seq<Timed>)
    requires TimeOrdered(calls) && LastAccepted(calls).Some?
    ensures Debounces(calls) <==> !ZeroStamped(calls)
  {
    var t := LastAccepted(calls).value;
    LastPulseTracks(calls);
    forall us | us >= t && !ZeroStamped(calls) && Accepts(Run(FRESH, calls).est, us)
      ensures us - t >= MIN_ENCODER_PULSE_MICROS
    {
      SinceIsElapsed(t, us);
    }
    assert ZeroStamped(calls) ==> Accepts(Run(FRESH, calls).est, t);
  }

  /** Otherwise it is off altogether: whenever the next edge comes, it is accepted. */
  lemma DebounceOffAfterZero(e: Estimator, k: nat, us: nat)
    requires Accepts(e, k * TICKS)
    ensures Accepts(Pulse(e, k * TICKS), us)
  {
    assert Micros(k * TICKS) == 0 by {
      ModShift(0, k);
    }
  }

  /** So an accepted edge comes at least 10 ms of true time after the one accepted before, unless
      that one fell where micros() read 0. */
  lemma AcceptedSpacing(calls: seq<Timed>, k: nat)
    requires TimeOrdered(calls) && k < |calls| && AcceptedAt(calls, k)
    requires LastAccepted(calls[..k]).Some? && !ZeroStamped(calls[..k])
    ensures calls[k].us - LastAccepted(calls[..k]).value >= MIN_ENCODER_PULSE_MICROS
  {
    PrefixOrdered(calls, k);
    LastPulseTracks(calls[..k]);
    DebouncesIff(calls[..k]);
  }

  /** And exactly the edges that come 10 ms or more after it by the wrapped clock are accepted, as is
      the first edge, and every edge after one that fell where micros() read 0. */
  lemma AcceptedIff(calls: seq<Timed>, k: nat)
    requires TimeOrdered(calls) && k < |calls| && calls[k].call.EncoderPulse?
    ensures AcceptedAt(calls, k) <==>
            match LastAccepted(calls[..k])
            case None => true
            case Some(l) => l % TICKS == 0 || (calls[k].us - l) % TICKS >= 10000
  {
    PrefixOrdered(calls, k);
    LastPulseTracks(calls[..k]);
    match LastAccepted(calls[..k])
    case None =>
    case Some(l) =>
      assert calls[..k] != [] && calls[k - 1].us <= calls[k].us;
      SinceIsElapsed(l, calls[k].us);
  }

  // ---------- the window average ----------

  /** Accepted edges since the last window boundary. */
  function EdgesInWindow(calls: seq<Timed>): nat {
    if calls == [] then 0
    else if calls[|calls| - 1].call.EstimateAverage? && calls[|calls| - 1].call.timespan > 0 then 0
    else EdgesInWindow(calls[..|calls| - 1]) + if AcceptedAt(calls, |calls| - 1) then 1 else 0
  }

  lemma NextCount(x: nat)
    ensures (x % TICKS + 1) % TICKS == (x + 1) % TICKS
  {
  }

  lemma CountStep(w: State, call: Call, us: nat, edges: nat)
    requires w.est.encCount == edges % TICKS
    ensures Do(w, call, us).est.encCount ==
            if call.EstimateAverage? && call.timespan > 0 then 0
            else if call.EncoderPulse? && Accepts(w.est, us) then (edges + 1) % TICKS else edges % TICKS
  {
    NextCount(edges);
    if call.UpdateRpm? {
      SampleKeepsCount(w.est, us);
    }
  }

  lemma SampleKeepsCount(e: Estimator, us: nat)
    ensures Sample(e, us).encCount == e.encCount
  {
  }

  lemma {:induction false} CountTracks(calls: seq<Timed>)
    ensures Run(FRESH, calls).est.encCount == EdgesInWindow(calls) % TICKS
  {
    if calls != [] {
      var n := |calls| - 1;
      CountTracks(calls[..n]);
      CountStep(Run(FRESH, calls[..n]), calls[n].call, calls[n].us, EdgesInWindow(calls[..n]));
    }
  }

  lemma SmallCount(calls: seq<Timed>, n: nat)
    requires n == EdgesInWindow(calls) < TICKS
    ensures Run(FRESH, calls).est.encCount == n
  {
    CountTracks(calls);
  }

  /** The average of a window of t milliseconds is 3000 RPM for each of its n accepted edges, divided
      by t: one edge is a twentieth of a turn. */
  lemma WindowAverageIsExact(calls: seq<Timed>, t: nat, us: nat, n: nat)
    requires t > 0 && n == EdgesInWindow(calls) < TICKS
    ensures Do(Run(FRESH, calls), EstimateAverage(t), us).est.rpmAvr == 3000.0 * n as real / t as real
  {
    SmallCount(calls, n);
    AverageIs(Run(FRESH, calls).est, t, n);
  }

  lemma AverageIs(e: Estimator, t: nat, n: nat)
    requires t > 0 && e.encCount == n
    ensures Average(e, t).rpmAvr == 3000.0 * n as real / t as real
  {
    assert n as real / 20.0 * 60000.0 == 3000.0 * n as real;
  }

  /** Accepted edges among the calls from index a on. */
  function AcceptedCount(calls: seq<Timed>, a: nat): nat {
    if |calls| <= a then 0
    else AcceptedCount(calls[..|calls| - 1], a) + if AcceptedAt(calls, |calls| - 1) then 1 else 0
  }

  /** Those of them that follow, in the window, an edge accepted where micros() read 0. */
  function UndebouncedCount(calls: seq<Timed>, a: nat): nat {
    if |calls| <= a then 0
    else
      var init := calls[..|calls| - 1];
      UndebouncedCount(init, a)
      + if AcceptedAt(calls, |calls| - 1) && AcceptedCount(init, a) >= 1 && ZeroStamped(init) then 1 else 0
  }

  /** Within any window of W microseconds at most W/10000 + 1 edges are accepted, besides those that
      follow an edge of the same window accepted where micros() read 0. */
  lemma {:induction false} WindowCount(calls: seq<Timed>, a: nat)
    requires TimeOrdered(calls) && a < |calls|
    ensures AcceptedCount(calls, a) - UndebouncedCount(calls, a)
            <= (calls[|calls| - 1].us - calls[a].us) / MIN_ENCODER_PULSE_MICROS + 1
    ensures AcceptedCount(calls, a) >= 1 ==>
              LastAccepted(calls).Some?
              && LastAccepted(calls).value >=
                 calls[a].us + MIN_ENCODER_PULSE_MICROS * (AcceptedCount(calls, a) - UndebouncedCount(calls, a) - 1)
  {
    var n := |calls| - 1;
    LastPulseTracks(calls);
    if a == n {
      assert AcceptedCount(calls[..n], a) == 0 == UndebouncedCount(calls[..n], a);
    } else {
      PrefixOrdered(calls, n);
      WindowCount(calls[..n], a);
      if AcceptedAt(calls, n) && AcceptedCount(calls[..n], a) >= 1 {
        LastPulseTracks(calls[..n]);
        if !ZeroStamped(calls[..n]) {
          AcceptedSpacing(calls, n);
        }
      }
    }
  }

  // ---------- range ----------

  /** True time of the last window boundary. */
  function LastAverage(calls: seq<Timed>): nat {
    if calls == [] then 0
    else if calls[|calls| - 1].call.EstimateAverage? then calls[|calls| - 1].us
    else LastAverage(calls[..|calls| - 1])
  }

  /** Every averaging window is given its own length in milliseconds, and is at least 100 ms long. */
  predicate WindowsTimed(calls: seq<Timed>) {
    forall i :: 0 <= i < |calls| && calls[i].call.EstimateAverage? ==>
      calls[i].call.timespan >= 100
      && calls[i].call.timespan == Ms(calls[i].us) - Ms(LastAverage(calls[..i]))
  }

  /** The estimates, with every window average at most `top`. */
  predicate InRange(e: Estimator, top: real) {
    && (e.rpmIns == -1.0 || 3.0 <= e.rpmIns <= 300.0)
    && 0.0 <= e.rpmAvr <= top
    && 0.0 <= e.rpmEst <= top
    && (e.pulseInterval == 0 || MIN_ENCODER_PULSE_MICROS <= e.pulseInterval < TICKS)
  }

  lemma PulseKeepsRange(e: Estimator, us: nat, top: real)
    requires InRange(e, top)
    ensures InRange(Pulse(e, us), top)
  {
  }

  lemma InstantRange(p: nat)
    requires MIN_ENCODER_PULSE_MICROS <= p <= INS_RPM_TIMEOUT
    ensures 3.0 <= PeriodRpm(p) <= 300.0
  {
    PeriodRpmDecreases(MIN_ENCODER_PULSE_MICROS, p);
    PeriodRpmDecreases(p, INS_RPM_TIMEOUT);
    assert PeriodRpm(MIN_ENCODER_PULSE_MICROS) == 300.0;
    assert PeriodRpm(INS_RPM_TIMEOUT) == 3.0;
  }

  lemma SampleKeepsRange(e: Estimator, us: nat, top: real)
    requires InRange(e, top) && top >= 300.0
    ensures InRange(Sample(e, us), top)
  {
    if MIN_ENCODER_PULSE_MICROS <= e.pulseInterval <= INS_RPM_TIMEOUT {
      InstantRange(e.pulseInterval);
    }
    var elapsed := Since(Micros(us), e.lastPulse);
    if elapsed > NO_PULSE_DECAY_START_US {
      PeriodRpmDecreases(elapsed, elapsed);
    }
  }

  /** Every window average of the run is at most `top`. */
  predicate AveragesBelow(calls: seq<Timed>, top: real) {
    forall i :: 0 <= i < |calls| && calls[i].call.EstimateAverage? ==>
      0.0 <= Average(Run(FRESH, calls[..i]).est, calls[i].call.timespan).rpmAvr <= top
  }

  lemma AveragesPrefix(calls: seq<Timed>, n: nat, top: real)
    requires AveragesBelow(calls, top) && n <= |calls|
    ensures AveragesBelow(calls[..n], top)
  {
    forall i | 0 <= i < n && calls[..n][i].call.EstimateAverage?
      ensures 0.0 <= Average(Run(FRESH, calls[..n][..i]).est, calls[..n][i].call.timespan).rpmAvr <= top
    {
      assert calls[..n][..i] == calls[..i];
    }
  }

  lemma {:induction false} EstimateBelowAverages(calls: seq<Timed>, top: real)
    requires AveragesBelow(calls, top) && top >= 300.0
    ensures InRange(Run(FRESH, calls).est, top)
  {
    if calls != [] {
      var n := |calls| - 1;
      AveragesPrefix(calls, n, top);
      EstimateBelowAverages(calls[..n], top);
      var e := Run(FRESH, calls[..n]).est;
      PulseKeepsRange(e, calls[n].us, top);
      SampleKeepsRange(e, calls[n].us, top);
    }
  }

  // ---------- the count of the open window ----------

  /** Edges of the open window that follow one of it accepted where micros() read 0. */
  function Undebounced(calls: seq<Timed>): nat {
    if calls == [] then 0
    else
      var init, last := calls[..|calls| - 1], calls[|calls| - 1];
      if last.call.EstimateAverage? then 0
      else Undebounced(init)
           + if AcceptedAt(calls, |calls| - 1) && Run(FRESH, init).est.encCount >= 1 && ZeroStamped(init) then 1 else 0
  }

  /** The count is bounded by the true length of the window. */
  predicate CountBounded(calls: seq<Timed>) {
    var count := Run(FRESH, calls).est.encCount;
    count >= 1 ==>
      LastAccepted(calls).Some?
      && LastAccepted(calls).value >=
         LastAverage(calls) + MIN_ENCODER_PULSE_MICROS * (count - 1 - Undebounced(calls))
  }

  lemma LastAverageInPast(calls: seq<Timed>)
    requires TimeOrdered(calls) && calls != []
    ensures LastAverage(calls) <= calls[|calls| - 1].us
  {
    if !calls[|calls| - 1].call.EstimateAverage? && |calls| > 1 {
      LastAverageInPast(calls[..|calls| - 1]);
    }
  }

  /** No window is empty of time. */
  predicate WindowsNonempty(calls: seq<Timed>) {
    forall i :: 0 <= i < |calls| && calls[i].call.EstimateAverage? ==> calls[i].call.timespan > 0
  }

  lemma EdgeArithmetic(a: nat, l: nat, us: nat, count: nat, count': nat, extra: nat, extra': nat)
    requires a <= us && count' <= count + 1
    requires count >= 1 ==> l >= a + MIN_ENCODER_PULSE_MICROS * (count - 1 - extra)
    requires count >= 1 ==>
               if extra' == extra then us - l >= MIN_ENCODER_PULSE_MICROS else us >= l && extra' == extra + 1
    ensures us >= a + MIN_ENCODER_PULSE_MICROS * (count' - 1 - extra')
  {
  }

  lemma CountAfterEdge(e: Estimator, us: nat)
    ensures Pulse(e, us).encCount <= e.encCount + 1
  {
  }

  lemma EdgeCounts(calls: seq<Timed>)
    requires TimeOrdered(calls) && calls != [] && AcceptedAt(calls, |calls| - 1)
    requires CountBounded(calls[..|calls| - 1])
    ensures CountBounded(calls)
  {
    var n := |calls| - 1;
    var init := calls[..n];
    var e := Run(FRESH, init).est;
    LastAverageInPast(calls);
    PrefixOrdered(calls, n);
    LastPulseTracks(init);
    CountAfterEdge(e, calls[n].us);
    if e.encCount >= 1 && !ZeroStamped(init) {
      AcceptedSpacing(calls, n);
    }
    EdgeArithmetic(LastAverage(calls), if e.encCount >= 1 then LastAccepted(init).value else 0, calls[n].us,
                   e.encCount, Run(FRESH, calls).est.encCount, Undebounced(init), Undebounced(calls));
  }

  lemma {:induction false} CountsAreBounded(calls: seq<Timed>)
    requires TimeOrdered(calls) && WindowsNonempty(calls)
    ensures CountBounded(calls)
  {
    if calls != [] {
      var n := |calls| - 1;
      PrefixOrdered(calls, n);
      CountsAreBounded(calls[..n]);
      if AcceptedAt(calls, n) {
        EdgeCounts(calls);
      }
    }
  }

  /** The window that closes at index k, of the given length in milliseconds. */
  lemma WindowLength(calls: seq<Timed>, k: nat)
    requires TimeOrdered(calls) && WindowsTimed(calls) && k < |calls| && calls[k].call.EstimateAverage?
    ensures 10 * (Run(FRESH, calls[..k]).est.encCount - Undebounced(calls[..k])) <= calls[k].call.timespan + 10
  {
    PrefixOrdered(calls, k);
    WindowsPrefix(calls, k);
    CountsAreBounded(calls[..k]);
    LastPulseTracks(calls[..k]);
  }

  lemma Quotient(x: real, t: real, top: real)
    requires t > 0.0 && 0.0 <= x <= top * t
    ensures 0.0 <= x / t <= top
  {
    var q := x / t;
    assert q * t == x;
  }

  /** Edges per minute from the count of one window. */
  lemma AverageAtMost(e: Estimator, timespan: nat, top: nat)
    requires timespan > 0 && 3000 * e.encCount <= top * timespan
    ensures 0.0 <= Average(e, timespan).rpmAvr <= top as real
  {
    var x := e.encCount as real / 20.0 * 60000.0;
    assert x == 3000.0 * e.encCount as real == (3000 * e.encCount) as real;
    assert (top * timespan) as real == top as real * timespan as real;
    Quotient(x, timespan as real, top as real);
  }

  /** No window closes with an edge in it that follows another one of it accepted where micros() read 0. */
  predicate WindowsDebounced(calls: seq<Timed>) {
    forall i :: 0 <= i < |calls| && calls[i].call.EstimateAverage? ==> Undebounced(calls[..i]) == 0
  }

  /** Over every run whose windows are debounced the estimate lies in 0..330 RPM and the instant
      estimate is -1 or in 3..300. */
  lemma EstimateStaysInRange(calls: seq<Timed>)
    requires TimeOrdered(calls) && WindowsTimed(calls) && WindowsDebounced(calls)
    ensures InRange(Run(FRESH, calls).est, 330.0)
  {
    forall i | 0 <= i < |calls| && calls[i].call.EstimateAverage?
      ensures 0.0 <= Average(Run(FRESH, calls[..i]).est, calls[i].call.timespan).rpmAvr <= 330.0
    {
      WindowLength(calls, i);
      AverageAtMost(Run(FRESH, calls[..i]).est, calls[i].call.timespan, 330);
    }
    EstimateBelowAverages(calls, 330.0);
  }

  /** No edge of the run falls where micros() reads 0. */
  predicate NoPulseAtZero(calls: seq<Timed>) {
    forall i :: 0 <= i < |calls| && calls[i].call.EncoderPulse? ==> Micros(calls[i].us) != 0
  }

  lemma {:induction false} NoneUndebounced(calls: seq<Timed>)
    requires NoPulseAtZero(calls)
    ensures Undebounced(calls) == 0 && !ZeroStamped(calls)
  {
    if calls != [] {
      NoneUndebounced(calls[..|calls| - 1]);
    }
  }

  /** In particular every run without an edge where micros() reads 0 has debounced windows. */
  lemma WindowsDebouncedWithoutZero(calls: seq<Timed>)
    requires NoPulseAtZero(calls)
    ensures WindowsDebounced(calls)
  {
    forall i | 0 <= i < |calls| && calls[i].call.EstimateAverage? ensures Undebounced(calls[..i]) == 0 {
      NoneUndebounced(calls[..i]);
    }
  }

  lemma WindowsPrefix(calls: seq<Timed>, n: nat)
    requires WindowsTimed(calls) && n <= |calls|
    ensures WindowsTimed(calls[..n]) && WindowsNonempty(calls[..n])
  {
    forall i | 0 <= i < n && calls[..n][i].call.EstimateAverage?
      ensures calls[..n][i].call.timespan >= 100
      ensures calls[..n][i].call.timespan == Ms(calls[..n][i].us) - Ms(LastAverage(calls[..n][..i]))
    {
      assert calls[..n][..i] == calls[..i];
    }
  }

  // ---------- edges at micros() == 0 ----------

  /** No two edges of the wheel fall in the same microsecond. */
  predicate EdgesDistinct(calls: seq<Timed>) {
    forall i, j :: 0 <= i < j < |calls| && calls[i].call.EncoderPulse? && calls[j].call.EncoderPulse? ==>
      calls[i].us != calls[j].us
  }

  /** Instants before us at which micros() reads 0. */
  function Zeros(us: nat): nat {
    (us + TICKS - 1) / TICKS
  }

  lemma ZerosGrow(t: nat, us: nat)
    requires t <= us
    ensures Zeros(t) <= Zeros(us)
    ensures t < us && Micros(t) == 0 ==> Zeros(t) + 1 <= Zeros(us)
    ensures Zeros(us) - Zeros(t) <= (us - t) / TICKS + 1
  {
  }

  /** The open window holds at most one undebounced edge for each reading of 0 in it. */
  predicate ZerosBound(calls: seq<Timed>) {
    if LastAccepted(calls).Some? && LastAccepted(calls).value >= LastAverage(calls)
    then Undebounced(calls) + Zeros(LastAverage(calls)) <= Zeros(LastAccepted(calls).value)
    else Undebounced(calls) == 0
  }

  lemma {:induction false} LastAcceptedIsEdge(calls: seq<Timed>)
    requires LastAccepted(calls).Some?
    ensures exists i :: 0 <= i < |calls| && calls[i].call.EncoderPulse? && calls[i].us == LastAccepted(calls).value
  {
    var n := |calls| - 1;
    if AcceptedAt(calls, n) {
      assert calls[n].us == LastAccepted(calls).value;
    } else {
      LastAcceptedIsEdge(calls[..n]);
    }
  }

  lemma EdgesIncrease(calls: seq<Timed>)
    requires TimeOrdered(calls) && EdgesDistinct(calls) && calls != [] && calls[|calls| - 1].call.EncoderPulse?
    requires LastAccepted(calls[..|calls| - 1]).Some?
    ensures LastAccepted(calls[..|calls| - 1]).value < calls[|calls| - 1].us
  {
    LastAcceptedIsEdge(calls[..|calls| - 1]);
  }

  lemma ZerosStep(calls: seq<Timed>)
    requires TimeOrdered(calls) && EdgesDistinct(calls) && calls != [] && AcceptedAt(calls, |calls| - 1)
    requires ZerosBound(calls[..|calls| - 1]) && CountBounded(calls[..|calls| - 1])
    requires Run(FRESH, calls[..|calls| - 1]).est.encCount >= 1 ==>
               LastAccepted(calls[..|calls| - 1]).value >= LastAverage(calls[..|calls| - 1])
    ensures ZerosBound(calls)
  {
    var n := |calls| - 1;
    LastAverageInPast(calls);
    ZerosGrow(LastAverage(calls), calls[n].us);
    if LastAccepted(calls[..n]).Some? {
      EdgesIncrease(calls);
      ZerosGrow(LastAccepted(calls[..n]).value, calls[n].us);
    }
  }

  /** A counted edge lies in the open window. */
  predicate CountedInWindow(calls: seq<Timed>) {
    Run(FRESH, calls).est.encCount >= 1 ==>
      LastAccepted(calls).Some? && LastAccepted(calls).value >= LastAverage(calls)
  }

  lemma {:induction false} CountsAreInWindow(calls: seq<Timed>)
    requires TimeOrdered(calls) && WindowsNonempty(calls)
    ensures CountedInWindow(calls)
  {
    if calls != [] {
      PrefixOrdered(calls, |calls| - 1);
      CountsAreInWindow(calls[..|calls| - 1]);
      LastAverageInPast(calls);
    }
  }

  lemma {:induction false} ZerosAreBounded(calls: seq<Timed>)
    requires TimeOrdered(calls) && WindowsNonempty(calls) && EdgesDistinct(calls)
    ensures ZerosBound(calls)
  {
    if calls != [] {
      var n := |calls| - 1;
      PrefixOrdered(calls, n);
      ZerosAreBounded(calls[..n]);
      CountsAreInWindow(calls[..n]);
      CountsAreBounded(calls[..n]);
      if AcceptedAt(calls, n) {
        ZerosStep(calls);
      } else if calls[n].call.EstimateAverage? {
        ClosedWindow(calls);
      }
    }
  }

  lemma ClosedWindow(calls: seq<Timed>)
    requires TimeOrdered(calls) && calls != [] && calls[|calls| - 1].call.EstimateAverage?
    ensures ZerosBound(calls)
  {
    if LastAccepted(calls).Some? && LastAccepted(calls).value >= LastAverage(calls) {
      ZerosGrow(LastAverage(calls), LastAccepted(calls).value);
    }
  }

  lemma FewUndebounced(calls: seq<Timed>, k: nat)
    requires TimeOrdered(calls) && WindowsTimed(calls) && EdgesDistinct(calls)
    requires k < |calls| && calls[k].call.EstimateAverage?
    ensures Undebounced(calls[..k]) <= calls[k].call.timespan / 4000000 + 1
  {
    PrefixOrdered(calls, k);
    WindowsPrefix(calls, k);
    ZerosAreBounded(calls[..k]);
    LastPulseTracks(calls[..k]);
    if LastAccepted(calls[..k]).Some? && LastAccepted(calls[..k]).value >= LastAverage(calls[..k]) {
      ZerosGrow(LastAverage(calls[..k]), LastAccepted(calls[..k]).value);
      WrapsInWindow(LastAverage(calls[..k]), LastAccepted(calls[..k]).value, calls[k].us, calls[k].call.timespan);
    }
  }

  lemma WrapsInWindow(from: nat, t: nat, to: nat, timespan: nat)
    requires from <= t <= to && timespan == Ms(to) - Ms(from) && timespan >= 100
    ensures (t - from) / TICKS <= timespan / 4000000
  {
    assert t - from <= 1000 * timespan + 999;
    assert (t - from) / TICKS <= (t - from) / 4000010000;
    assert 1000 * timespan + 999 <= 1000 * timespan + 10 * timespan;
  }

  lemma FewEdges(count: nat, extra: nat, timespan: nat)
    requires timespan >= 100 && 10 * (count - extra) <= timespan + 10 && extra <= timespan / 4000000 + 1
    ensures 3000 * count <= 361 * timespan
  {
  }

  /** Whatever edges fall where micros() reads 0, the estimate lies in 0..361 RPM over every run. */
  lemma EstimateStaysNearRange(calls: seq<Timed>)
    requires TimeOrdered(calls) && WindowsTimed(calls) && EdgesDistinct(calls)
    ensures InRange(Run(FRESH, calls).est, 361.0)
  {
    forall i | 0 <= i < |calls| && calls[i].call.EstimateAverage?
      ensures 0.0 <= Average(Run(FRESH, calls[..i]).est, calls[i].call.timespan).rpmAvr <= 361.0
    {
      WindowLength(calls, i);
      FewUndebounced(calls, i);
      FewEdges(Run(FRESH, calls[..i]).est.encCount, Undebounced(calls[..i]), calls[i].call.timespan);
      AverageAtMost(Run(FRESH, calls[..i]).est, calls[i].call.timespan, 361);
    }
    EstimateBelowAverages(calls, 361.0);
  }

  // ---------- steady rotation ----------

  /** True time of the last pulse, when pulses come every p microseconds after l. */
  function LastOf(calls: seq<Timed>, l: nat, p: nat): nat {
    if calls == [] then l
    else LastOf(calls[..|calls| - 1], l, p) + if calls[|calls| - 1].call.EncoderPulse? then p else 0
  }

  /** Pulses exactly every p microseconds after l; all other calls at any instants in between. */
  predicate SteadyRotation(calls: seq<Timed>, l: nat, p: nat) {
    calls == [] ||
    (var init, last := calls[..|calls| - 1], calls[|calls| - 1];
     var latest := LastOf(init, l, p);
     && SteadyRotation(init, l, p)
     && latest <= last.us <= latest + p
     && (last.call.EncoderPulse? ==> last.us == latest + p))
  }

  /** The estimator has measured the period p, the last pulse being at true time l. */
  predicate Measured(e: Estimator, l: nat, p: nat) {
    p > 0 && e.pulseInterval == p && e.lastPulse == Micros(l) && e.rpmIns == PeriodRpm(p)
  }

  lemma SteadySample(e: Estimator, l: nat, p: nat, us: nat)
    requires MIN_ENCODER_PULSE_MICROS <= p <= INS_RPM_TIMEOUT && Measured(e, l, p) && l <= us <= l + p
    ensures Measured(Sample(e, us), l, p)
    ensures Sample(e, us).rpmEst == if Micros(l) == 0 then e.rpmAvr else PeriodRpm(p)
  {
    SinceIsElapsed(l, us);
    InstantRange(p);
    if us - l > NO_PULSE_DECAY_START_US {
      PeriodRpmDecreases(us - l, p);
    }
  }

  lemma SteadyPulse(e: Estimator, l: nat, p: nat)
    requires MIN_ENCODER_PULSE_MICROS <= p <= INS_RPM_TIMEOUT && Measured(e, l, p)
    ensures Measured(Pulse(e, l + p), l + p, p)
  {
    SinceIsElapsed(l, l + p);
  }

  /** Two edges p apart, neither where micros() reads 0, and a sample before the next reach it from any
      state in which the first is accepted and no edge has been taken for processed. */
  lemma MeasuredAfterTwoEdges(w: State, l: nat, p: nat, us: nat)
    requires MIN_ENCODER_PULSE_MICROS <= p <= INS_RPM_TIMEOUT && Accepts(w.est, l)
    requires Micros(l) != 0 && Micros(l + p) != 0 && Micros(l + p) != w.est.lastProcessed && l + p <= us <= l + 2 * p
    ensures Measured(Do(Do(Do(w, EncoderPulse, l), EncoderPulse, l + p), UpdateRpm, us).est, l + p, p)
  {
    SinceIsElapsed(l, l + p);
    SinceIsElapsed(l + p, us);
    TimeoutCoversPeriod(p);
  }

  /** An accepted edge that closes an interval of more than a second gives no instant estimate: the next
      sample is the window average. */
  lemma SlowEdgeIsAveraged(w: State, l: nat, us: nat)
    requires Accepts(w.est, l) && w.est.lastPulse != 0 && Since(Micros(l), w.est.lastPulse) > 1000000
    requires Micros(l) != 0 && Micros(l) != w.est.lastProcessed
    ensures Do(Do(w, EncoderPulse, l), UpdateRpm, us).est.rpmEst == w.est.rpmAvr
  {
  }

  lemma {:induction false} StaysMeasured(w: State, calls: seq<Timed>, l: nat, p: nat)
    requires MIN_ENCODER_PULSE_MICROS <= p <= INS_RPM_TIMEOUT
    requires Measured(w.est, l, p) && SteadyRotation(calls, l, p)
    ensures Measured(Run(w, calls).est, LastOf(calls, l, p), p)
  {
    if calls != [] {
      var init, last := calls[..|calls| - 1], calls[|calls| - 1];
      StaysMeasured(w, init, l, p);
      var e, latest := Run(w, init).est, LastOf(init, l, p);
      match last.call
      case EncoderPulse => SteadyPulse(e, latest, p);
      case UpdateRpm => SteadySample(e, latest, p, last.us);
      case _ =>
    }
  }

  /** On steady rotation, once the period has been measured, every sampled estimate is exactly
      PeriodRpm(p), which is 3000000/p.  The exception is a last pulse at which micros() read 0:
      the estimate is then the window average. */
  lemma SteadyRotationIsExact(w: State, calls: seq<Timed>, l: nat, p: nat, us: nat)
    requires MIN_ENCODER_PULSE_MICROS <= p <= INS_RPM_TIMEOUT && Measured(w.est, l, p)
    requires SteadyRotation(calls, l, p) && LastOf(calls, l, p) <= us <= LastOf(calls, l, p) + p
    ensures Do(Run(w, calls), UpdateRpm, us).est.rpmEst ==
            if Micros(LastOf(calls, l, p)) == 0 then Run(w, calls).est.rpmAvr else PeriodRpm(p)
  {
    StaysMeasured(w, calls, l, p);
    SteadySample(Run(w, calls).est, LastOf(calls, l, p), p, us);
  }

  /** The timeout computation does not overflow, covers the whole period, and is at most 1 s. */
  lemma TimeoutCoversPeriod(p: nat)
    requires p <= INS_RPM_TIMEOUT
    ensures p * NO_PULSE_TIMEOUT_PERIODS < TICKS
    ensures p <= AdaptiveTimeout(p) <= INS_RPM_TIMEOUT
  {
  }
}
