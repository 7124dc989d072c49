/** The line-tracing automaton: updateTracePolicy. */
module LineTracer {
  import opened Clock

  /** The three line sensors, left to right: the bits 100, 010 and 001 of the source. */
  datatype Sensors = Sensors(left: bool, center: bool, right: bool)

  datatype Policy = Straight | TurnLeft | TurnRight | LeftSoft | RightSoft

  const WAIT_FOR_SHARP_TURN := 600

  datatype Tracer = Tracer(policy: Policy, lastIOL: Sensors, sinceSoftTurn: nat)

  const START := Tracer(Straight, Sensors(false, false, false), 0)

  /** The policy after one sample, when the sensors have not changed. */
  function Held(t: Tracer, cmillis: nat): Policy {
    if t.lastIOL.center || Since(cmillis, t.sinceSoftTurn) < WAIT_FOR_SHARP_TURN then t.policy
    else if t.policy == LeftSoft then TurnLeft
    else if t.policy == RightSoft then TurnRight
    else t.policy
  }

  /** The policy after the sensors changed to s. */
  function Changed(p: Policy, s: Sensors): Policy {
    match p
    case Straight => if s.left then LeftSoft else if s.right then RightSoft else p
    case TurnLeft | LeftSoft => if s.center then Straight else if s.right then RightSoft else p
    case TurnRight | RightSoft => if s.left then LeftSoft else if s.center then Straight else p
  }

  predicate Soft(p: Policy) {
    p == LeftSoft || p == RightSoft
  }

  function Update(t: Tracer, s: Sensors, cmillis: nat): Tracer {
    if s == t.lastIOL then t.(policy := Held(t, cmillis))
    else
      var p := Changed(t.policy, s);
      Tracer(p, s, if Soft(p) && p != t.policy then cmillis else t.sinceSoftTurn)
  }

  class TracePolicy {
    var tracePolicy: Policy
    var lastIOL: Sensors
    var sinceSoftTurn: nat

    function Now(): Tracer
      reads this
    {
      Tracer(tracePolicy, lastIOL, sinceSoftTurn)
    }

    constructor ()
      ensures Now() == START
    {
      tracePolicy, lastIOL, sinceSoftTurn := Straight, Sensors(false, false, false), 0;
    }

    method UpdateTracePolicy(state: Sensors, cmillis: nat)
      modifies this
      ensures Now() == Update(old(Now()), state, cmillis)
    {
      var irChanged := state != lastIOL;
      if !irChanged {
        if !state.center {
          match tracePolicy {
            case LeftSoft =>
              if Since(cmillis, sinceSoftTurn) >= WAIT_FOR_SHARP_TURN {
                tracePolicy := TurnLeft;
              }
            case RightSoft =>
              if Since(cmillis, sinceSoftTurn) >= WAIT_FOR_SHARP_TURN {
                tracePolicy := TurnRight;
              }
            case _ =>
          }
        }
      } else {
        match tracePolicy {
          case Straight =>
            if state.left {
              tracePolicy := LeftSoft;
              sinceSoftTurn := cmillis;
            } else if state.right {
              tracePolicy := RightSoft;
              sinceSoftTurn := cmillis;
            }
          case TurnLeft | LeftSoft =>
            if state.center {
              tracePolicy := Straight;
            } else if state.right {
              tracePolicy := RightSoft;
              sinceSoftTurn := cmillis;
            }
          case TurnRight | RightSoft =>
            if state.left {
              tracePolicy := LeftSoft;
              sinceSoftTurn := cmillis;
            } else if state.center {
              tracePolicy := Straight;
            }
        }
        lastIOL := state;
      }
    }
  }

  // ---------- runs ----------

  /** One sample at a true millisecond; the automaton sees the wrapped clock. */
  datatype Sample = Sample(ms: nat, sensors: Sensors)

  function Run(samples: seq<Sample>): Tracer {
    if samples == [] then START
    else
      var last := samples[|samples| - 1];
      Update(Run(samples[..|samples| - 1]), last.sensors, last.ms % TICKS)
  }

  function PolicyAfter(samples: seq<Sample>, n: nat): Policy
    requires n <= |samples|
  {
    Run(samples[..n]).policy
  }

  predicate TimeOrdered(samples: seq<Sample>) {
    forall i, j :: 0 <= i < j < |samples| ==> samples[i].ms <= samples[j].ms
  }

  /** Sample j entered the soft turn p, which has been held without interruption up to sample n. */
  ghost predicate SoftSince(samples: seq<Sample>, p: Policy, j: nat, n: nat)
    requires n <= |samples|
  {
    && j < n && PolicyAfter(samples, j) != p
    && forall k :: j < k <= n ==> PolicyAfter(samples, k) == p
  }

  lemma RunStep(samples: seq<Sample>, n: nat)
    requires n < |samples|
    ensures Run(samples[..n + 1]) == Update(Run(samples[..n]), samples[n].sensors, samples[n].ms % TICKS)
  {
    assert samples[..n + 1][..n] == samples[..n];
  }

  lemma {:induction false} SoftTurnStarted(samples: seq<Sample>, n: nat) returns (j: nat)
    requires n <= |samples| && Soft(PolicyAfter(samples, n))
    ensures SoftSince(samples, PolicyAfter(samples, n), j, n)
    ensures Run(samples[..n]).sinceSoftTurn == samples[j].ms % TICKS
  {
    RunStep(samples, n - 1);
    if PolicyAfter(samples, n - 1) == PolicyAfter(samples, n) {
      j := SoftTurnStarted(samples, n - 1);
    } else {
      j := n - 1;
    }
  }

  lemma LastSensors(samples: seq<Sample>, n: nat)
    requires 1 <= n <= |samples|
    ensures Run(samples[..n]).lastIOL == samples[n - 1].sensors
  {
    RunStep(samples, n - 1);
  }

  function SoftOf(p: Policy): Policy {
    if p == TurnLeft then LeftSoft else RightSoft
  }

  /** Sample n turns sharply. */
  predicate EntersSharp(samples: seq<Sample>, n: nat)
    requires n < |samples|
  {
    var p := PolicyAfter(samples, n + 1);
    (p == TurnLeft || p == TurnRight) && PolicyAfter(samples, n) != p
  }

  /** A sharp turn is entered only after the soft turn of the same direction was held without
      interruption for at least 600 counts of the unwrapped millisecond clock, across its wraps,
      and only on the second of two equal consecutive samples with the center sensor off. */
  lemma SharpTurnWasHeld(samples: seq<Sample>, n: nat)
    requires TimeOrdered(samples) && n < |samples| && EntersSharp(samples, n)
    ensures n >= 1 && samples[n].sensors == samples[n - 1].sensors && !samples[n].sensors.center
    ensures exists j: nat :: SoftSince(samples, SoftOf(PolicyAfter(samples, n + 1)), j, n)
                             && samples[n].ms - samples[j].ms >= WAIT_FOR_SHARP_TURN
  {
    RunStep(samples, n);
    assert samples[..0] == [];
    LastSensors(samples, n);
    var j := SoftTurnStarted(samples, n);
    SinceIsElapsed(samples[j].ms, samples[n].ms);
  }

  /** Conversely the automaton does turn sharply: on such a sample, once the wrapped clock shows
      600 ms since the soft turn began. */
  lemma SharpTurnIsTaken(samples: seq<Sample>, n: nat)
    requires 1 <= n < |samples| && Soft(PolicyAfter(samples, n))
    requires samples[n].sensors == samples[n - 1].sensors && !samples[n].sensors.center
    requires Since(samples[n].ms % TICKS, Run(samples[..n]).sinceSoftTurn) >= WAIT_FOR_SHARP_TURN
    ensures EntersSharp(samples, n) && SoftOf(PolicyAfter(samples, n + 1)) == PolicyAfter(samples, n)
  {
    RunStep(samples, n);
    LastSensors(samples, n);
  }

  // ---------- which way it turns ----------

  predicate Leftward(p: Policy) {
    p == TurnLeft || p == LeftSoft
  }

  predicate Rightward(p: Policy) {
    p == TurnRight || p == RightSoft
  }

  predicate SameTurn(p: Policy, q: Policy) {
    (Leftward(p) && Leftward(q)) || (Rightward(p) && Rightward(q))
  }

  predicate Opposite(p: Policy, q: Policy) {
    (Leftward(p) && Rightward(q)) || (Rightward(p) && Leftward(q))
  }

  function SoftSide(p: Policy): Policy {
    if Leftward(p) then LeftSoft else RightSoft
  }

  /** A turn in force after sample n that was not before is a soft one. */
  lemma TurnsBeginSoft(samples: seq<Sample>, n: nat)
    requires n < |samples| && PolicyAfter(samples, n + 1) != Straight
    requires !SameTurn(PolicyAfter(samples, n), PolicyAfter(samples, n + 1))
    ensures Soft(PolicyAfter(samples, n + 1))
  {
    RunStep(samples, n);
  }

  /** No run goes from a turn to the opposite one but by way of the soft turn of the new direction. */
  lemma {:induction false} NoDirectReversal(samples: seq<Sample>, i: nat, j: nat)
    requires i < j <= |samples| && Opposite(PolicyAfter(samples, i), PolicyAfter(samples, j))
    ensures exists k :: i < k <= j && PolicyAfter(samples, k) == SoftSide(PolicyAfter(samples, j))
    decreases j
  {
    var p, q := PolicyAfter(samples, j - 1), PolicyAfter(samples, j);
    if SameTurn(p, q) {
      NoDirectReversal(samples, i, j - 1);
    } else {
      TurnsBeginSoft(samples, j - 1);
      assert q == SoftSide(q);
    }
  }

  /** The sensor on the side of the turn sees the line. */
  predicate SeesOwnSide(p: Policy, s: Sensors) {
    if Leftward(p) then s.left else s.right
  }

  /** Neither the center sensor nor the one opposite to the turn sees the line. */
  predicate SeesNothingElse(p: Policy, s: Sensors) {
    !s.center && !(if Leftward(p) then s.right else s.left)
  }

  /** The turn p was entered at sample j on the line under its own side, and has been held since,
      every later sample either repeating the one before or showing nothing but that side. */
  ghost predicate TurningSince(samples: seq<Sample>, p: Policy, j: nat, n: nat)
    requires n <= |samples|
  {
    && j < n && SeesOwnSide(p, samples[j].sensors) && !SameTurn(PolicyAfter(samples, j), p)
    && forall k :: j < k < n ==>
         SameTurn(PolicyAfter(samples, k), p)
         && (samples[k].sensors == samples[k - 1].sensors || SeesNothingElse(p, samples[k].sensors))
  }

  lemma TurnStep(t: Tracer, s: Sensors, ms: nat)
    requires var p := Update(t, s, ms).policy; Leftward(p) || Rightward(p)
    ensures var p := Update(t, s, ms).policy;
            if SameTurn(t.policy, p) then s == t.lastIOL || SeesNothingElse(p, s) else SeesOwnSide(p, s)
  {
  }

  lemma TurnContinues(samples: seq<Sample>, p: Policy, q: Policy, j: nat, n: nat)
    requires 1 <= n < |samples| && TurningSince(samples, p, j, n) && p == PolicyAfter(samples, n) && SameTurn(p, q)
    requires samples[n].sensors == samples[n - 1].sensors || SeesNothingElse(q, samples[n].sensors)
    ensures TurningSince(samples, q, j, n + 1)
  {
  }

  /** What sample n does to a turn that is in force after it. */
  lemma TurnAt(samples: seq<Sample>, n: nat, q: Policy)
    requires n < |samples| && q == PolicyAfter(samples, n + 1) != Straight
    ensures if SameTurn(PolicyAfter(samples, n), q)
            then n >= 1 && (samples[n].sensors == samples[n - 1].sensors || SeesNothingElse(q, samples[n].sensors))
            else SeesOwnSide(q, samples[n].sensors)
  {
    assert samples[..0] == [];
    RunStep(samples, n);
    TurnStep(Run(samples[..n]), samples[n].sensors, samples[n].ms % TICKS);
    if n >= 1 {
      LastSensors(samples, n);
    }
  }

  /** The AGV turns towards the line: every turn was entered when the sensor on its own side saw the
      line, and is held only until the center or the opposite sensor sees it. */
  lemma {:induction false} TurnFollowsLine(samples: seq<Sample>, n: nat, q: Policy) returns (j: nat)
    requires n < |samples| && q == PolicyAfter(samples, n + 1) != Straight
    ensures TurningSince(samples, q, j, n + 1)
    decreases n
  {
    var p := PolicyAfter(samples, n);
    TurnAt(samples, n, q);
    if SameTurn(p, q) {
      j := TurnFollowsLine(samples, n - 1, p);
      TurnContinues(samples, p, q, j, n);
    } else {
      j := n;
    }
  }

  // ---------- every sample, by its sensors ----------

  /** What the sensors showed before sample n; nothing before the first. */
  function Before(samples: seq<Sample>, n: nat): Sensors
    requires n < |samples|
  {
    if n == 0 then Sensors(false, false, false) else samples[n - 1].sensors
  }

  lemma BeforeIsLast(samples: seq<Sample>, n: nat)
    requires n < |samples|
    ensures Run(samples[..n]).lastIOL == Before(samples, n)
  {
    if n == 0 {
      assert samples[..0] == [];
    } else {
      LastSensors(samples, n);
    }
  }

  /** In every run, at every sample that shows something new: from straight the AGV turns softly to
      the side that sees the line, the left one first; a turn ends as soon as the center sees it, and
      goes over to the other side as soon as only that side does, or, for a turn to the right, as
      soon as the left sensor does whatever the center shows.  In every other case it goes on as it was. */
  lemma NewSensorsSteer(samples: seq<Sample>, n: nat)
    requires n < |samples| && samples[n].sensors != Before(samples, n)
    ensures var p, q, s := PolicyAfter(samples, n), PolicyAfter(samples, n + 1), samples[n].sensors;
            && (n == 0 ==> p == Straight)
            && (p == Straight && s.left ==> q == LeftSoft)
            && (p == Straight && !s.left && s.right ==> q == RightSoft)
            && (Leftward(p) && s.center ==> q == Straight)
            && (Leftward(p) && !s.center && s.right ==> q == RightSoft)
            && (Rightward(p) && s.left ==> q == LeftSoft)
            && (Rightward(p) && !s.left && s.center ==> q == Straight)
            && (p == Straight && !s.left && !s.right ==> q == p)
            && (Leftward(p) && !s.center && !s.right ==> q == p)
            && (Rightward(p) && !s.left && !s.center ==> q == p)
  {
    assert samples[..0] == [];
    RunStep(samples, n);
    BeforeIsLast(samples, n);
  }

  /** At a sample that shows nothing new the policy stays as it is, but for a soft turn with the center
      off that began, at sample j, 600 ms ago or more by the wrapped clock: that one turns sharply. */
  lemma OldSensorsHold(samples: seq<Sample>, n: nat) returns (j: nat)
    requires TimeOrdered(samples) && n < |samples| && samples[n].sensors == Before(samples, n)
    ensures var p, q := PolicyAfter(samples, n), PolicyAfter(samples, n + 1);
            if !Soft(p) then q == p
            else
              && SoftSince(samples, p, j, n)
              && q == if !samples[n].sensors.center
                         && (samples[n].ms - samples[j].ms) % TICKS >= WAIT_FOR_SHARP_TURN
                      then (if p == LeftSoft then TurnLeft else TurnRight) else p
  {
    RunStep(samples, n);
    BeforeIsLast(samples, n);
    j := 0;
    if Soft(PolicyAfter(samples, n)) {
      j := SoftTurnStarted(samples, n);
      SinceIsElapsed(samples[j].ms, samples[n].ms);
    }
  }
}
