/** The 32-bit clocks of the AGV controller.

    micros() and millis() wrap; elapsed time is always taken as an unsigned 32-bit
    difference.  True time is an unbounded number of microseconds since boot. */
module Clock {
  const TICKS: nat := 0x1_0000_0000

  function Micros(us: nat): nat {
    us % TICKS
  }

  function Millis(us: nat): nat {
    Ms(us) % TICKS
  }

  /** The unwrapped millisecond count. */
  function Ms(us: nat): nat {
    us / 1000
  }

  /** uint32_t subtraction: now - earlier. */
  function Since(now: nat, earlier: nat): nat {
    (now - earlier) % TICKS
  }

  /** A wrapped difference never exceeds the true one, and is exact until a full wrap has passed. */
  lemma SinceIsElapsed(earlier: nat, now: nat)
    requires earlier <= now
    ensures Since(now % TICKS, earlier % TICKS) == (now - earlier) % TICKS <= now - earlier
    ensures now - earlier < TICKS ==> Since(now % TICKS, earlier % TICKS) == now - earlier
  {
    var d := now % TICKS - earlier % TICKS;
    var k := now / TICKS - earlier / TICKS;
    assert now - earlier == d + k * TICKS;
    ModShift(d, k);
  }

  lemma ModShift(d: int, k: int)
    ensures (d + k * TICKS) % TICKS == d % TICKS
  {
  }
}
