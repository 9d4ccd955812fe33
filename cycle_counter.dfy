/** The free-running 32-bit cycle counter (`_getCycleCount`, the `rsr ccount`
    instruction) and the spin-wait the encoders build on it. */
module CycleCounter {
  import opened Words

  /** The counter as the encoders see it. Between two reads at least one
      and at most `maxGap` cycles pass; how many is not known in advance.
      `maxGap` is the model's form of the requirement that the loop runs
      without interrupts: the time between two reads stays bounded. */
  class CycleClock {
    /** The value returned by the latest read. */
    var now: uint32
    /** The longest time, in cycles, that can pass between two reads. */
    const maxGap: nat

    ghost predicate Valid()
    {
      1 <= maxGap < Modulus
    }

    constructor (start: uint32, maxGap: nat)
      requires 1 <= maxGap < Modulus
      ensures Valid()
      ensures now == start && this.maxGap == maxGap
    {
      now := start;
      this.maxGap := maxGap;
    }

    /** `_getCycleCount()`: the next reading, between 1 and `maxGap` cycles
        after the previous one, wrapping around at 2^32. */
    method Read() returns (c: uint32)
      requires Valid()
      modifies this
      ensures c == now
      ensures 1 <= Sub32(now, old(now)) <= maxGap
    {
      var gap: nat :| 1 <= gap <= maxGap;
      now := Add32(now, gap);
      c := now;
    }
  }

  /** The encoders' spin-wait
        `do { c = _getCycleCount(); } while ((c - base) < threshold);`
      It reads the counter at least once and returns the first reading whose
      wrapped distance from `base` is at least `threshold`. */
  method WaitUntil(clock: CycleClock, base: uint32, threshold: nat) returns (c: uint32)
    requires clock.Valid()
    requires threshold + clock.maxGap < Modulus
    modifies clock
    ensures c == clock.now
    ensures Sub32(c, base) >= threshold
    // Waiting from at most the threshold overshoots it by at most one gap.
    ensures Sub32(old(clock.now), base) <= threshold ==> Sub32(c, base) <= threshold + clock.maxGap
    // A threshold already passed (and not about to wrap) is left within one read gap.
    ensures threshold <= Sub32(old(clock.now), base) && Sub32(old(clock.now), base) + clock.maxGap < Modulus
            ==> 1 <= Sub32(c, old(clock.now)) <= clock.maxGap
  {
    ghost var before := clock.now;
    c := clock.Read();
    SubChain(base, before, c);
    ghost var first := c;
    while Sub32(c, base) < threshold
      invariant c == clock.now && clock.Valid()
      invariant Sub32(before, base) <= threshold ==> Sub32(c, base) <= threshold + clock.maxGap
      invariant threshold <= Sub32(before, base) && Sub32(before, base) + clock.maxGap < Modulus
                ==> Sub32(c, base) >= threshold && c == first
      decreases threshold - Sub32(c, base)
    {
      ghost var previous := c;
      c := clock.Read();
      SubChain(base, previous, c);
    }
  }
}
