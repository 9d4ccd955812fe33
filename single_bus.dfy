/** `send_pixels_800` and `send_pixels_400`: one buffer on one pin, each bit a
    high pulse of T1H (bit 1) or T0H (bit 0) cycles inside a fixed period,
    bytes in buffer order and bits most significant first. */
module SingleBus {
  import opened Words
  import opened Timing
  import opened CycleCounter
  import opened GpioPort

  /** One bit on the wire: the mask driven, the counter value at the rising
      edge and the counter value at the falling edge. */
  datatype Pulse = Pulse(mask: bv32, rise: uint32, fall: uint32)

  /** The high time of a pulse, in cycles (wraparound-safe). */
  function Width(p: Pulse): nat
  {
    Sub32(p.fall, p.rise)
  }

  /** The register writes a sequence of pulses makes: for each pulse one
      W1TS of its mask at the rising edge, then one W1TC of the same mask at
      the falling edge. */
  function Events(ps: seq<Pulse>): (r: seq<Write>)
    ensures |r| == 2 * |ps|
    decreases |ps|
  {
    if ps == [] then []
    else
      var p := ps[|ps| - 1];
      Events(ps[..|ps| - 1]) + [Write(W1TS, p.mask, p.rise), Write(W1TC, p.mask, p.fall)]
  }

  /** Writes 2n and 2n + 1 are the rising and the falling edge of pulse n. */
  lemma {:induction false} EventsOfPulse(ps: seq<Pulse>, n: nat)
    requires n < |ps|
    ensures Events(ps)[2 * n] == Write(W1TS, ps[n].mask, ps[n].rise)
    ensures Events(ps)[2 * n + 1] == Write(W1TC, ps[n].mask, ps[n].fall)
    decreases |ps|
  {
    if n < |ps| - 1 {
      EventsOfPulse(ps[..|ps| - 1], n);
    }
  }

  lemma EventsSnoc(ps: seq<Pulse>, p: Pulse)
    ensures Events(ps + [p]) == Events(ps) + [Write(W1TS, p.mask, p.rise), Write(W1TC, p.mask, p.fall)]
  {
    assert (ps + [p])[..|ps|] == ps;
  }

  /** The trace after one more pulse: its two writes at the end. */
  lemma TraceSnoc(trace: seq<Write>, ps: seq<Pulse>, p: Pulse)
    ensures trace + Events(ps + [p]) == trace + Events(ps) + [Write(W1TS, p.mask, p.rise), Write(W1TC, p.mask, p.fall)]
  {
    EventsSnoc(ps, p);
  }

  /** The trace after the pulses of one more byte. */
  lemma TraceAppend(trace: seq<Write>, ps: seq<Pulse>, more: seq<Pulse>)
    ensures trace + Events(ps + more) == trace + Events(ps) + Events(more)
  {
    EventsAppend(ps, more);
  }

  lemma {:induction false} EventsAppend(ps: seq<Pulse>, more: seq<Pulse>)
    ensures Events(ps + more) == Events(ps) + Events(more)
    decreases |more|
  {
    if more == [] {
      assert ps + more == ps;
    } else {
      var last := |more| - 1;
      assert (ps + more)[..|ps + more| - 1] == ps + more[..last];
      EventsAppend(ps, more[..last]);
    }
  }

  /** `cyclesBit`: the high time chosen for bit j of byte b. It is one of
      the two budgets, and when T0H < T1H it reaches T1H exactly for a 1. */
  function HighTime(b: bv8, j: nat, budget: CycleBudget): (t: nat)
    requires j < 8
    ensures t == budget.t0h || t == budget.t1h
    ensures budget.t0h < budget.t1h ==> (t >= budget.t1h <==> BitAt(b, j))
  {
    if BitAt(b, j) then budget.t1h else budget.t0h
  }

  /** Pulse p carries bit j of byte b: it drives `mask`, and it is high for
      at least the chosen high time and at most one read gap longer. */
  predicate PulseEncodes(p: Pulse, mask: bv32, b: bv8, j: nat, budget: CycleBudget, maxGap: nat)
    requires j < 8
  {
    p.mask == mask && HighTime(b, j, budget) <= Width(p) <= HighTime(b, j, budget) + maxGap
  }

  /** Consecutive rising edges are at least one bit period apart. */
  ghost predicate Paced(ps: seq<Pulse>, period: nat)
  {
    forall n :: 1 <= n < |ps| ==> Lead(ps, n) >= period
  }

  /** The time from rising edge n - 1 to rising edge n. */
  function Lead(ps: seq<Pulse>, n: nat): nat
    requires 1 <= n < |ps|
  {
    Sub32(ps[n].rise, ps[n - 1].rise)
  }

  /** The rising edge the next bit is timed from: the last rising edge
      so far, or `start` before the first. */
  function Reference(ps: seq<Pulse>, start: uint32): uint32
  {
    if ps == [] then start else ps[|ps| - 1].rise
  }

  /** The rising edge pulse n is timed from: the rising edge of the pulse
      before it, or `start` for the first. */
  function Prev(ps: seq<Pulse>, n: nat, start: uint32): uint32
    requires n <= |ps|
  {
    if n == 0 then start else ps[n - 1].rise
  }

  /** Pulse n of a byte b in progress carries bit n of b (most significant
      first) and rises at least a period after the rising edge before it. */
  ghost predicate BitSent(ps: seq<Pulse>, n: nat, mask: bv32, b: bv8, budget: CycleBudget, maxGap: nat, start: uint32)
    requires n < |ps| && n < 8
  {
    PulseEncodes(ps[n], mask, b, n, budget, maxGap) && Sub32(ps[n].rise, Prev(ps, n, start)) >= budget.period
  }

  /** The pulses sent so far for byte b, the first timed from `start`. */
  ghost predicate ByteSoFar(ps: seq<Pulse>, mask: bv32, b: bv8, budget: CycleBudget, maxGap: nat, start: uint32)
  {
    |ps| <= 8 && forall n :: 0 <= n < |ps| ==> BitSent(ps, n, mask, b, budget, maxGap, start)
  }

  /** One more pulse of the byte, a period after the last rising edge. */
  lemma ByteSoFarSnoc(ps: seq<Pulse>, p: Pulse, mask: bv32, b: bv8, budget: CycleBudget, maxGap: nat, start: uint32)
    requires ByteSoFar(ps, mask, b, budget, maxGap, start) && |ps| < 8
    requires PulseEncodes(p, mask, b, |ps|, budget, maxGap)
    requires Sub32(p.rise, Reference(ps, start)) >= budget.period
    ensures ByteSoFar(ps + [p], mask, b, budget, maxGap, start)
    ensures Reference(ps + [p], start) == p.rise
  {
    var qs := ps + [p];
    forall n | 0 <= n < |qs|
      ensures BitSent(qs, n, mask, b, budget, maxGap, start)
    {
      if n < |ps| {
        assert BitSent(ps, n, mask, b, budget, maxGap, start);
        assert qs[n] == ps[n];
        if n > 0 {
          assert qs[n - 1] == ps[n - 1];
        }
      } else {
        assert qs[n] == p;
        if n > 0 {
          assert qs[n - 1] == ps[n - 1];
        }
      }
    }
  }

  /** Pulse n of a train of buffer bytes from `mem[lo]` on carries bit
      n % 8 of the byte `mem[lo + n / 8]` and rises at least a period after
      the rising edge before it. */
  ghost predicate PulseSent(ps: seq<Pulse>, n: nat, mem: seq<bv8>, lo: nat, mask: bv32, budget: CycleBudget,
                            maxGap: nat, start: uint32)
    requires n < |ps| && lo + n / 8 < |mem|
  {
    && PulseEncodes(ps[n], mask, mem[lo + n / 8], n % 8, budget, maxGap)
    && Sub32(ps[n].rise, Prev(ps, n, start)) >= budget.period
  }

  /** The pulses of the bytes `mem[lo..hi]`: eight per byte in buffer order,
      each timed from the rising edge before it (the first from `start`). */
  ghost predicate Train(ps: seq<Pulse>, mem: seq<bv8>, lo: nat, hi: nat, mask: bv32, budget: CycleBudget,
                        maxGap: nat, start: uint32)
  {
    && lo <= hi && (lo < hi ==> hi <= |mem|)
    && |ps| == 8 * (hi - lo)
    && forall n :: 0 <= n < |ps| ==> PulseSent(ps, n, mem, lo, mask, budget, maxGap, start)
  }

  /** The first element of a concatenation. */
  lemma FirstOfAppend<T>(s: seq<T>, t: seq<T>)
    requires t != []
    ensures (s + t)[0] == if s == [] then t[0] else s[0]
  {
  }

  /** Pulse 8m + i is pulse i of byte m. */
  lemma DivMod8(m: nat, i: nat)
    requires i < 8
    ensures (8 * m + i) / 8 == m && (8 * m + i) % 8 == i
  {
  }

  /** Eight more pulses that encode the next byte, timed from the last
      rising edge, extend the train by that byte. */
  lemma TrainNextByte(ps: seq<Pulse>, mem: seq<bv8>, lo: nat, hi: nat, bps: seq<Pulse>,
                      mask: bv32, budget: CycleBudget, maxGap: nat, start: uint32)
    requires hi < |mem|
    requires Train(ps, mem, lo, hi, mask, budget, maxGap, start)
    requires |bps| == 8 && ByteSoFar(bps, mask, mem[hi], budget, maxGap, Reference(ps, start))
    ensures Train(ps + bps, mem, lo, hi + 1, mask, budget, maxGap, start)
    ensures Reference(ps + bps, start) == Reference(bps, Reference(ps, start))
  {
    var qs := ps + bps;
    forall n | 0 <= n < |qs|
      ensures PulseSent(qs, n, mem, lo, mask, budget, maxGap, start)
    {
      if n < |ps| {
        assert PulseSent(ps, n, mem, lo, mask, budget, maxGap, start);
        assert qs[n] == ps[n];
        if n > 0 {
          assert qs[n - 1] == ps[n - 1];
        }
      } else {
        var i := n - |ps|;
        DivMod8(hi - lo, i);
        assert BitSent(bps, i, mask, mem[hi], budget, maxGap, Reference(ps, start));
        assert qs[n] == bps[i];
        if i > 0 {
          assert qs[n - 1] == bps[i - 1];
        } else if n > 0 {
          assert qs[n - 1] == ps[|ps| - 1];
        }
      }
    }
    assert qs[|qs| - 1] == bps[|bps| - 1];
  }

  /** The pulse train for `bytes`: eight pulses per byte in buffer order,
      pulse n carrying bit n % 8 (most significant first) of byte n / 8. */
  ghost predicate Waveform(ps: seq<Pulse>, bytes: seq<bv8>, mask: bv32, budget: CycleBudget, maxGap: nat)
  {
    && |ps| == 8 * |bytes|
    && (forall n :: 0 <= n < |ps| ==> PulseEncodes(ps[n], mask, bytes[n / 8], n % 8, budget, maxGap))
    && Paced(ps, budget.period)
  }

  /** A train of bytes is the waveform of those bytes, its first pulse a
      period after `start`. */
  lemma TrainWaveform(ps: seq<Pulse>, mem: seq<bv8>, lo: nat, hi: nat, mask: bv32,
                      budget: CycleBudget, maxGap: nat, start: uint32)
    requires Train(ps, mem, lo, hi, mask, budget, maxGap, start)
    ensures lo <= hi && (lo < hi ==> hi <= |mem|)
    ensures lo < hi ==> Waveform(ps, mem[lo..hi], mask, budget, maxGap)
    ensures ps != [] ==> Sub32(ps[0].rise, start) >= budget.period
  {
    if lo < hi {
      var bytes := mem[lo..hi];
      forall n | 0 <= n < |ps|
        ensures PulseEncodes(ps[n], mask, bytes[n / 8], n % 8, budget, maxGap)
      {
        assert PulseSent(ps, n, mem, lo, mask, budget, maxGap, start);
        assert bytes[n / 8] == mem[lo + n / 8];
      }
      forall n | 1 <= n < |ps|
        ensures Lead(ps, n) >= budget.period
      {
        assert PulseSent(ps, n, mem, lo, mask, budget, maxGap, start);
      }
      assert PulseSent(ps, 0, mem, lo, mask, budget, maxGap, start);
    }
  }

  // ---------------------------------------------------------------------
  // Decoding: the receiver's view of the pulse train.

  /** The high times the encoder chooses for `bytes`, bit by bit. */
  function HighTimes(bytes: seq<bv8>, budget: CycleBudget): seq<nat>
  {
    seq(8 * |bytes|, n requires 0 <= n < 8 * |bytes| => HighTime(bytes[n / 8], n % 8, budget))
  }

  /** The measured high times of a pulse train. */
  function Widths(ps: seq<Pulse>): seq<nat>
  {
    seq(|ps|, n requires 0 <= n < |ps| => Width(ps[n]))
  }

  /** A receiver's decoding of eight high times: at least T1H reads as 1. */
  function DecodeByte(ws: seq<nat>, t1h: nat): bv8
    requires |ws| == 8
  {
    ByteOfBits(seq(8, k requires 0 <= k < 8 => ws[k] >= t1h))
  }

  /** Decoding a train of high times, eight per byte. */
  function DecodeBytes(ws: seq<nat>, t1h: nat): seq<bv8>
    decreases |ws|
  {
    if |ws| < 8 then [] else [DecodeByte(ws[..8], t1h)] + DecodeBytes(ws[8..], t1h)
  }

  /** High times that are at least T1H exactly where the bits of `bytes`
      are set decode to `bytes`. */
  lemma {:induction false} DecodeByThreshold(ws: seq<nat>, bytes: seq<bv8>, t1h: nat)
    requires |ws| == 8 * |bytes|
    requires forall n :: 0 <= n < |ws| ==> (ws[n] >= t1h) == BitAt(bytes[n / 8], n % 8)
    ensures DecodeBytes(ws, t1h) == bytes
    decreases |bytes|
  {
    if bytes != [] {
      var bits := seq(8, k requires 0 <= k < 8 => ws[..8][k] >= t1h);
      forall k | 0 <= k < 8
        ensures bits[k] == BitAt(bytes[0], k)
      {
        assert k / 8 == 0 && k % 8 == k;
      }
      ByteOfBitsInverse(bytes[0], bits);
      forall n | 0 <= n < |ws[8..]|
        ensures (ws[8..][n] >= t1h) == BitAt(bytes[1..][n / 8], n % 8)
      {
        assert (n + 8) / 8 == n / 8 + 1 && (n + 8) % 8 == n % 8;
        assert ws[8..][n] == ws[n + 8];
      }
      DecodeByThreshold(ws[8..], bytes[1..], t1h);
    }
  }

  /** Round trip: mapping the chosen high times back (T1H to 1, T0H to 0)
      reproduces the buffer. */
  lemma HighTimesRoundTrip(bytes: seq<bv8>, budget: CycleBudget)
    requires budget.t0h < budget.t1h
    ensures DecodeBytes(HighTimes(bytes, budget), budget.t1h) == bytes
  {
    DecodeByThreshold(HighTimes(bytes, budget), bytes, budget.t1h);
  }

  /** Round trip through the wire: when a read gap is shorter than
      T1H - T0H, decoding the measured high times of the waveform of
      `bytes` reproduces `bytes`. */
  lemma WaveformRoundTrip(ps: seq<Pulse>, bytes: seq<bv8>, mask: bv32, budget: CycleBudget, maxGap: nat)
    requires Waveform(ps, bytes, mask, budget, maxGap)
    requires budget.t0h + maxGap < budget.t1h
    ensures DecodeBytes(Widths(ps), budget.t1h) == bytes
  {
    var ws := Widths(ps);
    forall n | 0 <= n < |ws|
      ensures (ws[n] >= budget.t1h) == BitAt(bytes[n / 8], n % 8)
    {
      assert PulseEncodes(ps[n], mask, bytes[n / 8], n % 8, budget, maxGap);
    }
    DecodeByThreshold(ws, bytes, budget.t1h);
  }

  /** Replaying the writes of a pulse train on one mask: after every bit the
      pins of the mask are low and every other pin is as it was. */
  lemma {:induction false} PulsesLeaveMaskLow(out: bv32, ps: seq<Pulse>, mask: bv32)
    requires forall n :: 0 <= n < |ps| ==> ps[n].mask == mask
    ensures forall n :: 1 <= n <= |ps| ==> Replay(out, Events(ps[..n])) == ClearMasked(out, mask)
  {
    forall n | 1 <= n <= |ps|
      ensures Replay(out, Events(ps[..n])) == ClearMasked(out, mask)
    {
      ReplayPulses(out, ps[..n], mask);
    }
  }

  /** The output word a waveform leaves: the mask's pins low, the other pins
      as they were, or the word unchanged when nothing was sent. */
  lemma WaveformReplay(out: bv32, ps: seq<Pulse>, bytes: seq<bv8>, mask: bv32, budget: CycleBudget, maxGap: nat)
    requires Waveform(ps, bytes, mask, budget, maxGap)
    ensures Replay(out, Events(ps)) == if ps == [] then out else ClearMasked(out, mask)
  {
    if ps != [] {
      forall n | 0 <= n < |ps|
        ensures ps[n].mask == mask
      {
        assert PulseEncodes(ps[n], mask, bytes[n / 8], n % 8, budget, maxGap);
      }
      PulsesLeaveMaskLow(out, ps, mask);
      assert ps[..|ps|] == ps;
    }
  }

  lemma {:induction false} ReplayPulses(out: bv32, ps: seq<Pulse>, mask: bv32)
    requires |ps| >= 1
    requires forall n :: 0 <= n < |ps| ==> ps[n].mask == mask
    ensures Replay(out, Events(ps)) == ClearMasked(out, mask)
    decreases |ps|
  {
    var init, p := ps[..|ps| - 1], ps[|ps| - 1];
    var before := Events(init);
    var up := Write(W1TS, mask, p.rise);
    var down := Write(W1TC, mask, p.fall);
    assert Events(ps) == before + [up, down];
    assert (before + [up, down])[..|before| + 1] == before + [up];
    assert (before + [up])[..|before|] == before;
    var prior := Replay(out, before);
    assert Replay(out, Events(ps)) == ClearMasked(SetMasked(prior, mask), mask);
    ClearAfterSet(prior, mask);
    if init == [] {
      assert prior == out;
    } else {
      ReplayPulses(out, init, mask);
      ClearTwice(out, mask);
    }
  }

  /** The scenario of a single 800 kHz byte 0b10110010 at 80 MHz: high times
      T1H, T0H, T1H, T1H, T0H, T0H, T1H, T0H. */
  lemma ScenarioOneByte()
    ensures HighTimes([0xB2], Budget800(80000000)) == [64, 32, 64, 64, 32, 32, 64, 32]
  {
    BudgetsAt80And160MHz();
    var hs := HighTimes([0xB2], Budget800(80000000));
    assert hs[0] == 64 && hs[1] == 32 && hs[2] == 64 && hs[3] == 64;
    assert hs[4] == 32 && hs[5] == 32 && hs[6] == 64 && hs[7] == 32;
  }

  // ---------------------------------------------------------------------
  // The encoders.

  /** One bit: wait a period from the previous rising edge `cyclesNext`,
      drive the pin high, wait `cyclesBit` cycles from that edge, drive it
      low. Returns the pulse, whose rising edge is the new reference. */
  method SendBit(clock: CycleClock, gpio: Gpio, pinRegister: bv32, cyclesBit: nat,
                 budget: CycleBudget, cyclesNext: uint32)
    returns (p: Pulse)
    requires clock.Valid()
    requires cyclesBit <= budget.period && budget.period + clock.maxGap < Modulus
    modifies clock, gpio
    ensures p.mask == pinRegister && p.fall == clock.now
    ensures Sub32(p.rise, cyclesNext) >= budget.period
    ensures cyclesBit <= Width(p) <= cyclesBit + clock.maxGap
    ensures gpio.trace == old(gpio.trace) + [Write(W1TS, pinRegister, p.rise), Write(W1TC, pinRegister, p.fall)]
    ensures gpio.out == ClearMasked(old(gpio.out), pinRegister)
    ensures budget.period <= Sub32(old(clock.now), cyclesNext) &&
            Sub32(old(clock.now), cyclesNext) + clock.maxGap < Modulus
            ==> Sub32(p.rise, old(clock.now)) <= clock.maxGap
  {
    // Rising edge: one period after the previous one.
    var cyclesStart := WaitUntil(clock, cyclesNext, budget.period);
    gpio.SetBits(pinRegister, clock);
    // Falling edge: the bit's high time after the rise.
    var fall := WaitUntil(clock, cyclesStart, cyclesBit);
    gpio.ClearBits(pinRegister, clock);
    ClearAfterSet(old(gpio.out), pinRegister);
    p := Pulse(pinRegister, cyclesStart, fall);
  }

  /** One pass of the `bitMask` loop: pick the high time for the bit under
      `bitMask` and send it. `ps` are the pulses of the bits before, `start`
      the reference the byte was timed from, and `trace0`, `out0` and `now0`
      the trace, the output word and the counter before the byte. */
  method SendNextBit(clock: CycleClock, gpio: Gpio, pinRegister: bv32, subpix: bv8, budget: CycleBudget,
                     cyclesStart: uint32, bitMask: bv8, ghost j: nat, ghost ps: seq<Pulse>,
                     ghost start: uint32, ghost trace0: seq<Write>, ghost out0: bv32, ghost now0: uint32)
    returns (cyclesNext: uint32, nextMask: bv8, ghost qs: seq<Pulse>)
    requires clock.Valid()
    requires budget.t0h <= budget.t1h <= budget.period
    requires budget.period + clock.maxGap < Modulus
    requires j < 8 && |ps| == j && bitMask == BitMask(j)
    requires ByteSoFar(ps, pinRegister, subpix, budget, clock.maxGap, start)
    requires cyclesStart == Reference(ps, start)
    requires gpio.trace == trace0 + Events(ps)
    requires gpio.out == if j == 0 then out0 else ClearMasked(out0, pinRegister)
    requires j == 0 ==> clock.now == now0
    modifies clock, gpio
    ensures clock.Valid()
    ensures |qs| == j + 1 && nextMask == BitMask(j + 1)
    ensures j + 1 < 8 ==> nextMask != 0
    ensures ByteSoFar(qs, pinRegister, subpix, budget, clock.maxGap, start)
    ensures cyclesNext == Reference(qs, start)
    ensures gpio.trace == trace0 + Events(qs)
    ensures gpio.out == ClearMasked(out0, pinRegister)
    ensures j > 0 ==> qs[0] == ps[0]
    ensures j == 0 && budget.period <= Sub32(now0, start) && Sub32(now0, start) + clock.maxGap < Modulus
            ==> Sub32(qs[0].rise, now0) <= clock.maxGap
  {
    BitMaskStep(j, bitMask);
    // The high time of this bit, chosen before the wait for its rise.
    var cyclesBit := if HasBit(subpix, bitMask) then budget.t1h else budget.t0h;
    var p := SendBit(clock, gpio, pinRegister, cyclesBit, budget, cyclesStart);
    if j > 0 {
      ClearTwice(out0, pinRegister);
    }
    TraceSnoc(trace0, ps, p);
    ByteSoFarSnoc(ps, p, pinRegister, subpix, budget, clock.maxGap, start);
    FirstOfAppend(ps, [p]);
    qs := ps + [p];
    cyclesNext := p.rise;
    nextMask := NextBitMask(bitMask);
  }

  /** The body of the byte loop shared by both encoders: the `bitMask` loop
      over one byte, starting from the rising-edge reference `start`.
      Returns the last rising edge, the new reference. */
  method SendByte(clock: CycleClock, gpio: Gpio, pinRegister: bv32, subpix: bv8,
                  budget: CycleBudget, start: uint32)
    returns (cyclesStart: uint32, ghost ps: seq<Pulse>)
    requires clock.Valid()
    requires budget.t0h <= budget.t1h <= budget.period
    requires budget.period + clock.maxGap < Modulus
    modifies clock, gpio
    ensures clock.Valid()
    ensures |ps| == 8
    ensures ByteSoFar(ps, pinRegister, subpix, budget, clock.maxGap, start)
    ensures cyclesStart == Reference(ps, start)
    ensures gpio.trace == old(gpio.trace) + Events(ps)
    ensures gpio.out == ClearMasked(old(gpio.out), pinRegister)
    ensures budget.period <= Sub32(old(clock.now), start) &&
            Sub32(old(clock.now), start) + clock.maxGap < Modulus
            ==> Sub32(ps[0].rise, old(clock.now)) <= clock.maxGap
  {
    ghost var now0, out0, trace0 := clock.now, gpio.out, gpio.trace;
    ghost var immediate := budget.period <= Sub32(now0, start) && Sub32(now0, start) + clock.maxGap < Modulus;
    var bitMask: bv8 := 0x80;
    ghost var j := 0;
    cyclesStart := start;
    ps := [];
    while bitMask != 0
      invariant j <= 8 && |ps| == j
      invariant bitMask == BitMask(j)
      invariant j < 8 ==> bitMask != 0
      invariant clock.Valid()
      invariant ByteSoFar(ps, pinRegister, subpix, budget, clock.maxGap, start)
      invariant cyclesStart == Reference(ps, start)
      invariant gpio.trace == trace0 + Events(ps)
      invariant gpio.out == if j == 0 then out0 else ClearMasked(out0, pinRegister)
      invariant j == 0 ==> clock.now == now0
      invariant j > 0 && immediate ==> Sub32(ps[0].rise, now0) <= clock.maxGap
      decreases 8 - j
    {
      cyclesStart, bitMask, ps := SendNextBit(clock, gpio, pinRegister, subpix, budget, cyclesStart, bitMask,
                                              j, ps, start, trace0, out0, now0);
      j := j + 1;
    }
  }

  /** One pass of the byte loop of both encoders: fetch `*pixels++` and
      send its eight bits with `SendByte`. `done` are the pulses of the bytes
      before, `start` the reference the first byte was timed from, and
      `trace0` and `out0` the trace and the output word before the first byte. */
  method SendNextByte(clock: CycleClock, gpio: Gpio, pinRegister: bv32, mem: seq<bv8>, pixels: nat,
                      cursor: nat, budget: CycleBudget, cyclesStart: uint32,
                      ghost done: seq<Pulse>, ghost start: uint32, ghost trace0: seq<Write>, ghost out0: bv32)
    returns (next: nat, cyclesNext: uint32, ghost ps: seq<Pulse>)
    requires clock.Valid()
    requires budget.t0h <= budget.t1h <= budget.period
    requires budget.period + clock.maxGap < Modulus
    requires pixels <= cursor < |mem|
    requires Train(done, mem, pixels, cursor, pinRegister, budget, clock.maxGap, start)
    requires |done| == 8 * (cursor - pixels)
    requires cyclesStart == Reference(done, start)
    requires gpio.trace == trace0 + Events(done)
    requires gpio.out == if done == [] then out0 else ClearMasked(out0, pinRegister)
    modifies clock, gpio
    ensures clock.Valid()
    ensures next == cursor + 1
    ensures Train(ps, mem, pixels, next, pinRegister, budget, clock.maxGap, start)
    ensures cyclesNext == Reference(ps, start)
    ensures gpio.trace == trace0 + Events(ps)
    ensures gpio.out == ClearMasked(out0, pinRegister)
    ensures |ps| == |done| + 8 && (done != [] ==> ps[0] == done[0])
    ensures done == [] && budget.period <= Sub32(old(clock.now), start) &&
            Sub32(old(clock.now), start) + clock.maxGap < Modulus
            ==> Sub32(ps[0].rise, old(clock.now)) <= clock.maxGap
  {
    var subpix := mem[cursor];
    next := cursor + 1;
    ghost var bps;
    cyclesNext, bps := SendByte(clock, gpio, pinRegister, subpix, budget, cyclesStart);
    if done != [] {
      ClearTwice(out0, pinRegister);
    }
    TrainNextByte(done, mem, pixels, cursor, bps, pinRegister, budget, clock.maxGap, start);
    TraceAppend(trace0, done, bps);
    FirstOfAppend(done, bps);
    ps := done + bps;
  }

  /** Where `send_pixels_800` stops: at `end`, or one byte past `pixels`
      when the range is empty, since its loop tests only after each byte. */
  function Stop800(pixels: nat, end: nat): (stop: nat)
    ensures pixels < stop
    ensures stop - pixels == if pixels < end then end - pixels else 1
  {
    if pixels < end then end else pixels + 1
  }

  /** `send_pixels_800`. A do-while loop: it sends the byte at `pixels` even
      when the range is empty, so it always sends at least one byte. */
  method SendPixels800(clock: CycleClock, gpio: Gpio, mem: seq<bv8>, pixels: nat, end: nat,
                       pin: nat, fcpu: nat)
    returns (ghost ps: seq<Pulse>)
    requires Stop800(pixels, end) <= |mem| && pin < 32
    requires clock.Valid() && Budget800(fcpu).period + clock.maxGap < Modulus
    modifies clock, gpio
    ensures Waveform(ps, mem[pixels..Stop800(pixels, end)], PinMask(pin), Budget800(fcpu), clock.maxGap)
    ensures gpio.trace == old(gpio.trace) + Events(ps)
    ensures |gpio.trace| == |old(gpio.trace)| + 16 * (Stop800(pixels, end) - pixels)
    ensures gpio.out == ClearMasked(old(gpio.out), PinMask(pin))
    ensures gpio.out == Replay(old(gpio.out), Events(ps))
    ensures Sub32(ps[0].rise, old(clock.now)) <= 2 * clock.maxGap
  {
    var pinRegister := PinMask(pin);
    var budget := Budget800(fcpu);
    ghost var now0, out0, trace0 := clock.now, gpio.out, gpio.trace;
    // Time the first rise from one period before now, so that it is not delayed.
    var now := clock.Read();
    var cyclesStart := Sub32(now, budget.period);
    ghost var start := cyclesStart;
    var cursor := pixels;
    ps := [];
    // The do-while loop: the first pass runs before the test.
    SubBack(now, budget.period);
    cursor, cyclesStart, ps := SendNextByte(clock, gpio, pinRegister, mem, pixels, cursor, budget,
                                            cyclesStart, ps, start, trace0, out0);
    SubChain(now0, now, ps[0].rise);
    while cursor < end
      invariant pixels < cursor && (cursor == pixels + 1 || cursor <= end)
      invariant clock.Valid()
      invariant Train(ps, mem, pixels, cursor, pinRegister, budget, clock.maxGap, start)
      invariant cyclesStart == Reference(ps, start)
      invariant |ps| == 8 * (cursor - pixels)
      invariant gpio.trace == trace0 + Events(ps)
      invariant gpio.out == ClearMasked(out0, pinRegister)
      invariant ps != [] && Sub32(ps[0].rise, now0) <= 2 * clock.maxGap
      decreases end - cursor
    {
      cursor, cyclesStart, ps := SendNextByte(clock, gpio, pinRegister, mem, pixels, cursor, budget,
                                              cyclesStart, ps, start, trace0, out0);
    }
    assert cursor == Stop800(pixels, end);
    TrainWaveform(ps, mem, pixels, cursor, pinRegister, budget, clock.maxGap, start);
    WaveformReplay(out0, ps, mem[pixels..cursor], pinRegister, budget, clock.maxGap);
  }

  /** `send_pixels_400`. A while loop: an empty range sends nothing and
      writes no register. */
  method SendPixels400(clock: CycleClock, gpio: Gpio, mem: seq<bv8>, pixels: nat, end: nat,
                       pin: nat, fcpu: nat)
    returns (ghost ps: seq<Pulse>)
    requires (pixels < end ==> end <= |mem|) && pin < 32
    requires clock.Valid() && Budget400(fcpu).period + clock.maxGap < Modulus
    modifies clock, gpio
    ensures Waveform(ps, if pixels < end then mem[pixels..end] else [],
                     PinMask(pin), Budget400(fcpu), clock.maxGap)
    ensures gpio.trace == old(gpio.trace) + Events(ps)
    ensures |gpio.trace| == |old(gpio.trace)| + 16 * (if pixels < end then end - pixels else 0)
    ensures pixels < end ==> gpio.out == ClearMasked(old(gpio.out), PinMask(pin))
    ensures gpio.out == Replay(old(gpio.out), Events(ps))
    ensures pixels < end ==> Sub32(ps[0].rise, old(clock.now)) <= 2 * clock.maxGap
    ensures end <= pixels ==> gpio.trace == old(gpio.trace) && gpio.out == old(gpio.out)
  {
    var pinRegister := PinMask(pin);
    var budget := Budget400(fcpu);
    ghost var now0, out0, trace0 := clock.now, gpio.out, gpio.trace;
    // Time the first rise from one period before now, so that it is not delayed.
    var now := clock.Read();
    var cyclesStart := Sub32(now, budget.period);
    ghost var start := cyclesStart;
    var cursor := pixels;
    ps := [];
    while cursor < end
      invariant pixels <= cursor && (cursor == pixels || cursor <= end)
      invariant clock.Valid()
      invariant Train(ps, mem, pixels, cursor, pinRegister, budget, clock.maxGap, start)
      invariant cyclesStart == Reference(ps, start)
      invariant |ps| == 8 * (cursor - pixels)
      invariant gpio.trace == trace0 + Events(ps)
      invariant gpio.out == if ps == [] then out0 else ClearMasked(out0, pinRegister)
      invariant cursor == pixels ==> ps == [] && clock.now == now
      invariant cursor > pixels ==> ps != [] && Sub32(ps[0].rise, now0) <= 2 * clock.maxGap
      decreases end - cursor
    {
      if ps == [] {
        SubBack(now, budget.period);
      }
      ghost var done := ps;
      cursor, cyclesStart, ps := SendNextByte(clock, gpio, pinRegister, mem, pixels, cursor, budget,
                                              cyclesStart, ps, start, trace0, out0);
      if done == [] {
        SubChain(now0, now, ps[0].rise);
      }
    }
    if pixels < end {
      assert cursor == end;
      TrainWaveform(ps, mem, pixels, end, pinRegister, budget, clock.maxGap, start);
      WaveformReplay(out0, ps, mem[pixels..end], pinRegister, budget, clock.maxGap);
    }
  }
}
