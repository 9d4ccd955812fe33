/** `send_multibus_pixels_800`: up to eight buses at 800 kHz in lockstep.
    Every bit period sets the pins of all buses high together, clears the
    pins of the buses whose bit is 0 after T0H and those whose bit is 1
    after T1H. Each bus has its own byte cursor; in the spare time of bit i
    of a byte period the cursor of bus i moves on, while it is below that
    bus's end. The loop goes on as long as some cursor moved. */
module MultiBus {
  import opened Words
  import opened Timing
  import opened CycleCounter
  import opened GpioPort
  import SingleBus

  // ---------------------------------------------------------------------
  // Buses and their cursors.

  /** The fields of `PixelBusInfo` the encoder uses: the buffer
      `[pixels, end)`, as indices into memory, and the bus's pin mask. */
  datatype BusInfo = BusInfo(pixels: nat, end: nat, pinRegister: bv32)

  function Min(a: nat, b: nat): nat
  {
    if a <= b then a else b
  }

  function Max(a: nat, b: nat): nat
  {
    if a <= b then b else a
  }

  /** The number of bytes a bus's cursor can step over: 0 when `end` is not
      above `pixels`, since the cursor only moves while it is below `end`. */
  function Len(bus: BusInfo): nat
  {
    if bus.pixels < bus.end then bus.end - bus.pixels else 0
  }

  /** The number of buses whose cursor can move: `indexNextBus` counts the
      eight bits of a byte, so buses from index 8 on stay at their first byte. */
  function Lanes(buses: seq<BusInfo>): nat
  {
    Min(|buses|, 8)
  }

  /** Where the cursor of bus i ends up. */
  function LastCursor(buses: seq<BusInfo>, i: nat): nat
    requires i < |buses|
  {
    if i < 8 then buses[i].pixels + Len(buses[i]) else buses[i].pixels
  }

  /** The cursor of bus i at the start of byte period k. */
  function CursorAt(buses: seq<BusInfo>, i: nat, k: nat): (c: nat)
    requires i < |buses|
    ensures buses[i].pixels <= c <= LastCursor(buses, i)
  {
    if i < 8 then buses[i].pixels + Min(k, Len(buses[i])) else buses[i].pixels
  }

  /** Bus i moves its cursor in byte period k: it is one of the first eight
      buses and its cursor is still below its end. */
  predicate Advances(buses: seq<BusInfo>, i: nat, k: nat)
  {
    i < |buses| && i < 8 && CursorAt(buses, i, k) < buses[i].end
  }

  /** `morePixels` after bit j of byte period k: some bus before j moved. */
  function AnyBefore(buses: seq<BusInfo>, k: nat, j: nat): bool
    decreases j
  {
    if j == 0 then false else AnyBefore(buses, k, j - 1) || Advances(buses, j - 1, k)
  }

  /** The longest of the first n buses. */
  function MaxLen(buses: seq<BusInfo>, n: nat): nat
    requires n <= |buses|
  {
    if n == 0 then 0 else Max(MaxLen(buses, n - 1), Len(buses[n - 1]))
  }

  /** The number of byte periods the encoder runs. */
  function Periods(buses: seq<BusInfo>): nat
  {
    MaxLen(buses, Lanes(buses)) + 1
  }

  /** Every byte the encoder reads lies in memory: the encoder reads the
      byte under each cursor, including the one at `end`. */
  ghost predicate Readable(mem: seq<bv8>, buses: seq<BusInfo>)
  {
    forall i :: 0 <= i < |buses| ==> LastCursor(buses, i) < |mem|
  }

  /** `subpix[]` in byte period k: the byte under each bus's cursor. */
  function Samples(mem: seq<bv8>, buses: seq<BusInfo>, k: nat): (s: seq<bv8>)
    requires Readable(mem, buses)
    ensures |s| == |buses|
  {
    seq(|buses|, i requires 0 <= i < |buses| => mem[CursorAt(buses, i, k)])
  }

  /** The bytes bus i sends over the first m byte periods. */
  function BusStream(mem: seq<bv8>, buses: seq<BusInfo>, i: nat, m: nat): seq<bv8>
    requires Readable(mem, buses) && i < |buses|
  {
    seq(m, k requires 0 <= k < m => mem[CursorAt(buses, i, k)])
  }

  /** A cursor moves in period k exactly when its bus is one of the first
      eight and has fewer than k + 1 bytes behind it; so cursors never pass
      `end` and buses from index 8 on never move. */
  lemma AdvancesIff(buses: seq<BusInfo>, i: nat, k: nat)
    requires i < |buses|
    ensures Advances(buses, i, k) <==> i < Lanes(buses) && k < Len(buses[i])
    ensures buses[i].pixels <= buses[i].end ==> CursorAt(buses, i, k) <= buses[i].end
    ensures i >= 8 ==> CursorAt(buses, i, k) == buses[i].pixels
  {
  }

  /** One byte period moves each cursor by one exactly when it advances. */
  lemma CursorNext(buses: seq<BusInfo>, i: nat, k: nat)
    requires i < |buses|
    ensures CursorAt(buses, i, k + 1) == CursorAt(buses, i, k) + (if Advances(buses, i, k) then 1 else 0)
  {
  }

  lemma {:induction false} MaxLenBounds(buses: seq<BusInfo>, n: nat)
    requires n <= |buses|
    ensures forall i :: 0 <= i < n ==> Len(buses[i]) <= MaxLen(buses, n)
    ensures n > 0 ==> exists i :: 0 <= i < n && Len(buses[i]) == MaxLen(buses, n)
  {
    if n > 0 {
      MaxLenBounds(buses, n - 1);
    }
  }

  /** Some of the first j buses moves in period k exactly when k is below
      the longest of them. */
  lemma {:induction false} AnyBeforeIff(buses: seq<BusInfo>, k: nat, j: nat)
    requires j <= 8
    ensures AnyBefore(buses, k, j) <==> k < MaxLen(buses, Min(j, |buses|))
  {
    if j > 0 {
      AnyBeforeIff(buses, k, j - 1);
      if j - 1 < |buses| {
        AdvancesIff(buses, j - 1, k);
      }
    }
  }

  /** Termination as written: `morePixels` is set in byte period k exactly
      when k is below the longest of the first eight buses. So the loop runs
      `Periods(buses)` byte periods, one more than the longest buffer. */
  lemma MorePixelsIff(buses: seq<BusInfo>, k: nat)
    ensures AnyBefore(buses, k, 8) <==> k + 1 < Periods(buses)
  {
    AnyBeforeIff(buses, k, 8);
  }

  /** What each of the first eight buses sends: its own bytes, then the byte
      at its `end` over and over until the longest bus is done. A bus from
      index 8 on sends its first byte in every period. */
  lemma BusStreamShape(mem: seq<bv8>, buses: seq<BusInfo>, i: nat)
    requires Readable(mem, buses) && i < |buses|
    ensures LastCursor(buses, i) < |mem| && buses[i].pixels <= LastCursor(buses, i)
    ensures i < 8 ==> Len(buses[i]) < Periods(buses)
    ensures i < 8 ==> BusStream(mem, buses, i, Periods(buses))
                      == mem[buses[i].pixels..LastCursor(buses, i)]
                         + seq(Periods(buses) - Len(buses[i]), _ => mem[LastCursor(buses, i)])
    ensures i >= 8 ==> BusStream(mem, buses, i, Periods(buses)) == seq(Periods(buses), _ => mem[buses[i].pixels])
  {
    var m := Periods(buses);
    if i < 8 {
      MaxLenBounds(buses, Lanes(buses));
      var p, len := buses[i].pixels, Len(buses[i]);
      var own := mem[p..p + len];
      var rest := seq(m - len, _ => mem[p + len]);
      var s := BusStream(mem, buses, i, m);
      assert |s| == |own + rest|;
      forall k | 0 <= k < m
        ensures s[k] == (own + rest)[k]
      {
        if k < len {
          assert (own + rest)[k] == own[k];
        } else {
          assert (own + rest)[k] == rest[k - len];
        }
      }
    }
  }

  // ---------------------------------------------------------------------
  // The pin masks of a bit.

  /** `a | b`, kept behind a function so that unfolding the masks below
      gives the solver one term per step. */
  function Union(a: bv32, b: bv32): bv32
  {
    a | b
  }

  /** `pinRegistersAll`: the pin masks of the first n buses together. */
  function AllPins(buses: seq<BusInfo>, n: nat): bv32
    requires n <= |buses|
  {
    if n == 0 then 0 else Union(AllPins(buses, n - 1), buses[n - 1].pinRegister)
  }

  /** A bus's contribution to a mask: its pins if it takes part, else none. */
  function Pick(b: bool, reg: bv32): bv32
  {
    if b then reg else 0
  }

  /** Bus k's contribution to `pinRegisters1Bit`. */
  function OneOf(buses: seq<BusInfo>, bits: seq<bool>, k: nat): bv32
    requires k < |buses| && k < |bits|
  {
    Pick(bits[k], buses[k].pinRegister)
  }

  /** Bus k's contribution to `pinRegisters0Bit`. */
  function ZeroOf(buses: seq<BusInfo>, bits: seq<bool>, k: nat): bv32
    requires k < |buses| && k < |bits|
  {
    Pick(!bits[k], buses[k].pinRegister)
  }

  /** The bit under `bitMask` of each byte: the test `subpix[indexBus] & bitMask`. */
  function Bits(subpix: seq<bv8>, bitMask: bv8): (r: seq<bool>)
    ensures |r| == |subpix|
    ensures forall i :: 0 <= i < |subpix| ==> r[i] == HasBit(subpix[i], bitMask)
  {
    seq(|subpix|, i requires 0 <= i < |subpix| => HasBit(subpix[i], bitMask))
  }

  /** Under the j-th value of `bitMask`, the test reads bit j of every byte,
      most significant first. */
  lemma BitsAt(subpix: seq<bv8>, j: nat)
    requires j < 8
    ensures forall i :: 0 <= i < |subpix| ==> Bits(subpix, BitMask(j))[i] == BitAt(subpix[i], j)
  {
    BitMaskStep(j, BitMask(j));
  }

  /** `pinRegisters1Bit`: the pin masks of the first n buses whose bit in
      `bits` is 1. */
  function OnesMask(buses: seq<BusInfo>, bits: seq<bool>, n: nat): bv32
    requires n <= |buses| && n <= |bits|
  {
    if n == 0 then 0 else Union(OnesMask(buses, bits, n - 1), OneOf(buses, bits, n - 1))
  }

  /** `pinRegisters0Bit`: the pin masks of the first n buses whose bit in
      `bits` is 0. */
  function ZerosMask(buses: seq<BusInfo>, bits: seq<bool>, n: nat): bv32
    requires n <= |buses| && n <= |bits|
  {
    if n == 0 then 0 else Union(ZerosMask(buses, bits, n - 1), ZeroOf(buses, bits, n - 1))
  }

  /** The buses drive pairwise disjoint pins. */
  ghost predicate Disjoint(buses: seq<BusInfo>)
  {
    forall i, k :: 0 <= i < |buses| && 0 <= k < |buses| && i != k ==>
      buses[i].pinRegister & buses[k].pinRegister == 0
  }

  /** The 1-mask and the 0-mask together are all the pins. */
  lemma {:induction false} MasksPartition(buses: seq<BusInfo>, bits: seq<bool>, n: nat)
    requires n <= |buses| && n <= |bits|
    ensures OnesMask(buses, bits, n) | ZerosMask(buses, bits, n) == AllPins(buses, n)
  {
    if n > 0 {
      MasksPartition(buses, bits, n - 1);
      PartitionStep(buses, bits, n - 1);
    }
  }

  /** A bus joins one side of the split and so joins the union. */
  lemma PartitionStep(buses: seq<BusInfo>, bits: seq<bool>, n: nat)
    requires n < |buses| && n < |bits|
    requires OnesMask(buses, bits, n) | ZerosMask(buses, bits, n) == AllPins(buses, n)
    ensures OnesMask(buses, bits, n + 1) | ZerosMask(buses, bits, n + 1) == AllPins(buses, n + 1)
  {
    if bits[n] {
      PartitionOne(buses, bits, n);
    } else {
      PartitionZero(buses, bits, n);
    }
  }

  /** A bus whose bit is set joins the 1-mask and the union. */
  lemma PartitionOne(buses: seq<BusInfo>, bits: seq<bool>, n: nat)
    requires n < |buses| && n < |bits| && bits[n]
    requires OnesMask(buses, bits, n) | ZerosMask(buses, bits, n) == AllPins(buses, n)
    ensures OnesMask(buses, bits, n + 1) | ZerosMask(buses, bits, n + 1) == AllPins(buses, n + 1)
  {
    AllUnfold(buses, n);
    OnesJoin(buses, bits, n);
    ZerosStay(buses, bits, n);
  }

  /** A bus whose bit is clear joins the 0-mask and the union. */
  lemma PartitionZero(buses: seq<BusInfo>, bits: seq<bool>, n: nat)
    requires n < |buses| && n < |bits| && !bits[n]
    requires OnesMask(buses, bits, n) | ZerosMask(buses, bits, n) == AllPins(buses, n)
    ensures OnesMask(buses, bits, n + 1) | ZerosMask(buses, bits, n + 1) == AllPins(buses, n + 1)
  {
    AllUnfold(buses, n);
    OnesStay(buses, bits, n);
    ZerosJoin(buses, bits, n);
  }

  /** One more bus in the pins of all buses, written with `|`. */
  lemma AllUnfold(buses: seq<BusInfo>, n: nat)
    requires n < |buses|
    ensures AllPins(buses, n + 1) == AllPins(buses, n) | buses[n].pinRegister
  {
  }

  /** A bus whose bit is set has its pins in the 1-mask. */
  lemma {:induction false} OnesCover(buses: seq<BusInfo>, bits: seq<bool>, n: nat, i: nat)
    requires n <= |buses| && n <= |bits| && i < n
    ensures bits[i] ==> buses[i].pinRegister & OnesMask(buses, bits, n) == buses[i].pinRegister
  {
    if i < n - 1 {
      OnesCover(buses, bits, n - 1, i);
    }
  }

  /** A bus whose bit is clear has its pins in the 0-mask. */
  lemma {:induction false} ZerosCover(buses: seq<BusInfo>, bits: seq<bool>, n: nat, i: nat)
    requires n <= |buses| && n <= |bits| && i < n
    ensures !bits[i] ==> buses[i].pinRegister & ZerosMask(buses, bits, n) == buses[i].pinRegister
  {
    if i < n - 1 {
      ZerosCover(buses, bits, n - 1, i);
    }
  }

  /** Each bus's pins are in the 1-mask when its bit is set and in the
      0-mask when it is clear. */
  lemma MaskCovers(buses: seq<BusInfo>, bits: seq<bool>, n: nat, i: nat)
    requires n <= |buses| && n <= |bits| && i < n
    ensures bits[i] ==> buses[i].pinRegister & OnesMask(buses, bits, n) == buses[i].pinRegister
    ensures !bits[i] ==> buses[i].pinRegister & ZerosMask(buses, bits, n) == buses[i].pinRegister
  {
    OnesCover(buses, bits, n, i);
    ZerosCover(buses, bits, n, i);
  }

  // Exactness. Each lemma below states one bit-vector fact; the quantified
  // ones are named, so that they pass between lemmas as a single atom.

  /** Pins outside both parts are outside their union. */
  lemma OrAvoids(m: bv32, a: bv32, b: bv32)
    requires m & a == 0 && m & b == 0
    ensures m & Union(a, b) == 0
  {
  }

  /** Pins outside a bus's mask are outside its contribution. */
  lemma PickAvoids(m: bv32, b: bool, reg: bv32)
    requires m & reg == 0
    ensures m & Pick(b, reg) == 0
  {
  }

  /** A bus that does not take part contributes no pins. */
  lemma PickNone(m: bv32, reg: bv32)
    ensures m & Pick(false, reg) == 0
  {
  }

  /** None of the pins m is contributed by the first n buses to the 1-mask. */
  ghost predicate AvoidsOnes(m: bv32, buses: seq<BusInfo>, bits: seq<bool>, n: nat)
    requires n <= |buses| && n <= |bits|
  {
    forall k :: 0 <= k < n ==> m & OneOf(buses, bits, k) == 0
  }

  /** None of the pins m is contributed by the first n buses to the 0-mask. */
  ghost predicate AvoidsZeros(m: bv32, buses: seq<BusInfo>, bits: seq<bool>, n: nat)
    requires n <= |buses| && n <= |bits|
  {
    forall k :: 0 <= k < n ==> m & ZeroOf(buses, bits, k) == 0
  }

  /** Pins no bus contributes are not in the 1-mask. */
  lemma {:induction false} OnesAvoid(buses: seq<BusInfo>, bits: seq<bool>, n: nat, m: bv32)
    requires n <= |buses| && n <= |bits|
    requires AvoidsOnes(m, buses, bits, n)
    ensures m & OnesMask(buses, bits, n) == 0
  {
    if n > 0 {
      OnesAvoid(buses, bits, n - 1, m);
      OrAvoids(m, OnesMask(buses, bits, n - 1), OneOf(buses, bits, n - 1));
    }
  }

  /** Pins no bus contributes are not in the 0-mask. */
  lemma {:induction false} ZerosAvoid(buses: seq<BusInfo>, bits: seq<bool>, n: nat, m: bv32)
    requires n <= |buses| && n <= |bits|
    requires AvoidsZeros(m, buses, bits, n)
    ensures m & ZerosMask(buses, bits, n) == 0
  {
    if n > 0 {
      ZerosAvoid(buses, bits, n - 1, m);
      OrAvoids(m, ZerosMask(buses, bits, n - 1), ZeroOf(buses, bits, n - 1));
    }
  }

  /** With disjoint pins, no bus contributes pins of a bus whose bit is
      clear to the 1-mask: not that bus, which is not in it, and no other,
      whose pins are apart. */
  lemma OneApart(buses: seq<BusInfo>, bits: seq<bool>, i: nat, k: nat)
    requires i < |buses| && i < |bits| && k < |buses| && k < |bits|
    requires Disjoint(buses) && !bits[i]
    ensures buses[i].pinRegister & OneOf(buses, bits, k) == 0
  {
    if k == i {
      PickNone(buses[i].pinRegister, buses[i].pinRegister);
    } else {
      PickAvoids(buses[i].pinRegister, bits[k], buses[k].pinRegister);
    }
  }

  /** The same for the 0-mask and a bus whose bit is set. */
  lemma ZeroApart(buses: seq<BusInfo>, bits: seq<bool>, i: nat, k: nat)
    requires i < |buses| && i < |bits| && k < |buses| && k < |bits|
    requires Disjoint(buses) && bits[i]
    ensures buses[i].pinRegister & ZeroOf(buses, bits, k) == 0
  {
    if k == i {
      PickNone(buses[i].pinRegister, buses[i].pinRegister);
    } else {
      PickAvoids(buses[i].pinRegister, !bits[k], buses[k].pinRegister);
    }
  }

  lemma OnesApart(buses: seq<BusInfo>, bits: seq<bool>, n: nat, i: nat)
    requires n <= |buses| && n <= |bits| && i < n
    requires Disjoint(buses) && !bits[i]
    ensures AvoidsOnes(buses[i].pinRegister, buses, bits, n)
  {
    forall k | 0 <= k < n
      ensures buses[i].pinRegister & OneOf(buses, bits, k) == 0
    {
      OneApart(buses, bits, i, k);
    }
  }

  lemma ZerosApart(buses: seq<BusInfo>, bits: seq<bool>, n: nat, i: nat)
    requires n <= |buses| && n <= |bits| && i < n
    requires Disjoint(buses) && bits[i]
    ensures AvoidsZeros(buses[i].pinRegister, buses, bits, n)
  {
    forall k | 0 <= k < n
      ensures buses[i].pinRegister & ZeroOf(buses, bits, k) == 0
    {
      ZeroApart(buses, bits, i, k);
    }
  }

  /** With disjoint pins, a bus whose bit is clear has none of its pins in
      the 1-mask. */
  lemma OnesExact(buses: seq<BusInfo>, bits: seq<bool>, n: nat, i: nat)
    requires n <= |buses| && n <= |bits| && i < n
    requires Disjoint(buses)
    ensures !bits[i] ==> buses[i].pinRegister & OnesMask(buses, bits, n) == 0
  {
    if !bits[i] {
      OnesApart(buses, bits, n, i);
      OnesAvoid(buses, bits, n, buses[i].pinRegister);
    }
  }

  /** With disjoint pins, a bus whose bit is set has none of its pins in
      the 0-mask. */
  lemma ZerosExact(buses: seq<BusInfo>, bits: seq<bool>, n: nat, i: nat)
    requires n <= |buses| && n <= |bits| && i < n
    requires Disjoint(buses)
    ensures bits[i] ==> buses[i].pinRegister & ZerosMask(buses, bits, n) == 0
  {
    if bits[i] {
      ZerosApart(buses, bits, n, i);
      ZerosAvoid(buses, bits, n, buses[i].pinRegister);
    }
  }

  /** With disjoint pins the partition is exact: a bus whose bit is set has
      none of its pins in the 0-mask, and one whose bit is clear none in the
      1-mask. */
  lemma MaskExact(buses: seq<BusInfo>, bits: seq<bool>, n: nat, i: nat)
    requires n <= |buses| && n <= |bits| && i < n
    requires Disjoint(buses)
    ensures bits[i] ==> buses[i].pinRegister & ZerosMask(buses, bits, n) == 0
    ensures !bits[i] ==> buses[i].pinRegister & OnesMask(buses, bits, n) == 0
  {
    ZerosExact(buses, bits, n, i);
    OnesExact(buses, bits, n, i);
  }

  /** A bus that does not take part leaves a mask as it was. */
  lemma OrNone(m: bv32, reg: bv32)
    ensures Union(m, Pick(false, reg)) == m
  {
  }

  /** A bus whose bit is set joins the 1-mask. */
  lemma OnesJoin(buses: seq<BusInfo>, bits: seq<bool>, n: nat)
    requires n < |buses| && n < |bits| && bits[n]
    ensures OnesMask(buses, bits, n + 1) == OnesMask(buses, bits, n) | buses[n].pinRegister
  {
  }

  /** A bus whose bit is clear joins the 0-mask. */
  lemma ZerosJoin(buses: seq<BusInfo>, bits: seq<bool>, n: nat)
    requires n < |buses| && n < |bits| && !bits[n]
    ensures ZerosMask(buses, bits, n + 1) == ZerosMask(buses, bits, n) | buses[n].pinRegister
  {
  }

  /** A bus whose bit is clear leaves the 1-mask as it was. */
  lemma OnesStay(buses: seq<BusInfo>, bits: seq<bool>, n: nat)
    requires n < |buses| && n < |bits| && !bits[n]
    ensures OnesMask(buses, bits, n + 1) == OnesMask(buses, bits, n)
  {
    OrNone(OnesMask(buses, bits, n), buses[n].pinRegister);
  }

  /** A bus whose bit is set leaves the 0-mask as it was. */
  lemma ZerosStay(buses: seq<BusInfo>, bits: seq<bool>, n: nat)
    requires n < |buses| && n < |bits| && bits[n]
    ensures ZerosMask(buses, bits, n + 1) == ZerosMask(buses, bits, n)
  {
    OrNone(ZerosMask(buses, bits, n), buses[n].pinRegister);
  }

  /** The write sequence of one bit on plain words. */
  lemma ClearSplitBits(out: bv32, all: bv32, zeros: bv32, ones: bv32)
    requires ones | zeros == all
    ensures ((out | all) & !zeros) & !ones == out & !all
  {
  }

  /** Clearing the 0-mask and then the 1-mask after setting all pins leaves
      all pins low and every other pin as it was. */
  lemma ClearSplit(out: bv32, all: bv32, zeros: bv32, ones: bv32)
    requires ones | zeros == all
    ensures ClearMasked(ClearMasked(SetMasked(out, all), zeros), ones) == ClearMasked(out, all)
  {
    ClearSplitBits(out, all, zeros, ones);
  }

  // ---------------------------------------------------------------------
  // Bit slots and the waveform.

  /** One bit period on all buses: the three masks written and the counter
      values at the three writes (set all, clear the 0-mask, clear the
      1-mask). */
  datatype Slot = Slot(all: bv32, zeros: bv32, ones: bv32, rise: uint32, clear0: uint32, clear1: uint32)

  /** The register writes of a sequence of slots, three per slot in order. */
  function SlotEvents(ss: seq<Slot>): (r: seq<Write>)
    ensures |r| == 3 * |ss|
    decreases |ss|
  {
    if ss == [] then []
    else
      var s := ss[|ss| - 1];
      SlotEvents(ss[..|ss| - 1]) + [Write(W1TS, s.all, s.rise), Write(W1TC, s.zeros, s.clear0), Write(W1TC, s.ones, s.clear1)]
  }

  /** Writes 3n, 3n + 1 and 3n + 2 are the three writes of slot n. */
  lemma {:induction false} SlotEventsOfSlot(ss: seq<Slot>, n: nat)
    requires n < |ss|
    ensures SlotEvents(ss)[3 * n] == Write(W1TS, ss[n].all, ss[n].rise)
    ensures SlotEvents(ss)[3 * n + 1] == Write(W1TC, ss[n].zeros, ss[n].clear0)
    ensures SlotEvents(ss)[3 * n + 2] == Write(W1TC, ss[n].ones, ss[n].clear1)
    decreases |ss|
  {
    if n < |ss| - 1 {
      SlotEventsOfSlot(ss[..|ss| - 1], n);
    }
  }

  lemma SlotTraceSnoc(trace: seq<Write>, ss: seq<Slot>, s: Slot)
    ensures trace + SlotEvents(ss + [s])
            == trace + SlotEvents(ss) + [Write(W1TS, s.all, s.rise), Write(W1TC, s.zeros, s.clear0), Write(W1TC, s.ones, s.clear1)]
  {
    assert (ss + [s])[..|ss|] == ss;
  }

  lemma {:induction false} SlotEventsAppend(ss: seq<Slot>, more: seq<Slot>)
    ensures SlotEvents(ss + more) == SlotEvents(ss) + SlotEvents(more)
    decreases |more|
  {
    if more == [] {
      assert ss + more == ss;
    } else {
      var last := |more| - 1;
      assert (ss + more)[..|ss + more| - 1] == ss + more[..last];
      SlotEventsAppend(ss, more[..last]);
    }
  }

  lemma SlotTraceAppend(trace: seq<Write>, ss: seq<Slot>, more: seq<Slot>)
    ensures trace + SlotEvents(ss + more) == trace + SlotEvents(ss) + SlotEvents(more)
  {
    SlotEventsAppend(ss, more);
  }

  /** The rising edge slot n is timed from. */
  function PrevRise(ss: seq<Slot>, n: nat, start: uint32): uint32
    requires n <= |ss|
  {
    if n == 0 then start else ss[n - 1].rise
  }

  /** The rising edge the next slot is timed from. */
  function LastRise(ss: seq<Slot>, start: uint32): uint32
  {
    if ss == [] then start else ss[|ss| - 1].rise
  }

  /** The two clears of a slot: the 0-mask at least T0H after the rising
      edge (and at most one read gap later), the 1-mask at least T1H after
      it, and at most one read gap later whenever the 0-mask clear cannot
      run past T1H. */
  predicate SlotTimed(s: Slot, budget: CycleBudget, maxGap: nat)
  {
    && budget.t0h <= Sub32(s.clear0, s.rise) <= budget.t0h + maxGap
    && budget.t1h <= Sub32(s.clear1, s.rise)
    && (budget.t0h + maxGap <= budget.t1h ==> Sub32(s.clear1, s.rise) <= budget.t1h + maxGap)
  }

  /** Slot s carries bit j of the bytes `subpix`: it sets all pins and its
      two masks split them by that bit. */
  predicate SlotCarries(s: Slot, buses: seq<BusInfo>, subpix: seq<bv8>, j: nat)
    requires j < 8 && |subpix| == |buses|
  {
    && s.all == AllPins(buses, |buses|)
    && s.ones == OnesMask(buses, Bits(subpix, BitMask(j)), |buses|)
    && s.zeros == ZerosMask(buses, Bits(subpix, BitMask(j)), |buses|)
  }

  /** Slot n of a byte period in progress carries bit n of `subpix` and
      rises at least a period after the rising edge before it. */
  ghost predicate BitSlotSent(ss: seq<Slot>, n: nat, buses: seq<BusInfo>, subpix: seq<bv8>, budget: CycleBudget,
                              maxGap: nat, start: uint32)
    requires n < |ss| && n < 8 && |subpix| == |buses|
  {
    && SlotCarries(ss[n], buses, subpix, n)
    && SlotTimed(ss[n], budget, maxGap)
    && Sub32(ss[n].rise, PrevRise(ss, n, start)) >= budget.period
  }

  /** The first rising edge of `ss` comes within `maxGap` cycles of the
      counter reading `now`, provided a full period had passed between
      `start` and `now` (so that the encoder went on at once). */
  ghost predicate PromptFirst(ss: seq<Slot>, now: uint32, start: uint32, period: nat, maxGap: nat)
  {
    |ss| > 0 && period <= Sub32(now, start) && Sub32(now, start) + maxGap < Modulus
    ==> Sub32(ss[0].rise, now) <= maxGap
  }

  /** The slots sent so far in a byte period with bytes `subpix`. */
  ghost predicate PeriodSoFar(ss: seq<Slot>, buses: seq<BusInfo>, subpix: seq<bv8>, budget: CycleBudget,
                              maxGap: nat, start: uint32)
  {
    && |ss| <= 8 && |subpix| == |buses|
    && forall n :: 0 <= n < |ss| ==> BitSlotSent(ss, n, buses, subpix, budget, maxGap, start)
  }

  lemma PeriodSoFarSnoc(ss: seq<Slot>, s: Slot, buses: seq<BusInfo>, subpix: seq<bv8>, budget: CycleBudget,
                        maxGap: nat, start: uint32)
    requires PeriodSoFar(ss, buses, subpix, budget, maxGap, start) && |ss| < 8
    requires SlotCarries(s, buses, subpix, |ss|) && SlotTimed(s, budget, maxGap)
    requires Sub32(s.rise, LastRise(ss, start)) >= budget.period
    ensures PeriodSoFar(ss + [s], buses, subpix, budget, maxGap, start)
    ensures LastRise(ss + [s], start) == s.rise
  {
    var qs := ss + [s];
    forall n | 0 <= n < |qs|
      ensures BitSlotSent(qs, n, buses, subpix, budget, maxGap, start)
    {
      if n < |ss| {
        assert BitSlotSent(ss, n, buses, subpix, budget, maxGap, start);
        assert qs[n] == ss[n];
        if n > 0 {
          assert qs[n - 1] == ss[n - 1];
        }
      } else {
        assert qs[n] == s;
        if n > 0 {
          assert qs[n - 1] == ss[n - 1];
        }
      }
    }
  }

  /** Slot n of the whole run carries bit n % 8 of the bytes of byte period
      n / 8 and rises at least a period after the rising edge before it. */
  ghost predicate SlotSent(ss: seq<Slot>, n: nat, mem: seq<bv8>, buses: seq<BusInfo>, budget: CycleBudget,
                           maxGap: nat, start: uint32)
    requires n < |ss| && Readable(mem, buses)
  {
    && SlotCarries(ss[n], buses, Samples(mem, buses, n / 8), n % 8)
    && SlotTimed(ss[n], budget, maxGap)
    && Sub32(ss[n].rise, PrevRise(ss, n, start)) >= budget.period
  }

  /** The slots of the first `periods` byte periods. */
  ghost predicate Frames(ss: seq<Slot>, mem: seq<bv8>, buses: seq<BusInfo>, periods: nat, budget: CycleBudget,
                         maxGap: nat, start: uint32)
  {
    && Readable(mem, buses)
    && |ss| == 8 * periods
    && forall n :: 0 <= n < |ss| ==> SlotSent(ss, n, mem, buses, budget, maxGap, start)
  }

  /** Eight more slots that carry the bytes of byte period k, timed from
      the last rising edge, extend the frames by that period. */
  lemma FramesNextPeriod(ss: seq<Slot>, mem: seq<bv8>, buses: seq<BusInfo>, k: nat, pss: seq<Slot>,
                         budget: CycleBudget, maxGap: nat, start: uint32)
    requires Frames(ss, mem, buses, k, budget, maxGap, start)
    requires |pss| == 8 && PeriodSoFar(pss, buses, Samples(mem, buses, k), budget, maxGap, LastRise(ss, start))
    ensures Frames(ss + pss, mem, buses, k + 1, budget, maxGap, start)
    ensures LastRise(ss + pss, start) == LastRise(pss, LastRise(ss, start))
  {
    var qs := ss + pss;
    forall n | 0 <= n < |qs|
      ensures SlotSent(qs, n, mem, buses, budget, maxGap, start)
    {
      if n < |ss| {
        assert SlotSent(ss, n, mem, buses, budget, maxGap, start);
        assert qs[n] == ss[n];
        if n > 0 {
          assert qs[n - 1] == ss[n - 1];
        }
      } else {
        var i := n - |ss|;
        SingleBus.DivMod8(k, i);
        assert BitSlotSent(pss, i, buses, Samples(mem, buses, k), budget, maxGap, LastRise(ss, start));
        assert qs[n] == pss[i];
        if i > 0 {
          assert qs[n - 1] == pss[i - 1];
        } else if n > 0 {
          assert qs[n - 1] == ss[|ss| - 1];
        }
      }
    }
    assert qs[|qs| - 1] == pss[|pss| - 1];
  }

  /** The waveform of a whole run: `Periods(buses)` byte periods of eight
      slots; slot n carries bit n % 8 (most significant first) of the bytes
      under the cursors in byte period n / 8; its rising edges are at least
      a period apart. */
  ghost predicate MultiWaveform(ss: seq<Slot>, mem: seq<bv8>, buses: seq<BusInfo>, budget: CycleBudget, maxGap: nat)
  {
    && Readable(mem, buses)
    && |ss| == 8 * Periods(buses)
    && (forall n :: 0 <= n < |ss| ==>
          SlotCarries(ss[n], buses, Samples(mem, buses, n / 8), n % 8) && SlotTimed(ss[n], budget, maxGap))
    && forall n :: 1 <= n < |ss| ==> Sub32(ss[n].rise, ss[n - 1].rise) >= budget.period
  }

  lemma FramesWaveform(ss: seq<Slot>, mem: seq<bv8>, buses: seq<BusInfo>, budget: CycleBudget, maxGap: nat, start: uint32)
    requires Frames(ss, mem, buses, Periods(buses), budget, maxGap, start)
    ensures MultiWaveform(ss, mem, buses, budget, maxGap)
    ensures Sub32(ss[0].rise, start) >= budget.period
  {
    forall n | 0 <= n < |ss|
      ensures SlotCarries(ss[n], buses, Samples(mem, buses, n / 8), n % 8) && SlotTimed(ss[n], budget, maxGap)
    {
      assert SlotSent(ss, n, mem, buses, budget, maxGap, start);
    }
    forall n | 1 <= n < |ss|
      ensures Sub32(ss[n].rise, ss[n - 1].rise) >= budget.period
    {
      assert SlotSent(ss, n, mem, buses, budget, maxGap, start);
    }
    assert SlotSent(ss, 0, mem, buses, budget, maxGap, start);
  }

  /** A slot whose two clears together cover the pins it set. */
  predicate SlotSplits(s: Slot)
  {
    s.ones | s.zeros == s.all
  }

  /** Replaying one more slot applies its three writes in order. */
  lemma ReplaySlotSnoc(out: bv32, init: seq<Slot>, s: Slot)
    ensures Replay(out, SlotEvents(init + [s]))
         == Apply(Apply(Apply(Replay(out, SlotEvents(init)), Write(W1TS, s.all, s.rise)),
                        Write(W1TC, s.zeros, s.clear0)), Write(W1TC, s.ones, s.clear1))
  {
    var before := SlotEvents(init);
    var w0, w1, w2 := Write(W1TS, s.all, s.rise), Write(W1TC, s.zeros, s.clear0), Write(W1TC, s.ones, s.clear1);
    assert (init + [s])[..|init|] == init;
    assert SlotEvents(init + [s]) == before + [w0, w1, w2];
    assert (before + [w0, w1, w2])[..|before| + 2] == before + [w0, w1];
    assert (before + [w0, w1])[..|before| + 1] == before + [w0];
    assert (before + [w0])[..|before|] == before;
    var prior := Replay(out, before);
    assert Replay(out, before + [w0]) == Apply(prior, w0);
    assert Replay(out, before + [w0, w1]) == Apply(Apply(prior, w0), w1);
  }

  /** Replaying the writes of slots that each set the pins `all` and clear
      them in two parts leaves those pins low and every other pin as it was. */
  lemma {:induction false} ReplaySlots(out: bv32, ss: seq<Slot>, all: bv32)
    requires |ss| >= 1
    requires forall n :: 0 <= n < |ss| ==> ss[n].all == all && SlotSplits(ss[n])
    ensures Replay(out, SlotEvents(ss)) == ClearMasked(out, all)
    decreases |ss|
  {
    var init, s := ss[..|ss| - 1], ss[|ss| - 1];
    assert ss == init + [s];
    ReplaySlotSnoc(out, init, s);
    var prior := Replay(out, SlotEvents(init));
    assert SlotSplits(s);
    ClearSplit(prior, all, s.zeros, s.ones);
    if init == [] {
      assert prior == out;
    } else {
      ReplaySlots(out, init, all);
      ClearTwice(out, all);
    }
  }

  /** After every bit of a run the pins of all buses are low and every other
      pin is as it was: replaying the first n slots of the waveform, for any
      n >= 1, gives the output word with `pinRegistersAll` cleared. */
  lemma SlotsLeaveMaskLow(out: bv32, ss: seq<Slot>, mem: seq<bv8>, buses: seq<BusInfo>, budget: CycleBudget,
                          maxGap: nat)
    requires MultiWaveform(ss, mem, buses, budget, maxGap)
    ensures forall n :: 1 <= n <= |ss| ==> Replay(out, SlotEvents(ss[..n])) == ClearMasked(out, AllPins(buses, |buses|))
  {
    var all := AllPins(buses, |buses|);
    forall n | 0 <= n < |ss|
      ensures ss[n].all == all && SlotSplits(ss[n])
    {
      var sp := Samples(mem, buses, n / 8);
      assert SlotCarries(ss[n], buses, sp, n % 8);
      MasksPartition(buses, Bits(sp, BitMask(n % 8)), |buses|);
    }
    forall n | 1 <= n <= |ss|
      ensures Replay(out, SlotEvents(ss[..n])) == ClearMasked(out, all)
    {
      ReplaySlots(out, ss[..n], all);
    }
  }

  /** The output word a whole run leaves: the pins of all buses low. */
  lemma MultiReplay(out: bv32, ss: seq<Slot>, mem: seq<bv8>, buses: seq<BusInfo>, budget: CycleBudget, maxGap: nat)
    requires MultiWaveform(ss, mem, buses, budget, maxGap)
    ensures Replay(out, SlotEvents(ss)) == ClearMasked(out, AllPins(buses, |buses|))
  {
    SlotsLeaveMaskLow(out, ss, mem, buses, budget, maxGap);
    assert ss[..|ss|] == ss;
  }

  // ---------------------------------------------------------------------
  // The receiver's view of one bus.

  /** The counter value at which the pins `reg` go low in slot s: at the
      0-mask clear if that covers them, at the 1-mask clear otherwise. */
  function FallOf(s: Slot, reg: bv32): uint32
  {
    if reg & s.zeros != 0 then s.clear0 else s.clear1
  }

  /** The high times one bus's pins see, slot by slot. */
  function PinWidths(ss: seq<Slot>, reg: bv32): seq<nat>
  {
    seq(|ss|, n requires 0 <= n < |ss| => Sub32(FallOf(ss[n], reg), ss[n].rise))
  }

  /** One slot as bus i sees it: with disjoint, non-empty pin masks and a
      read gap shorter than T1H - T0H, its pins stay high for at least T1H
      exactly when its bit is set. */
  lemma SlotDecodes(s: Slot, buses: seq<BusInfo>, sp: seq<bv8>, j: nat, i: nat, budget: CycleBudget, maxGap: nat)
    requires j < 8 && |sp| == |buses| && i < |buses|
    requires SlotCarries(s, buses, sp, j) && SlotTimed(s, budget, maxGap)
    requires Disjoint(buses) && buses[i].pinRegister != 0
    requires budget.t0h + maxGap < budget.t1h
    ensures (Sub32(FallOf(s, buses[i].pinRegister), s.rise) >= budget.t1h) == BitAt(sp[i], j)
  {
    FallOfBit(s, buses, sp, j, i);
  }

  /** In slot s bus i's pins go low at the 1-mask clear when its bit is set
      and at the 0-mask clear when it is not. */
  lemma FallOfBit(s: Slot, buses: seq<BusInfo>, sp: seq<bv8>, j: nat, i: nat)
    requires j < 8 && |sp| == |buses| && i < |buses|
    requires SlotCarries(s, buses, sp, j)
    requires Disjoint(buses) && buses[i].pinRegister != 0
    ensures FallOf(s, buses[i].pinRegister) == if BitAt(sp[i], j) then s.clear1 else s.clear0
  {
    if BitAt(sp[i], j) {
      FallOfOne(s, buses, sp, j, i);
    } else {
      FallOfZero(s, buses, sp, j, i);
    }
  }

  lemma FallOfOne(s: Slot, buses: seq<BusInfo>, sp: seq<bv8>, j: nat, i: nat)
    requires j < 8 && |sp| == |buses| && i < |buses|
    requires SlotCarries(s, buses, sp, j)
    requires Disjoint(buses) && BitAt(sp[i], j)
    ensures FallOf(s, buses[i].pinRegister) == s.clear1
  {
    ZerosExact(buses, Bits(sp, BitMask(j)), |buses|, i);
    FallAtClear1(s, buses[i].pinRegister);
  }

  lemma FallOfZero(s: Slot, buses: seq<BusInfo>, sp: seq<bv8>, j: nat, i: nat)
    requires j < 8 && |sp| == |buses| && i < |buses|
    requires SlotCarries(s, buses, sp, j)
    requires buses[i].pinRegister != 0 && !BitAt(sp[i], j)
    ensures FallOf(s, buses[i].pinRegister) == s.clear0
  {
    ZerosCover(buses, Bits(sp, BitMask(j)), |buses|, i);
    FallAtClear0(s, buses[i].pinRegister);
  }

  /** Pins outside the 0-mask go low at the 1-mask clear. */
  lemma FallAtClear1(s: Slot, reg: bv32)
    requires reg & s.zeros == 0
    ensures FallOf(s, reg) == s.clear1
  {
  }

  /** Non-empty pins inside the 0-mask go low at the 0-mask clear. */
  lemma FallAtClear0(s: Slot, reg: bv32)
    requires reg != 0 && reg & s.zeros == reg
    ensures FallOf(s, reg) == s.clear0
  {
  }

  /** Pins `reg` lie inside `all`, and outside `zeros` when `high`, inside it otherwise. */
  predicate PinsPlaced(reg: bv32, all: bv32, zeros: bv32, high: bool)
  {
    && reg & all == reg
    && (high ==> reg & zeros == 0)
    && (!high ==> reg & zeros == reg)
  }

  /** In the word `w`, the pins `reg` are all high when `high` and all low otherwise. */
  predicate PinsLevel(w: bv32, reg: bv32, high: bool)
  {
    && (high ==> w & reg == reg)
    && (!high ==> w & reg == 0)
  }

  /** Set the pins `all`, then clear `zeros`: placed pins are high when
      `high` and low otherwise. */
  lemma LevelAfterSplit(out: bv32, all: bv32, zeros: bv32, reg: bv32, high: bool)
    requires PinsPlaced(reg, all, zeros, high)
    ensures high ==> ClearMasked(SetMasked(out, all), zeros) & reg == reg
    ensures !high ==> ClearMasked(SetMasked(out, all), zeros) & reg == 0
  {
    if high {
      HighAfterSplit(out, all, zeros, reg);
    } else {
      LowAfterSplit(out, all, zeros, reg);
    }
  }

  lemma HighAfterSplit(out: bv32, all: bv32, zeros: bv32, reg: bv32)
    requires reg & all == reg && reg & zeros == 0
    ensures ClearMasked(SetMasked(out, all), zeros) & reg == reg
  {
  }

  lemma LowAfterSplit(out: bv32, all: bv32, zeros: bv32, reg: bv32)
    requires reg & zeros == reg
    ensures ClearMasked(SetMasked(out, all), zeros) & reg == 0
  {
  }

  /** Each bus's pins are among the pins of the first n buses, for n above it. */
  lemma {:induction false} AllCover(buses: seq<BusInfo>, n: nat, i: nat)
    requires n <= |buses| && i < n
    ensures buses[i].pinRegister & AllPins(buses, n) == buses[i].pinRegister
  {
    if i < n - 1 {
      AllCover(buses, n - 1, i);
    }
  }

  /** Where bus i's pins lie in slot s: inside `all`, and inside `zeros`
      exactly when its bit is clear. */
  lemma SlotPins(s: Slot, buses: seq<BusInfo>, sp: seq<bv8>, j: nat, i: nat)
    requires j < 8 && |sp| == |buses| && i < |buses|
    requires SlotCarries(s, buses, sp, j) && Disjoint(buses)
    ensures PinsPlaced(buses[i].pinRegister, s.all, s.zeros, BitAt(sp[i], j))
  {
    AllCover(buses, |buses|, i);
    if BitAt(sp[i], j) {
      SlotPinsOne(s, buses, sp, j, i);
    } else {
      SlotPinsZero(s, buses, sp, j, i);
    }
  }

  lemma SlotPinsOne(s: Slot, buses: seq<BusInfo>, sp: seq<bv8>, j: nat, i: nat)
    requires j < 8 && |sp| == |buses| && i < |buses|
    requires SlotCarries(s, buses, sp, j) && Disjoint(buses) && BitAt(sp[i], j)
    ensures buses[i].pinRegister & s.zeros == 0
  {
    ZerosExact(buses, Bits(sp, BitMask(j)), |buses|, i);
  }

  lemma SlotPinsZero(s: Slot, buses: seq<BusInfo>, sp: seq<bv8>, j: nat, i: nat)
    requires j < 8 && |sp| == |buses| && i < |buses|
    requires SlotCarries(s, buses, sp, j) && !BitAt(sp[i], j)
    ensures buses[i].pinRegister & s.zeros == buses[i].pinRegister
  {
    ZerosCover(buses, Bits(sp, BitMask(j)), |buses|, i);
  }

  /** The first 3n + 2 writes of a run: the slots before n, then the set and
      the 0-mask clear of slot n. */
  lemma SlotEventsPrefix(ss: seq<Slot>, n: nat)
    requires n < |ss|
    ensures SlotEvents(ss)[..3 * n + 2]
            == SlotEvents(ss[..n]) + [Write(W1TS, ss[n].all, ss[n].rise), Write(W1TC, ss[n].zeros, ss[n].clear0)]
  {
    var head, tail := ss[..n + 1], ss[n + 1..];
    var before := SlotEvents(ss[..n]);
    var w0, w1, w2 := Write(W1TS, ss[n].all, ss[n].rise), Write(W1TC, ss[n].zeros, ss[n].clear0),
                      Write(W1TC, ss[n].ones, ss[n].clear1);
    var mid := before + [w0, w1];
    assert head[..n] == ss[..n] && head[n] == ss[n];
    assert SlotEvents(head) == mid + [w2];
    TakeDrop(ss, n + 1);
    SlotEventsAppend(head, tail);
    assert SlotEvents(ss) == SlotEvents(head) + SlotEvents(tail);
    assert |mid| == 3 * n + 2;
    PrefixOfAppend(SlotEvents(head), SlotEvents(tail), 3 * n + 2);
    PrefixOfAppend(mid, [w2], 3 * n + 2);
    assert mid[..3 * n + 2] == mid;
  }

  /** A sequence is its first k elements followed by the rest. */
  lemma TakeDrop<T>(s: seq<T>, k: nat)
    requires k <= |s|
    ensures s[..k] + s[k..] == s
  {
  }

  /** A prefix no longer than a is a prefix of a. */
  lemma PrefixOfAppend<T>(a: seq<T>, b: seq<T>, k: nat)
    requires k <= |a|
    ensures (a + b)[..k] == a[..k]
  {
  }

  /** Replaying two more writes applies them in order. */
  lemma ReplayTwo(out: bv32, before: seq<Write>, w0: Write, w1: Write)
    ensures Replay(out, before + [w0, w1]) == Apply(Apply(Replay(out, before), w0), w1)
  {
    ReplaySnoc(out, before, w0);
    ReplaySnoc(out, before + [w0], w1);
    assert before + [w0] + [w1] == before + [w0, w1];
  }

  /** Replaying one more write applies it last. */
  lemma ReplaySnoc(out: bv32, before: seq<Write>, w: Write)
    ensures Replay(out, before + [w]) == Apply(Replay(out, before), w)
  {
    assert (before + [w])[..|before|] == before;
  }

  /** The GPIO word in the middle of bit n of a run: after the first 3n + 2
      writes, bus i's pins are high exactly when the bit it sends there is
      set, so its pins fall at the 0-mask clear exactly for a 0 bit. */
  lemma BusLevelMidSlot(out: bv32, ss: seq<Slot>, mem: seq<bv8>, buses: seq<BusInfo>, budget: CycleBudget,
                        maxGap: nat, n: nat, i: nat)
    requires MultiWaveform(ss, mem, buses, budget, maxGap)
    requires Disjoint(buses) && i < |buses| && n < |ss|
    ensures PinsLevel(Replay(out, SlotEvents(ss)[..3 * n + 2]), buses[i].pinRegister,
                      BitAt(Samples(mem, buses, n / 8)[i], n % 8))
  {
    var sp := Samples(mem, buses, n / 8);
    assert SlotCarries(ss[n], buses, sp, n % 8);
    CarriedMidSlot(out, ss, buses, sp, n, i);
  }

  /** The same for one slot that carries the samples `sp`. */
  lemma CarriedMidSlot(out: bv32, ss: seq<Slot>, buses: seq<BusInfo>, sp: seq<bv8>, n: nat, i: nat)
    requires n < |ss| && |sp| == |buses| && SlotCarries(ss[n], buses, sp, n % 8)
    requires Disjoint(buses) && i < |buses|
    ensures PinsLevel(Replay(out, SlotEvents(ss)[..3 * n + 2]), buses[i].pinRegister, BitAt(sp[i], n % 8))
  {
    var reg, high := buses[i].pinRegister, BitAt(sp[i], n % 8);
    assert PinsPlaced(reg, ss[n].all, ss[n].zeros, high) by {
      SlotPins(ss[n], buses, sp, n % 8, i);
    }
    PlacedMidSlot(out, ss, n, reg, high);
  }

  /** After the first 3n + 2 writes of a run, pins placed by slot n are high
      when `high` and low otherwise. */
  lemma PlacedMidSlot(out: bv32, ss: seq<Slot>, n: nat, reg: bv32, high: bool)
    requires n < |ss| && PinsPlaced(reg, ss[n].all, ss[n].zeros, high)
    ensures PinsLevel(Replay(out, SlotEvents(ss)[..3 * n + 2]), reg, high)
  {
    var s := ss[n];
    var prior := Replay(out, SlotEvents(ss[..n]));
    SlotEventsPrefix(ss, n);
    ReplayTwo(out, SlotEvents(ss[..n]), Write(W1TS, s.all, s.rise), Write(W1TC, s.zeros, s.clear0));
    assert Replay(out, SlotEvents(ss)[..3 * n + 2]) == ClearMasked(SetMasked(prior, s.all), s.zeros);
    LevelAfterSplit(prior, s.all, s.zeros, reg, high);
  }

  /** Round trip per bus: when the buses drive disjoint, non-empty pin
      masks and a read gap is shorter than T1H - T0H, decoding the high
      times bus i sees (at least T1H reads as 1) gives back the bytes under
      bus i's cursor, one per byte period. */
  lemma BusRoundTrip(ss: seq<Slot>, mem: seq<bv8>, buses: seq<BusInfo>, budget: CycleBudget, maxGap: nat, i: nat)
    requires MultiWaveform(ss, mem, buses, budget, maxGap)
    requires Disjoint(buses) && i < |buses| && buses[i].pinRegister != 0
    requires budget.t0h + maxGap < budget.t1h
    ensures SingleBus.DecodeBytes(PinWidths(ss, buses[i].pinRegister), budget.t1h)
            == BusStream(mem, buses, i, Periods(buses))
  {
    var ws := PinWidths(ss, buses[i].pinRegister);
    var bytes := BusStream(mem, buses, i, Periods(buses));
    forall n | 0 <= n < |ws|
      ensures (ws[n] >= budget.t1h) == BitAt(bytes[n / 8], n % 8)
    {
      var sp := Samples(mem, buses, n / 8);
      assert SlotCarries(ss[n], buses, sp, n % 8) && SlotTimed(ss[n], budget, maxGap);
      assert bytes[n / 8] == sp[i];
      SlotDecodes(ss[n], buses, sp, n % 8, i, budget, maxGap);
    }
    SingleBus.DecodeByThreshold(ws, bytes, budget.t1h);
  }

  /** Two buses of one and three bytes: four byte periods, 96 register
      writes; the short bus repeats the byte at its end. */
  lemma ScenarioTwoBuses()
    ensures var mem: seq<bv8> := [0x11, 0x22, 0x33, 0x44, 0x55, 0x66];
            var buses := [BusInfo(0, 1, 0x10), BusInfo(2, 5, 0x20)];
            && Readable(mem, buses)
            && Periods(buses) == 4
            && 24 * Periods(buses) == 96
            && BusStream(mem, buses, 0, 4) == [0x11, 0x22, 0x22, 0x22]
            && BusStream(mem, buses, 1, 4) == [0x33, 0x44, 0x55, 0x66]
            && AllPins(buses, 2) == 0x30
  {
    var mem: seq<bv8> := [0x11, 0x22, 0x33, 0x44, 0x55, 0x66];
    var buses := [BusInfo(0, 1, 0x10), BusInfo(2, 5, 0x20)];
    assert Readable(mem, buses) by {
      assert LastCursor(buses, 0) == 1 && LastCursor(buses, 1) == 5;
    }
    assert MaxLen(buses, 2) == 3;
    var s0, s1 := BusStream(mem, buses, 0, 4), BusStream(mem, buses, 1, 4);
    assert s0[0] == 0x11 && s0[1] == 0x22 && s0[2] == 0x22 && s0[3] == 0x22;
    assert s1[0] == 0x33 && s1[1] == 0x44 && s1[2] == 0x55 && s1[3] == 0x66;
  }

  // ---------------------------------------------------------------------
  // The encoder.

  /** Cursor i in the middle of byte period k, before bit j: the buses
      before j have had their turn. */
  function CursorMid(buses: seq<BusInfo>, i: nat, k: nat, j: nat): nat
    requires i < |buses|
  {
    if i < j then CursorAt(buses, i, k + 1) else CursorAt(buses, i, k)
  }

  /** The cursor array `pixels[]` before bit j of byte period k. */
  ghost predicate CursorsAt(cs: seq<nat>, buses: seq<BusInfo>, k: nat, j: nat)
  {
    |cs| == |buses| && forall i :: 0 <= i < |cs| ==> cs[i] == CursorMid(buses, i, k, j)
  }

  /** After the eight bits of period k the cursors are those of period k + 1. */
  lemma CursorsNextPeriod(cs: seq<nat>, buses: seq<BusInfo>, k: nat)
    requires CursorsAt(cs, buses, k, 8)
    ensures CursorsAt(cs, buses, k + 1, 0)
  {
  }

  /** The set-up loop: the cursors start at each bus's `pixels`, and
      `pinRegistersAll` collects the pin masks of all buses. */
  method InitBuses(buses: seq<BusInfo>) returns (cursors: array<nat>, pinRegistersAll: bv32)
    requires |buses| < 256
    ensures fresh(cursors)
    ensures CursorsAt(cursors[..], buses, 0, 0)
    ensures pinRegistersAll == AllPins(buses, |buses|)
  {
    cursors := new nat[|buses|];
    pinRegistersAll := 0;
    var indexBus := 0;
    while indexBus < |buses|
      invariant indexBus <= |buses|
      invariant forall i :: 0 <= i < indexBus ==> cursors[i] == buses[i].pixels
      invariant pinRegistersAll == AllPins(buses, indexBus)
    {
      cursors[indexBus] := buses[indexBus].pixels;
      pinRegistersAll := pinRegistersAll | buses[indexBus].pinRegister;
      indexBus := indexBus + 1;
    }
  }

  /** `subpix[indexBus] = *pixels[indexBus]` for every bus: at the start of
      byte period k this loads the bytes under the cursors. */
  method LoadSubpixels(mem: seq<bv8>, buses: seq<BusInfo>, cursors: array<nat>, subpix: array<bv8>, ghost k: nat)
    requires Readable(mem, buses)
    requires subpix.Length == |buses| && cursors as object != subpix
    requires CursorsAt(cursors[..], buses, k, 0)
    modifies subpix
    ensures subpix[..] == Samples(mem, buses, k)
  {
    var indexBus := 0;
    while indexBus < subpix.Length
      invariant indexBus <= subpix.Length
      invariant forall i :: 0 <= i < indexBus ==> subpix[i] == mem[CursorAt(buses, i, k)]
    {
      assert cursors[..][indexBus] == CursorMid(buses, indexBus, k, 0);
      subpix[indexBus] := mem[cursors[indexBus]];
      indexBus := indexBus + 1;
    }
    assert subpix[..] == Samples(mem, buses, k);
  }

  /** The mask loop: split the pins into the buses whose bit under `bitMask`
      is 1 and those whose bit is 0. */
  method SplitMasks(buses: seq<BusInfo>, subpix: array<bv8>, bitMask: bv8)
    returns (pinRegisters1Bit: bv32, pinRegisters0Bit: bv32)
    requires subpix.Length == |buses|
    ensures pinRegisters1Bit == OnesMask(buses, Bits(subpix[..], bitMask), |buses|)
    ensures pinRegisters0Bit == ZerosMask(buses, Bits(subpix[..], bitMask), |buses|)
    ensures pinRegisters1Bit | pinRegisters0Bit == AllPins(buses, |buses|)
  {
    ghost var bits := Bits(subpix[..], bitMask);
    pinRegisters1Bit, pinRegisters0Bit := 0, 0;
    var indexBus := 0;
    while indexBus < |buses|
      invariant indexBus <= |buses|
      invariant pinRegisters1Bit == OnesMask(buses, bits, indexBus)
      invariant pinRegisters0Bit == ZerosMask(buses, bits, indexBus)
    {
      pinRegisters1Bit, pinRegisters0Bit := SplitOne(buses, subpix, bitMask, indexBus, pinRegisters1Bit, pinRegisters0Bit);
      indexBus := indexBus + 1;
    }
    MasksPartition(buses, bits, |buses|);
  }

  /** The body of the mask loop for bus `indexBus`: its pins join the 1-mask
      if its bit is set and the 0-mask if not. */
  method SplitOne(buses: seq<BusInfo>, subpix: array<bv8>, bitMask: bv8, indexBus: nat, ones: bv32, zeros: bv32)
    returns (ones': bv32, zeros': bv32)
    requires subpix.Length == |buses| && indexBus < |buses|
    requires ones == OnesMask(buses, Bits(subpix[..], bitMask), indexBus)
    requires zeros == ZerosMask(buses, Bits(subpix[..], bitMask), indexBus)
    ensures ones' == OnesMask(buses, Bits(subpix[..], bitMask), indexBus + 1)
    ensures zeros' == ZerosMask(buses, Bits(subpix[..], bitMask), indexBus + 1)
  {
    ghost var bits := Bits(subpix[..], bitMask);
    ones', zeros' := ones, zeros;
    var pinRegister := buses[indexBus].pinRegister;
    assert bits[indexBus] == HasBit(subpix[indexBus], bitMask);
    if HasBit(subpix[indexBus], bitMask) {
      OnesJoin(buses, bits, indexBus);
      ZerosStay(buses, bits, indexBus);
      ones' := ones | pinRegister;
    } else {
      OnesStay(buses, bits, indexBus);
      ZerosJoin(buses, bits, indexBus);
      zeros' := zeros | pinRegister;
    }
  }

  /** The first half of a bit: wait a period from the previous rising edge,
      set all pins, wait T0H from that edge, clear the 0-mask. */
  method SendSlotHigh(clock: CycleClock, gpio: Gpio, pinRegistersAll: bv32, pinRegisters0Bit: bv32,
                      budget: CycleBudget, cyclesNext: uint32)
    returns (rise: uint32, clear0: uint32)
    requires clock.Valid()
    requires budget.t0h <= budget.period && budget.period + clock.maxGap < Modulus
    modifies clock, gpio
    ensures clear0 == clock.now
    ensures Sub32(rise, cyclesNext) >= budget.period
    ensures budget.t0h <= Sub32(clear0, rise) <= budget.t0h + clock.maxGap
    ensures gpio.trace == old(gpio.trace) + [Write(W1TS, pinRegistersAll, rise), Write(W1TC, pinRegisters0Bit, clear0)]
    ensures gpio.out == ClearMasked(SetMasked(old(gpio.out), pinRegistersAll), pinRegisters0Bit)
    ensures budget.period <= Sub32(old(clock.now), cyclesNext) &&
            Sub32(old(clock.now), cyclesNext) + clock.maxGap < Modulus
            ==> Sub32(rise, old(clock.now)) <= clock.maxGap
  {
    // Rising edge: one period after the previous one.
    rise := WaitUntil(clock, cyclesNext, budget.period);
    gpio.SetBits(pinRegistersAll, clock);
    // Falling edge of the buses sending 0, T0H after the rise.
    clear0 := WaitUntil(clock, rise, budget.t0h);
    gpio.ClearBits(pinRegisters0Bit, clock);
  }

  /** The second half of a bit: wait T1H from the rising edge, clear the 1-mask. */
  method SendSlotLow(clock: CycleClock, gpio: Gpio, pinRegisters1Bit: bv32, budget: CycleBudget, rise: uint32)
    returns (clear1: uint32)
    requires clock.Valid()
    requires budget.t1h + clock.maxGap < Modulus
    modifies clock, gpio
    ensures clear1 == clock.now
    ensures budget.t1h <= Sub32(clear1, rise)
    ensures Sub32(old(clock.now), rise) <= budget.t1h ==> Sub32(clear1, rise) <= budget.t1h + clock.maxGap
    ensures gpio.trace == old(gpio.trace) + [Write(W1TC, pinRegisters1Bit, clear1)]
    ensures gpio.out == ClearMasked(old(gpio.out), pinRegisters1Bit)
  {
    // Falling edge of the buses sending 1, T1H after the rise.
    clear1 := WaitUntil(clock, rise, budget.t1h);
    gpio.ClearBits(pinRegisters1Bit, clock);
  }

  /** The spare-time step between the two clears of bit j: if bus j exists,
      move its cursor when it is below the bus's end, and go on to the next bus. */
  method AdvanceCursor(buses: seq<BusInfo>, cursors: array<nat>, indexNextBus: nat, morePixels: bool,
                       ghost k: nat, ghost j: nat)
    returns (indexNext: nat, more: bool)
    requires j < 8 && indexNextBus == Min(j, |buses|)
    requires CursorsAt(cursors[..], buses, k, j)
    requires morePixels == AnyBefore(buses, k, j)
    modifies cursors
    ensures CursorsAt(cursors[..], buses, k, j + 1)
    ensures indexNext == Min(j + 1, |buses|)
    ensures more == AnyBefore(buses, k, j + 1)
  {
    indexNext, more := indexNextBus, morePixels;
    if indexNextBus < |buses| {
      CursorNext(buses, j, k);
      if cursors[indexNextBus] < buses[indexNextBus].end {
        cursors[indexNextBus] := cursors[indexNextBus] + 1;
        more := true;
      }
      indexNext := indexNextBus + 1;
    }
  }

  /** One pass of the `bitMask` loop: split the pins by the bit under
      `bitMask`, send the bit, and in the spare time between the two clears
      let bus j take its turn. `ss` are the slots of the bits before, `sp`
      the bytes of this byte period, `start` the reference the period was
      timed from, and `trace0`, `out0` and `now0` the trace, the output word
      and the counter before the period. */
  method SendNextSlot(clock: CycleClock, gpio: Gpio, buses: seq<BusInfo>, cursors: array<nat>, subpix: array<bv8>,
                      pinRegistersAll: bv32, budget: CycleBudget, cyclesStart: uint32, bitMask: bv8,
                      indexNextBus: nat, morePixels: bool,
                      ghost k: nat, ghost j: nat, ghost ss: seq<Slot>, ghost sp: seq<bv8>,
                      ghost start: uint32, ghost trace0: seq<Write>, ghost out0: bv32, ghost now0: uint32)
    returns (cyclesNext: uint32, nextMask: bv8, indexNext: nat, more: bool, ghost qs: seq<Slot>)
    requires clock.Valid()
    requires budget.t0h <= budget.t1h <= budget.period
    requires budget.period + clock.maxGap < Modulus
    requires j < 8 && |ss| == j && bitMask == BitMask(j)
    requires subpix.Length == |buses| && subpix[..] == sp
    requires pinRegistersAll == AllPins(buses, |buses|)
    requires PeriodSoFar(ss, buses, sp, budget, clock.maxGap, start)
    requires cyclesStart == LastRise(ss, start)
    requires gpio.trace == trace0 + SlotEvents(ss)
    requires gpio.out == if j == 0 then out0 else ClearMasked(out0, pinRegistersAll)
    requires j == 0 ==> clock.now == now0
    requires indexNextBus == Min(j, |buses|) && morePixels == AnyBefore(buses, k, j)
    requires CursorsAt(cursors[..], buses, k, j)
    modifies clock, gpio, cursors
    ensures clock.Valid()
    ensures |qs| == j + 1 && nextMask == BitMask(j + 1)
    ensures j + 1 < 8 ==> nextMask != 0
    ensures PeriodSoFar(qs, buses, sp, budget, clock.maxGap, start)
    ensures cyclesNext == LastRise(qs, start)
    ensures gpio.trace == trace0 + SlotEvents(qs)
    ensures gpio.out == ClearMasked(out0, pinRegistersAll)
    ensures j > 0 ==> qs[0] == ss[0]
    ensures j == 0 ==> PromptFirst(qs, now0, start, budget.period, clock.maxGap)
    ensures indexNext == Min(j + 1, |buses|) && more == AnyBefore(buses, k, j + 1)
    ensures CursorsAt(cursors[..], buses, k, j + 1)
  {
    BitMaskStep(j, bitMask);
    // Split the pins by the current bit of each bus.
    var pinRegisters1Bit, pinRegisters0Bit := SplitMasks(buses, subpix, bitMask);
    ghost var outBefore := gpio.out;
    var rise, clear0 := SendSlotHigh(clock, gpio, pinRegistersAll, pinRegisters0Bit, budget, cyclesStart);
    // Between the two falling edges, bus j may step its cursor.
    indexNext, more := AdvanceCursor(buses, cursors, indexNextBus, morePixels, k, j);
    var clear1 := SendSlotLow(clock, gpio, pinRegisters1Bit, budget, rise);
    ClearSplit(outBefore, pinRegistersAll, pinRegisters0Bit, pinRegisters1Bit);
    if j > 0 {
      ClearTwice(out0, pinRegistersAll);
    }
    var s := Slot(pinRegistersAll, pinRegisters0Bit, pinRegisters1Bit, rise, clear0, clear1);
    SlotTraceSnoc(trace0, ss, s);
    PeriodSoFarSnoc(ss, s, buses, sp, budget, clock.maxGap, start);
    SingleBus.FirstOfAppend(ss, [s]);
    qs := ss + [s];
    cyclesNext := rise;
    nextMask := NextBitMask(bitMask);
  }

  /** One byte period: load the byte under each cursor into `subpix`, then
      send its eight bits timed from the rising edge `start`. Returns the
      last rising edge and `morePixels`. */
  method SendPeriod(clock: CycleClock, gpio: Gpio, buses: seq<BusInfo>, mem: seq<bv8>, cursors: array<nat>,
                    subpix: array<bv8>, pinRegistersAll: bv32, budget: CycleBudget, start: uint32, ghost k: nat)
    returns (cyclesStart: uint32, morePixels: bool, ghost ps: seq<Slot>)
    requires clock.Valid()
    requires budget.t0h <= budget.t1h <= budget.period
    requires budget.period + clock.maxGap < Modulus
    requires Readable(mem, buses)
    requires subpix.Length == |buses| && cursors as object != subpix
    requires CursorsAt(cursors[..], buses, k, 0)
    requires pinRegistersAll == AllPins(buses, |buses|)
    modifies clock, gpio, cursors, subpix
    ensures clock.Valid()
    ensures |ps| == 8
    ensures PeriodSoFar(ps, buses, Samples(mem, buses, k), budget, clock.maxGap, start)
    ensures cyclesStart == LastRise(ps, start)
    ensures gpio.trace == old(gpio.trace) + SlotEvents(ps)
    ensures gpio.out == ClearMasked(old(gpio.out), pinRegistersAll)
    ensures PromptFirst(ps, old(clock.now), start, budget.period, clock.maxGap)
    ensures CursorsAt(cursors[..], buses, k + 1, 0)
    ensures morePixels == AnyBefore(buses, k, 8)
  {
    LoadSubpixels(mem, buses, cursors, subpix, k);
    cyclesStart, morePixels, ps := SendBits(clock, gpio, buses, cursors, subpix, pinRegistersAll, budget, start,
                                            k, Samples(mem, buses, k));
    CursorsNextPeriod(cursors[..], buses, k);
  }

  /** The `bitMask` loop of a byte period: the eight bits of the bytes `sp`
      held in `subpix`, timed from the rising edge `start`. */
  method SendBits(clock: CycleClock, gpio: Gpio, buses: seq<BusInfo>, cursors: array<nat>, subpix: array<bv8>,
                  pinRegistersAll: bv32, budget: CycleBudget, start: uint32, ghost k: nat, ghost sp: seq<bv8>)
    returns (cyclesStart: uint32, morePixels: bool, ghost ps: seq<Slot>)
    requires clock.Valid()
    requires budget.t0h <= budget.t1h <= budget.period
    requires budget.period + clock.maxGap < Modulus
    requires subpix.Length == |buses| && cursors as object != subpix && subpix[..] == sp
    requires CursorsAt(cursors[..], buses, k, 0)
    requires pinRegistersAll == AllPins(buses, |buses|)
    modifies clock, gpio, cursors
    ensures clock.Valid()
    ensures |ps| == 8
    ensures PeriodSoFar(ps, buses, sp, budget, clock.maxGap, start)
    ensures cyclesStart == LastRise(ps, start)
    ensures gpio.trace == old(gpio.trace) + SlotEvents(ps)
    ensures gpio.out == ClearMasked(old(gpio.out), pinRegistersAll)
    ensures PromptFirst(ps, old(clock.now), start, budget.period, clock.maxGap)
    ensures CursorsAt(cursors[..], buses, k, 8)
    ensures morePixels == AnyBefore(buses, k, 8)
  {
    ghost var now0, out0, trace0 := clock.now, gpio.out, gpio.trace;
    var indexNextBus := 0;
    morePixels := false;
    var bitMask: bv8 := 0x80;
    ghost var j := 0;
    cyclesStart := start;
    ps := [];
    while bitMask != 0
      modifies clock, gpio, cursors
      invariant j <= 8 && |ps| == j
      invariant bitMask == BitMask(j)
      invariant j < 8 ==> bitMask != 0
      invariant clock.Valid()
      invariant PeriodSoFar(ps, buses, sp, budget, clock.maxGap, start)
      invariant cyclesStart == LastRise(ps, start)
      invariant gpio.trace == trace0 + SlotEvents(ps)
      invariant gpio.out == if j == 0 then out0 else ClearMasked(out0, pinRegistersAll)
      invariant j == 0 ==> clock.now == now0
      invariant j > 0 ==> PromptFirst(ps, now0, start, budget.period, clock.maxGap)
      invariant indexNextBus == Min(j, |buses|) && morePixels == AnyBefore(buses, k, j)
      invariant CursorsAt(cursors[..], buses, k, j)
      decreases 8 - j
    {
      cyclesStart, bitMask, indexNextBus, morePixels, ps :=
        SendNextSlot(clock, gpio, buses, cursors, subpix, pinRegistersAll, budget, cyclesStart, bitMask,
                     indexNextBus, morePixels, k, j, ps, sp, start, trace0, out0, now0);
      j := j + 1;
    }
  }

  /** One pass of the byte-period loop. `done` are the slots of the periods
      before, `start` the reference the first period was timed from, and
      `trace0` and `out0` the trace and the output word before the first. */
  method SendNextPeriod(clock: CycleClock, gpio: Gpio, buses: seq<BusInfo>, mem: seq<bv8>, cursors: array<nat>,
                        subpix: array<bv8>, pinRegistersAll: bv32, budget: CycleBudget, cyclesStart: uint32,
                        ghost k: nat, ghost done: seq<Slot>, ghost start: uint32, ghost trace0: seq<Write>,
                        ghost out0: bv32)
    returns (cyclesNext: uint32, morePixels: bool, ghost ss: seq<Slot>)
    requires clock.Valid()
    requires budget.t0h <= budget.t1h <= budget.period
    requires budget.period + clock.maxGap < Modulus
    requires subpix.Length == |buses| && cursors as object != subpix
    requires pinRegistersAll == AllPins(buses, |buses|)
    requires Frames(done, mem, buses, k, budget, clock.maxGap, start)
    requires cyclesStart == LastRise(done, start)
    requires gpio.trace == trace0 + SlotEvents(done)
    requires gpio.out == if done == [] then out0 else ClearMasked(out0, pinRegistersAll)
    requires CursorsAt(cursors[..], buses, k, 0)
    modifies clock, gpio, cursors, subpix
    ensures clock.Valid()
    ensures Frames(ss, mem, buses, k + 1, budget, clock.maxGap, start)
    ensures cyclesNext == LastRise(ss, start)
    ensures gpio.trace == trace0 + SlotEvents(ss)
    ensures gpio.out == ClearMasked(out0, pinRegistersAll)
    ensures |ss| == |done| + 8 && (done != [] ==> ss[0] == done[0])
    ensures done == [] ==> PromptFirst(ss, old(clock.now), start, budget.period, clock.maxGap)
    ensures CursorsAt(cursors[..], buses, k + 1, 0)
    ensures morePixels == AnyBefore(buses, k, 8)
  {
    ghost var pss;
    cyclesNext, morePixels, pss := SendPeriod(clock, gpio, buses, mem, cursors, subpix, pinRegistersAll, budget,
                                              cyclesStart, k);
    if done != [] {
      ClearTwice(out0, pinRegistersAll);
    }
    FramesNextPeriod(done, mem, buses, k, pss, budget, clock.maxGap, start);
    SlotTraceAppend(trace0, done, pss);
    SingleBus.FirstOfAppend(done, pss);
    ss := done + pss;
  }

  /** `send_multibus_pixels_800`. A do-while loop over byte periods that
      goes on while some cursor moved: it runs one byte period more than the
      longest of the first eight buses, re-reading the byte at each bus's
      `end`, and it runs one period even when every bus is empty. */
  method SendMultibus800(clock: CycleClock, gpio: Gpio, mem: seq<bv8>, buses: seq<BusInfo>, fcpu: nat)
    returns (ghost ss: seq<Slot>)
    requires |buses| < 256
    requires Readable(mem, buses)
    requires clock.Valid() && Budget800(fcpu).period + clock.maxGap < Modulus
    modifies clock, gpio
    ensures MultiWaveform(ss, mem, buses, Budget800(fcpu), clock.maxGap)
    ensures gpio.trace == old(gpio.trace) + SlotEvents(ss)
    ensures |gpio.trace| == |old(gpio.trace)| + 24 * Periods(buses)
    ensures gpio.out == ClearMasked(old(gpio.out), AllPins(buses, |buses|))
    ensures gpio.out == Replay(old(gpio.out), SlotEvents(ss))
    ensures Sub32(ss[0].rise, old(clock.now)) <= 2 * clock.maxGap
  {
    var budget := Budget800(fcpu);
    ghost var now0, out0, trace0 := clock.now, gpio.out, gpio.trace;
    var subpix := new bv8[|buses|];
    var cursors, pinRegistersAll := InitBuses(buses);
    // Time the first rise from one period before now, so that it is not delayed.
    var now := clock.Read();
    var cyclesStart := Sub32(now, budget.period);
    ghost var start := cyclesStart;
    ghost var k := 0;
    // The do-while loop: the first pass runs before the test.
    SubBack(now, budget.period);
    var morePixels;
    cyclesStart, morePixels, ss := SendNextPeriod(clock, gpio, buses, mem, cursors, subpix, pinRegistersAll, budget,
                                                  cyclesStart, k, [], start, trace0, out0);
    SubChain(now0, now, ss[0].rise);
    MorePixelsIff(buses, k);
    while morePixels
      invariant k + 1 <= Periods(buses) && morePixels == (k + 1 < Periods(buses))
      invariant clock.Valid()
      invariant Frames(ss, mem, buses, k + 1, budget, clock.maxGap, start)
      invariant cyclesStart == LastRise(ss, start)
      invariant gpio.trace == trace0 + SlotEvents(ss)
      invariant gpio.out == ClearMasked(out0, pinRegistersAll)
      invariant ss != [] && Sub32(ss[0].rise, now0) <= 2 * clock.maxGap
      invariant CursorsAt(cursors[..], buses, k + 1, 0)
      decreases Periods(buses) - k
    {
      k := k + 1;
      cyclesStart, morePixels, ss := SendNextPeriod(clock, gpio, buses, mem, cursors, subpix, pinRegistersAll, budget,
                                                    cyclesStart, k, ss, start, trace0, out0);
      MorePixelsIff(buses, k);
    }
    assert k + 1 == Periods(buses);
    FramesWaveform(ss, mem, buses, budget, clock.maxGap, start);
    MultiReplay(out0, ss, mem, buses, budget, clock.maxGap);
  }
}
