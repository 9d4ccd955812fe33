/** The GPIO output register as the encoders drive it: `GPIO_REG_WRITE` to
    `GPIO_OUT_W1TS_ADDRESS` (write one to set) and `GPIO_OUT_W1TC_ADDRESS`
    (write one to clear). Besides the 32-bit output word the model keeps a
    trace of every write, stamped with the counter value last read. */
module GpioPort {
  import opened Words
  import opened CycleCounter

  datatype Register = W1TS | W1TC

  /** One register write: which register, the mask written, and the counter
      value at that moment. */
  datatype Write = Write(reg: Register, mask: bv32, at: uint32)

  /** Writing a mask to W1TS: the pins in the mask go high. */
  function SetMasked(out: bv32, mask: bv32): bv32
  {
    out | mask
  }

  /** Writing a mask to W1TC: the pins in the mask go low. */
  function ClearMasked(out: bv32, mask: bv32): bv32
  {
    out & !mask
  }

  // What each register write does, one fact per lemma (bit-vector facts are
  // cheapest for the solver one at a time).

  lemma SetDrivesMaskHigh(out: bv32, mask: bv32)
    ensures SetMasked(out, mask) & mask == mask
  {
  }

  lemma SetKeepsOtherPins(out: bv32, mask: bv32)
    ensures SetMasked(out, mask) & !mask == out & !mask
  {
  }

  lemma ClearDrivesMaskLow(out: bv32, mask: bv32)
    ensures ClearMasked(out, mask) & mask == 0
  {
  }

  lemma ClearKeepsOtherPins(out: bv32, mask: bv32)
    ensures ClearMasked(out, mask) & !mask == out & !mask
  {
  }

  /** Clearing a mask forgets whether it was set before. */
  lemma ClearAfterSet(out: bv32, mask: bv32)
    ensures ClearMasked(SetMasked(out, mask), mask) == ClearMasked(out, mask)
  {
    SetKeepsOtherPins(out, mask);
  }

  /** Clearing twice is clearing once. */
  lemma ClearTwice(out: bv32, mask: bv32)
    ensures ClearMasked(ClearMasked(out, mask), mask) == ClearMasked(out, mask)
  {
  }

  /** The effect of one write on the output word. */
  function Apply(out: bv32, w: Write): bv32
  {
    match w.reg
    case W1TS => SetMasked(out, w.mask)
    case W1TC => ClearMasked(out, w.mask)
  }

  /** The output word after a sequence of writes. */
  function Replay(out: bv32, ws: seq<Write>): bv32
    decreases |ws|
  {
    if ws == [] then out else Apply(Replay(out, ws[..|ws| - 1]), ws[|ws| - 1])
  }

  class Gpio {
    /** The GPIO output word. */
    var out: bv32
    /** Every write so far, oldest first. */
    var trace: seq<Write>

    constructor (initial: bv32)
      ensures out == initial && trace == []
    {
      out := initial;
      trace := [];
    }

    /** `GPIO_REG_WRITE(GPIO_OUT_W1TS_ADDRESS, mask)`: drive the pins in mask high. */
    method SetBits(mask: bv32, clock: CycleClock)
      modifies this
      ensures trace == old(trace) + [Write(W1TS, mask, clock.now)]
      ensures out == Apply(old(out), Write(W1TS, mask, clock.now))
    {
      trace := trace + [Write(W1TS, mask, clock.now)];
      out := SetMasked(out, mask);
    }

    /** `GPIO_REG_WRITE(GPIO_OUT_W1TC_ADDRESS, mask)`: drive the pins in mask low. */
    method ClearBits(mask: bv32, clock: CycleClock)
      modifies this
      ensures trace == old(trace) + [Write(W1TC, mask, clock.now)]
      ensures out == Apply(old(out), Write(W1TC, mask, clock.now))
    {
      trace := trace + [Write(W1TC, mask, clock.now)];
      out := ClearMasked(out, mask);
    }
  }
}
