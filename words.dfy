/** Machine words of the ESP8266 target: the 32-bit cycle counter with its
    wrap-around arithmetic, the byte-wide bit masks the encoders shift, and
    the 32-bit GPIO pin masks. */
module Words {

  /** 2^32: the counter and every `uint32_t` difference wrap around modulo this. */
  const Modulus: int := 0x1_0000_0000

  /** A value of C's `uint32_t`, such as a reading of the cycle counter. */
  type uint32 = x: int | 0 <= x < 0x1_0000_0000

  /** `a - b` on `uint32_t`: the unique word r with b + r == a modulo 2^32.
      This is the wraparound-safe elapsed time from b to a. */
  function Sub32(a: uint32, b: uint32): (r: uint32)
    ensures b + r == a || b + r == a + Modulus
  {
    if a >= b then a - b else a - b + Modulus
  }

  /** `a + n` on `uint32_t`, for an increment that is itself a word. */
  function Add32(a: uint32, n: uint32): (r: uint32)
    ensures r == a + n || r == a + n - Modulus
    ensures Sub32(r, a) == n
  {
    if a + n < Modulus then a + n else a + n - Modulus
  }

  /** Elapsed times add up along a < b < c as long as the sum does not wrap. */
  lemma SubChain(a: uint32, b: uint32, c: uint32)
    ensures Sub32(c, a) <= Sub32(c, b) + Sub32(b, a)
    ensures Sub32(c, b) + Sub32(b, a) < Modulus ==> Sub32(c, a) == Sub32(c, b) + Sub32(b, a)
  {
  }

  /** Going back n cycles and then forward n cycles lands where we started. */
  lemma SubBack(a: uint32, n: uint32)
    ensures Sub32(a, Sub32(a, n)) == n
  {
  }

  /** The values `bitMask` takes in the encoders' bit loop: `0x80, 0x40,
      ..., 0x01` for bits 0 to 7, most significant first, then 0 when the
      byte is done. */
  const BitMasks: seq<bv8> := [0x80, 0x40, 0x20, 0x10, 0x08, 0x04, 0x02, 0x01, 0x00]

  function BitMask(j: nat): bv8
    requires j <= 8
  {
    BitMasks[j]
  }

  /** Bit j of b, counting from the most significant bit (j == 0) down. */
  predicate BitAt(b: bv8, j: nat)
    requires j < 8
  {
    b & BitMask(j) != 0
  }

  /** `subpix & bitMask`, as the condition of the encoders' `if`. */
  predicate HasBit(b: bv8, bitMask: bv8)
  {
    b & bitMask != 0
  }

  /** `bitMask >>= 1`. */
  function NextBitMask(bitMask: bv8): bv8
  {
    bitMask >> 1
  }

  /** One step of the `bitMask` loop seen through the bit index j: the mask
      of bit j is not 0, testing against it reads bit j, and shifting it
      gives the mask of bit j + 1, which is 0 exactly after the last bit. */
  lemma BitMaskStep(j: nat, bitMask: bv8)
    requires j < 8 && bitMask == BitMask(j)
    ensures bitMask != 0
    ensures NextBitMask(bitMask) == BitMask(j + 1)
    ensures j + 1 < 8 ==> BitMask(j + 1) != 0
    ensures forall b: bv8 {:trigger HasBit(b, bitMask)} :: HasBit(b, bitMask) == BitAt(b, j)
  {
    if j == 0 {
    } else if j == 1 {
    } else if j == 2 {
    } else if j == 3 {
    } else if j == 4 {
    } else if j == 5 {
    } else if j == 6 {
    } else {
    }
  }

  /** `_BV(pin)`: the GPIO register mask of one pin, built one doubling at a
      time; it is `1 << pin`. */
  function PinMask(pin: nat): (r: bv32)
    requires pin < 32
    ensures r == (1 as bv32) << pin
    decreases pin
  {
    if pin == 0 then 1
    else
      ShiftOnce(pin);
      PinMask(pin - 1) << 1
  }

  /** Shifting one further is doubling. The proof goes pin by pin, so that
      each shift amount is a literal. */
  lemma ShiftOnce(n: nat)
    requires 0 < n < 32
    ensures ((1 as bv32) << (n - 1)) << 1 == (1 as bv32) << n
  {
    if n == 1 {
    } else if n == 2 {
    } else if n == 3 {
    } else if n == 4 {
    } else if n == 5 {
    } else if n == 6 {
    } else if n == 7 {
    } else if n == 8 {
    } else if n == 9 {
    } else if n == 10 {
    } else if n == 11 {
    } else if n == 12 {
    } else if n == 13 {
    } else if n == 14 {
    } else if n == 15 {
    } else if n == 16 {
    } else if n == 17 {
    } else if n == 18 {
    } else if n == 19 {
    } else if n == 20 {
    } else if n == 21 {
    } else if n == 22 {
    } else if n == 23 {
    } else if n == 24 {
    } else if n == 25 {
    } else if n == 26 {
    } else if n == 27 {
    } else if n == 28 {
    } else if n == 29 {
    } else if n == 30 {
    } else {
    }
  }

  /** The byte whose bits, most significant first, are `bits`. */
  function ByteOfBits(bits: seq<bool>): bv8
    requires |bits| == 8
  {
    (if bits[0] then 0x80 else 0) | (if bits[1] then 0x40 else 0) |
    (if bits[2] then 0x20 else 0) | (if bits[3] then 0x10 else 0) |
    (if bits[4] then 0x08 else 0) | (if bits[5] then 0x04 else 0) |
    (if bits[6] then 0x02 else 0) | (if bits[7] then 0x01 else 0)
  }

  /** A byte is the union of its eight bits. */
  lemma SplitByte(b: bv8)
    ensures b == (b & 0x80) | (b & 0x40) | (b & 0x20) | (b & 0x10) |
                 (b & 0x08) | (b & 0x04) | (b & 0x02) | (b & 0x01)
  {
  }

  /** Masking out bit j leaves its mask or 0. */
  lemma MaskedBit(b: bv8, j: nat)
    requires j < 8
    ensures b & BitMask(j) == if BitAt(b, j) then BitMask(j) else 0
  {
    if j == 0 {
    } else if j == 1 {
    } else if j == 2 {
    } else if j == 3 {
    } else if j == 4 {
    } else if j == 5 {
    } else if j == 6 {
    } else {
    }
  }

  /** Reassembling the eight bits of a byte, most significant first, gives the byte back. */
  lemma ByteOfBitsInverse(b: bv8, bits: seq<bool>)
    requires |bits| == 8
    requires forall k :: 0 <= k < 8 ==> bits[k] == BitAt(b, k)
    ensures ByteOfBits(bits) == b
  {
    SplitByte(b);
    MaskedBit(b, 0); MaskedBit(b, 1); MaskedBit(b, 2); MaskedBit(b, 3);
    MaskedBit(b, 4); MaskedBit(b, 5); MaskedBit(b, 6); MaskedBit(b, 7);
  }
}
