/**
 The field codec of the CAN node (can/can.cc): extraction of an unaligned, possibly signed number
 from a buffer, the walk over the fields of a message, and the encoder for outgoing frames.
 C++ integer widths are explicit: a byte mask is cut to 8 bits and the accumulators are signed
 registers of 64 bits.
 */
module CanFields {
  import opened Bits

  /** What the decoder does with a field: scale a number, look a number up, copy a latitude or longitude, a
      date or a time out of the buffer, or skip it. */
  datatype Kind = Scaled | Lookup | Coordinate | Date | Time | Skipped

  /** The size in bits, sign and kind of a field of a parameter group. */
  datatype Field = Field(size: nat, hasSign: bool, kind: Kind)

  /** The value a signed register of `w` bits holds after x is stored in it. */
  function Stored(x: int, w: nat): int
    requires w > 0
  {
    Low(x + Pow2(w - 1), w) - Pow2(w - 1)
  }

  /** Two's-complement reading of `size` bits. */
  function SignExtend(raw: nat, size: nat): int
    requires size > 0
  {
    if raw < Pow2(size - 1) then raw else raw - Pow2(size)
  }

  /** Sizes the decoder accepts: the shift by magnitude - 1 needs a bit to be the sign. */
  predicate Decodable(f: Field) {
    f.size <= 64 && (f.hasSign ==> f.size > 0)
  }

  /** The number a field means, given the bits of its slice. */
  function FieldValue(f: Field, raw: nat): int
    requires Decodable(f)
  {
    if f.hasSign then SignExtend(raw, f.size) else Stored(raw, 64)
  }

  /** The largest value of a field, as the decoder reports it. */
  function FieldMax(f: Field): int
    requires Decodable(f)
  {
    if f.size == 64 then -1
    else if f.hasSign then Pow2(f.size - 1) - 1
    else Pow2(f.size) - 1
  }

  // ---------------------------------------------------------------- register arithmetic

  /** A value in the signed range is stored as it is. */
  lemma StoredExact(x: int, w: nat)
    requires w > 0 && -(Pow2(w - 1) as int) <= x < Pow2(w - 1)
    ensures Stored(x, w) == x
  {
    LowFits(x + Pow2(w - 1), w);
  }

  /** Storing depends only on the value modulo 2^w. */
  lemma StoredPeriodic(x: int, w: nat, k: int)
    requires w > 0
    ensures Stored(x + Shl(k, w), w) == Stored(x, w)
  {
    LowPeriodic(x + Pow2(w - 1), w, k);
  }

  lemma StoredNegative(x: int, w: nat)
    requires w > 0 && Pow2(w - 1) <= x < Pow2(w)
    ensures Stored(x, w) == x - Pow2(w)
  {
    var y := x - Pow2(w);
    ShlUnits(w);
    StoredPeriodic(y, w, 1);
    StoredExact(y, w);
  }

  lemma StoredShift(x: int, w: nat) returns (k: int)
    requires w > 0
    ensures Stored(x, w) == x + Shl(k, w)
  {
    var q := Shr(x + Pow2(w - 1), w);
    LowHigh(x + Pow2(w - 1), w);
    k := -q;
    ShlSum(q, k, w);
    ShlUnits(w);
  }

  lemma {:induction false} ShlSum(a: int, b: int, w: nat)
    ensures Shl(a + b, w) == Shl(a, w) + Shl(b, w)
    decreases w
  {
    if w != 0 {
      ShlSum(a, b, w - 1);
    }
  }

  lemma {:induction false} ShlUnits(w: nat)
    ensures Shl(-1, w) == -(Pow2(w) as int) && Shl(0, w) == 0 && Shl(1, w) == Pow2(w)
    decreases w
  {
    if w != 0 {
      ShlUnits(w - 1);
    }
  }

  /** Wrapping early does not matter to a sum that is wrapped again. */
  lemma StoredSum(x: int, y: int, w: nat)
    requires w > 0
    ensures Stored(Stored(x, w) + y, w) == Stored(x + y, w)
  {
    var k := StoredShift(x, w);
    StoredPeriodic(x + y, w, k);
  }

  lemma {:induction false} OnesAppend(m: nat, b: nat)
    ensures Shl(Pow2(m) - 1, b) + Pow2(b) - 1 == Pow2(m + b) - 1
    decreases b
  {
    if b != 0 {
      OnesAppend(m, b - 1);
    }
  }

  lemma {:induction false} ShlOnesRange(m: nat, b: nat)
    ensures 0 <= Shl(Pow2(m) - 1, b) < Pow2(m + b)
  {
    ShlBound(Pow2(m) - 1, m, b);
  }

  // ---------------------------------------------------------------- one byte of a field

  /** The decoder's uint8_t mask of `b` ones from bit `s`. */
  function ByteMask(s: nat, b: nat): nat
    requires s + b <= 8
  {
    Low(Window(255, 8, s, b), 8)
  }

  lemma ByteMaskShape(s: nat, b: nat)
    requires s + b <= 8
    ensures ByteMask(s, b) == Shl(Pow2(b) - 1, s)
  {
    WindowShape(255, 8, s, b) by { assert Pow2(8) == 256; }
    ShlOnesRange(b, s);
    Pow2Mono(b + s, 8);
    LowFits(Shl(Pow2(b) - 1, s), 8);
  }

  /** What mask-and-shift takes out of one byte, and what it adds to the maximum. */
  lemma MaskedByte(x: Byte, s: nat, b: nat)
    requires s + b <= 8
    ensures Shr(And(ByteMask(s, b), x), s) == Low(Shr(x, s), b)
    ensures Shr(ByteMask(s, b), s) == Pow2(b) - 1
  {
    calc {
      And(ByteMask(s, b), x);
    == { ByteMaskShape(s, b); }
      And(Shl(Pow2(b) - 1, s), x);
    == { AndShifted(Pow2(b) - 1, s, x); }
      Shl(And(Pow2(b) - 1, Shr(x, s)), s);
    == { AndOnes(b, Shr(x, s)); }
      Shl(Low(Shr(x, s), b), s);
    }
    ShrShl(Low(Shr(x, s), b), s);
    ByteMaskShape(s, b);
    ShrShl(Pow2(b) - 1, s);
  }

  /** One pass of the extraction loop appends the next `b` bits to the value read so far. */
  lemma ValueStep(data: seq<Byte>, start: nat, mag: nat, k: nat, s: nat, b: nat, w: nat)
    requires k < |data| && s + b <= 8 && start + mag == 8 * k + s && w > 0
    ensures start + mag + b <= 8 * |data|
    ensures Stored(Stored(Slice(data, start, mag), w) + Shl(Shr(And(ByteMask(s, b), data[k]), s), mag), w)
         == Stored(Slice(data, start, mag + b), w)
  {
    hide *;
    var lo, hi := Slice(data, start, mag), Slice(data, start + mag, b);
    calc {
      Stored(Stored(lo, w) + Shl(Shr(And(ByteMask(s, b), data[k]), s), mag), w);
    == { MaskedByte(data[k], s, b); }
      Stored(Stored(lo, w) + Shl(Low(Shr(data[k], s), b), mag), w);
    == { SliceInByte(data, k, s, b); }
      Stored(Stored(lo, w) + Shl(hi, mag), w);
    == { StoredSum(lo, Shl(hi, mag), w); }
      Stored(lo + Shl(hi, mag), w);
    == { SliceSplit(data, start, mag, b); }
      Stored(Slice(data, start, mag + b), w);
    }
  }

  /** The same pass appends `b` ones to the maximum. */
  lemma MaxStep(mag: nat, s: nat, b: nat, w: nat)
    requires s + b <= 8 && mag + b <= w && b > 0
    ensures Stored(Stored(Shl(Stored(Pow2(mag) - 1, w), b), w) + Shr(ByteMask(s, b), s), w)
         == Stored(Pow2(mag + b) - 1, w)
  {
    hide *;
    var ones := Pow2(mag) - 1;
    calc {
      Stored(Stored(Shl(Stored(ones, w), b), w) + Shr(ByteMask(s, b), s), w);
    == { Pow2Mono(mag, w - 1); StoredExact(ones, w); }
      Stored(Stored(Shl(ones, b), w) + Shr(ByteMask(s, b), s), w);
    == { MaskedByte(0, s, b); }
      Stored(Stored(Shl(ones, b), w) + (Pow2(b) - 1), w);
    == { StoredSum(Shl(ones, b), Pow2(b) - 1, w); }
      Stored(Shl(ones, b) + (Pow2(b) - 1), w);
    == { OnesAppend(mag, b); }
      Stored(Pow2(mag + b) - 1, w);
    }
  }

  // ---------------------------------------------------------------- the sign

  lemma {:induction false} ShrTop(r: nat, j: nat)
    requires r < 2 * Pow2(j)
    ensures Shr(r, j) == if r < Pow2(j) then 0 else 1
    decreases j
  {
    if j != 0 {
      ShrTop(r / 2, j - 1);
    }
  }

  lemma LowComplement(r: nat, j: nat)
    requires Pow2(j) <= r < 2 * Pow2(j)
    ensures Low(-(r as int) - 1, j) == 2 * Pow2(j) - 1 - r
  {
    var c: nat := 2 * Pow2(j) - 1 - r;
    ShlSum(-1, -1, j);
    ShlUnits(j);
    LowPeriodic(c, j, -2);
    LowFits(c, j);
  }

  /** Or-ing the complement of the maximum into a value whose top bit is set extends its sign. */
  lemma SignFill(r: nat, size: nat)
    requires 0 < size && Pow2(size - 1) <= r < Pow2(size)
    ensures Or(r, Not(Pow2(size - 1) - 1)) == r - Pow2(size)
  {
    AndOnes(size - 1, -(r as int) - 1);
    LowComplement(r, size - 1);
  }

  /** The closing step of the decoder for signed fields. */
  function SignStep(retval: int, maxval: int, magnitude: nat): (int, int)
    requires magnitude > 0
  {
    var half := Shr(maxval, 1);
    (if Shr(retval, magnitude - 1) != 0 then Or(retval, Not(half)) else retval, half)
  }

  lemma SignStepShort(raw: nat, size: nat, w: nat)
    requires 0 < size < w && raw < Pow2(size)
    ensures SignStep(Stored(raw, w), Stored(Pow2(size) - 1, w), size) == (SignExtend(raw, size), Pow2(size - 1) - 1)
  {
    Pow2Mono(size, w - 1);
    StoredExact(raw, w);
    StoredExact(Pow2(size) - 1, w);
    HalfOnes(size);
    ShrTop(raw, size - 1);
    if raw >= Pow2(size - 1) {
      SignFill(raw, size);
    }
  }

  lemma HalfOnes(n: nat)
    requires n > 0
    ensures Shr(Pow2(n) - 1, 1) == Pow2(n - 1) - 1
  {
    ShrOnes(n, 1);
  }

  lemma DoubledPow2(w: nat)
    requires w > 0
    ensures Pow2(w) == 2 * Pow2(w - 1)
  {
  }

  lemma StoredOnes(w: nat)
    requires w > 0
    ensures Stored(Pow2(w) - 1, w) == -1
  {
    DoubledPow2(w);
    hide *;
    StoredNegative(Pow2(w) - 1, w);
  }

  /** A field as wide as the register needs no sign fill: storing it already made it negative. */
  lemma SignStepFull(raw: nat, w: nat)
    requires w > 0 && raw < Pow2(w)
    ensures SignStep(Stored(raw, w), Stored(Pow2(w) - 1, w), w) == (SignExtend(raw, w), -1)
  {
    StoredOnes(w);
    MinusOneHalved();
    StoredFull(raw, w);
    OrZero(Stored(raw, w));
    hide *;
    SignStepAt(Stored(raw, w), -1, w, -1);
  }

  lemma StoredFull(raw: nat, w: nat)
    requires w > 0 && raw < Pow2(w)
    ensures Stored(raw, w) == SignExtend(raw, w)
  {
    if raw < Pow2(w - 1) {
      StoredExact(raw, w);
    } else {
      StoredNegative(raw, w);
    }
  }

  lemma SignStepAt(retval: int, maxval: int, magnitude: nat, half: int)
    requires magnitude > 0 && half == Shr(maxval, 1)
    ensures SignStep(retval, maxval, magnitude)
         == (if Shr(retval, magnitude - 1) != 0 then Or(retval, Not(half)) else retval, half)
  {
  }

  lemma MinusOneHalved()
    ensures Shr(-1, 1) == -1
  {
  }

  lemma OrZero(x: int)
    ensures Or(x, Not(-1)) == x
  {
  }

  // ---------------------------------------------------------------- ExtractNumberField

  /** CanNode::ExtractNumberField: reads the slice, at any alignment, with its sign. */
  method ExtractNumberField(f: Field, data: seq<Byte>, startBit: nat) returns (val: int, maxval: int)
    requires Decodable(f)
    requires startBit + f.size <= 8 * |data|
    ensures val == FieldValue(f, Slice(data, startBit, f.size))
    ensures maxval == FieldMax(f)
  {
    hide *;
    var retval := 0;
    var bitsLeft: nat := f.size;
    var ptr: nat := startBit / 8;
    var bit: nat := startBit % 8;
    maxval := 0;
    var magnitude: nat := 0;
    Opening(f, data, startBit);
    while bitsLeft != 0
      invariant magnitude + bitsLeft == f.size <= 64
      invariant bit < 8
      invariant bitsLeft != 0 ==> startBit + magnitude == 8 * ptr + bit
      invariant retval == Stored(Slice(data, startBit, magnitude), 64)
      invariant maxval == Stored(Pow2(magnitude) - 1, 64)
      decreases bitsLeft
    {
      var byteBits := if 8 - bit < bitsLeft then 8 - bit else bitsLeft;
      var endGap := 8 - byteBits - bit;
      var mask := Low(And(Shr(255, endGap), Shl(255, bit)), 8);
      ByteMaskForm(bit, byteBits);
      ValueStep(data, startBit, magnitude, ptr, bit, byteBits, 64);
      MaxStep(magnitude, bit, byteBits, 64);
      var curVal := Shl(Shr(And(mask, data[ptr]), bit), magnitude);
      retval := Stored(retval + curVal, 64);
      maxval := Stored(Stored(Shl(maxval, byteBits), 64) + Shr(mask, bit), 64);
      bitsLeft := bitsLeft - byteBits;
      magnitude := magnitude + byteBits;
      bit := 0;
      ptr := ptr + 1;
    }
    Closing(f, Slice(data, startBit, f.size), retval, maxval) by { SliceBound(data, startBit, f.size); }
    if f.hasSign {
      maxval := Shr(maxval, 1);
      if Shr(retval, magnitude - 1) != 0 {
        retval := Or(retval, Not(maxval));
      }
    }
    val := retval;
  }

  lemma Opening(f: Field, data: seq<Byte>, startBit: nat)
    requires Decodable(f) && startBit + f.size <= 8 * |data|
    ensures f.size <= 64
    ensures 0 == Stored(Slice(data, startBit, 0), 64) == Stored(Pow2(0) - 1, 64)
  {
    assert Slice(data, startBit, 0) == 0 == Pow2(0) - 1;
    hide *;
    StoredZero(64);
  }

  lemma StoredZero(w: nat)
    requires w > 0
    ensures Stored(0, w) == 0
  {
    StoredExact(0, w);
  }

  lemma ByteMaskForm(s: nat, b: nat)
    requires s + b <= 8
    ensures Low(And(Shr(255, 8 - b - s), Shl(255, s)), 8) == ByteMask(s, b)
  {
  }

  lemma Closing(f: Field, raw: nat, retval: int, maxval: int)
    requires Decodable(f) && raw < Pow2(f.size)
    requires retval == Stored(raw, 64) && maxval == Stored(Pow2(f.size) - 1, 64)
    ensures f.hasSign ==> f.size > 0
    ensures f.hasSign ==> FieldMax(f) == Shr(maxval, 1)
    ensures f.hasSign ==>
              FieldValue(f, raw) == (if Shr(retval, f.size - 1) != 0 then Or(retval, Not(Shr(maxval, 1))) else retval)
    ensures !f.hasSign ==> FieldMax(f) == maxval && FieldValue(f, raw) == retval
  {
    Unfolded(f, raw);
    hide *;
    ClosingAt(f, raw, 64);
    if f.hasSign {
      SignStepAt(retval, maxval, f.size, Shr(maxval, 1));
    }
  }

  lemma Unfolded(f: Field, raw: nat)
    requires Decodable(f)
    ensures f.size <= 64 && (f.hasSign ==> f.size > 0)
    ensures f.hasSign ==> FieldValue(f, raw) == SignExtend(raw, f.size)
    ensures f.hasSign ==> FieldMax(f) == if f.size == 64 then -1 else Pow2(f.size - 1) - 1
    ensures !f.hasSign ==> FieldValue(f, raw) == Stored(raw, 64)
    ensures !f.hasSign ==> FieldMax(f) == if f.size == 64 then -1 else Pow2(f.size) - 1
  {
  }

  lemma ClosingAt(f: Field, raw: nat, w: nat)
    requires 0 < w && f.size <= w && (f.hasSign ==> f.size > 0) && raw < Pow2(f.size)
    ensures f.hasSign ==>
              SignStep(Stored(raw, w), Stored(Pow2(f.size) - 1, w), f.size) ==
              (SignExtend(raw, f.size), if f.size == w then -1 else Pow2(f.size - 1) - 1)
    ensures !f.hasSign ==> Stored(Pow2(f.size) - 1, w) == if f.size == w then -1 else Pow2(f.size) - 1
  {
    if f.size == w {
      StoredOnes(w);
      SignStepFull(raw, w);
    } else {
      Pow2Mono(f.size, w - 1);
      StoredExact(Pow2(f.size) - 1, w);
      if f.hasSign {
        SignStepShort(raw, f.size, w);
      }
    }
  }
}
