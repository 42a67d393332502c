/**
 Which numbers of a CAN field mean "not available" (can/can.cc), said of the field's bits: the largest few
 numbers its width can express.
 */
module CanReserved {
  import opened Bits
  import opened CanFields
  import opened CanMessage
  import opened Options

  /** The decoded value `v` is missing if the number is `first` or larger. */
  predicate CutFrom(v: Option<int>, number: int, first: int) {
    v == if number >= first then None else Some(number)
  }

  lemma Powers()
    ensures Pow2(0) == 1 && Pow2(1) == 2 && Pow2(2) == 4 && Pow2(3) == 8 && Pow2(4) == 16
  {
    assert Pow2(3) == 8;
  }

  lemma AtLeast16(n: nat)
    requires n >= 4
    ensures Pow2(n) >= 16
  {
    Powers();
    hide *;
    Pow2Mono(4, n);
  }

  /** The three cases of IsReserved, for a number that does not exceed the maximum. */
  lemma AvailableCut(n: int, max: int)
    requires n <= max
    ensures CutFrom(Available(n, max), n, if max >= 15 then max - 2 else if max > 1 then max - 1 else max)
  {
  }

  lemma AvailableMinusOne(n: int)
    ensures Available(n, -1) == if n == -1 then None else Some(n)
  {
  }

  lemma StoredUnsigned(raw: nat, size: nat, w: nat)
    requires raw < Pow2(size) && size <= w && w > 0
    ensures size < w ==> Stored(raw, w) == raw
    ensures size == w ==> Stored(raw, w) == if raw < Pow2(w - 1) then raw else raw - Pow2(w)
  {
    hide *;
    if size < w {
      Pow2Mono(size, w - 1);
      StoredExact(raw, w);
    } else if raw < Pow2(w - 1) {
      StoredExact(raw, w);
    } else {
      StoredNegative(raw, w);
    }
  }

  /** The raw slice of an unsigned field that fits the register comes out as it is. */
  lemma UnsignedValue(f: Field, data: seq<Byte>, at: nat)
    requires FieldReadable(f, data, at) && Numeric(f) && !f.hasSign
    ensures f.size <= 64 && at + f.size <= 8 * |data|
    ensures var raw := Slice(data, at, f.size);
      && 0 <= raw < Pow2(f.size)
      && (f.size < 64 ==> FieldValue(f, raw) == raw && FieldMax(f) == Pow2(f.size) - 1)
      && (f.size == 64 ==> FieldMax(f) == -1 &&
                           FieldValue(f, raw) == if raw < Pow2(f.size - 1) then raw else raw - Pow2(f.size))
  {
    var raw := Slice(data, at, f.size);
    UnsignedIs(f, raw);
    hide *;
    SliceBound(data, at, f.size);
    StoredUnsigned(raw, f.size, 64);
  }

  lemma UnsignedIs(f: Field, raw: nat)
    requires Decodable(f) && !f.hasSign
    ensures f.size <= 64 && FieldValue(f, raw) == Stored(raw, 64)
    ensures FieldMax(f) == if f.size == 64 then -1 else Pow2(f.size) - 1
  {
    hide Pow2, Stored;
  }

  lemma FieldAtIs(f: Field, data: seq<Byte>, at: nat)
    requires FieldReadable(f, data, at) && Numeric(f)
    ensures FieldAt(f, data, at) == Available(FieldValue(f, Slice(data, at, f.size)), FieldMax(f))
  {
    hide Slice, FieldValue, FieldMax, Available;
  }

  /** Unsigned fields: the top three numbers from four bits on, the top two of two and three bits, one of one
      bit. A field of 64 bits is read as signed, and only all ones is missing. */
  lemma UnsignedReserved(f: Field, data: seq<Byte>, at: nat)
    requires FieldReadable(f, data, at) && Numeric(f) && !f.hasSign
    ensures var raw, v := Slice(data, at, f.size), FieldAt(f, data, at);
      && (4 <= f.size <= 63 ==> CutFrom(v, raw, Pow2(f.size) - 3))
      && (2 <= f.size <= 3 ==> CutFrom(v, raw, Pow2(f.size) - 2))
      && (f.size == 1 ==> CutFrom(v, raw, 1))
      && (f.size == 0 ==> v == None)
      && (f.size == 64 ==> v == if raw == Pow2(f.size) - 1 then None
                                else Some(if raw < Pow2(f.size - 1) then raw else raw - Pow2(f.size)))
  {
    hide *;
    UnsignedValue(f, data, at);
    FieldAtIs(f, data, at);
    var raw, p := Slice(data, at, f.size), Pow2(f.size);
    if f.size == 64 {
      Doubled(f.size);
      LongCut(raw, Pow2(f.size - 1), p);
    } else {
      PowerIs(f.size, p);
      UnsignedCut(raw, f.size, p);
    }
  }

  lemma LongCut(raw: nat, half: nat, p: nat)
    requires p == 2 * half && half > 0 && raw < p
    ensures var n := if raw < half then raw else raw - p;
            Available(n, -1) == if raw == p - 1 then None else Some(n)
  {
  }

  lemma PowerIs(n: nat, p: nat)
    requires p == Pow2(n)
    ensures (n == 0 ==> p == 1) && (n == 1 ==> p == 2) && (n == 2 ==> p == 4) && (n == 3 ==> p == 8)
    ensures n >= 4 ==> p >= 16
  {
    Powers();
    hide *;
    if n >= 4 {
      AtLeast16(n);
    }
  }

  lemma UnsignedCut(raw: nat, size: nat, p: nat)
    requires raw < p && (size >= 4 ==> p >= 16) && (size == 3 ==> p == 8) && (size == 2 ==> p == 4)
    requires (size == 1 ==> p == 2) && (size == 0 ==> p == 1)
    ensures var v := Available(raw, p - 1);
      && (4 <= size ==> CutFrom(v, raw, p - 3)) && (2 <= size <= 3 ==> CutFrom(v, raw, p - 2))
      && (size == 1 ==> CutFrom(v, raw, 1)) && (size == 0 ==> v == None)
  {
  }

  lemma Doubled(n: nat)
    requires n > 0
    ensures Pow2(n) == 2 * Pow2(n - 1)
  {
  }

  /** Signed fields: the same top numbers of the positive half, one bit later. */
  lemma SignedReserved(f: Field, data: seq<Byte>, at: nat)
    requires FieldReadable(f, data, at) && Numeric(f) && f.hasSign
    ensures var n, v := SignExtend(Slice(data, at, f.size), f.size), FieldAt(f, data, at);
      && (5 <= f.size <= 63 ==> CutFrom(v, n, Pow2(f.size - 1) - 3))
      && (3 <= f.size <= 4 ==> CutFrom(v, n, Pow2(f.size - 1) - 2))
      && (1 <= f.size <= 2 ==> CutFrom(v, n, Pow2(f.size - 1) - 1))
      && (f.size == 64 ==> v == if n == -1 then None else Some(n))
  {
    var raw := Slice(data, at, f.size);
    assert 0 < f.size <= 64;
    assert FieldValue(f, raw) == SignExtend(raw, f.size);
    assert FieldMax(f) == if f.size == 64 then -1 else Pow2(f.size - 1) - 1;
    hide Slice, Pow2, FieldAt, FieldValue, FieldMax, SignExtend, FieldReadable, Decodable, Available;
    FieldAtIs(f, data, at);
    SignedBelow(data, at, f.size);
    Powers();
    var n := SignExtend(raw, f.size);
    if f.size == 64 {
      AvailableMinusOne(n);
    } else {
      AvailableCut(n, Pow2(f.size - 1) - 1);
      if f.size >= 5 {
        AtLeast16(f.size - 1);
      }
    }
  }

  lemma SignedBelow(data: seq<Byte>, at: nat, size: nat)
    requires 0 < size && at + size <= 8 * |data|
    ensures SignExtend(Slice(data, at, size), size) < Pow2(size - 1)
  {
    SliceBound(data, at, size);
    assert Pow2(size) == 2 * Pow2(size - 1);
    hide Slice, Pow2;
  }

  /** Latitudes and longitudes: the top three numbers of the positive half, also for 64 bits. */
  lemma CoordinateReserved(f: Field, data: seq<Byte>, at: nat)
    requires FieldReadable(f, data, at) && f.kind.Coordinate? && at % 8 == 0 && (f.size == 32 || f.size == 64)
    ensures CutFrom(FieldAt(f, data, at), SignExtend(Slice(data, at, f.size), f.size), Pow2(f.size - 1) - 3)
  {
    var n := SignExtend(Slice(data, at, f.size), f.size);
    CoordinateIs(f, data, at, n);
    hide Slice, Pow2, FieldAt, SignExtend, FieldReadable, Available;
    SignedBelow(data, at, f.size);
    AtLeast16(f.size - 1);
    AvailableCut(n, Pow2(f.size - 1) - 1);
  }

  lemma CoordinateIs(f: Field, data: seq<Byte>, at: nat, n: int)
    requires FieldReadable(f, data, at) && f.kind.Coordinate? && at % 8 == 0 && (f.size == 32 || f.size == 64)
    requires n == SignExtend(Slice(data, at, f.size), f.size)
    ensures FieldAt(f, data, at) == Available(n, Pow2(f.size - 1) - 1)
  {
    hide Slice, Pow2, SignExtend, Available;
  }

  /** Any other latitude or longitude comes out as zero. */
  lemma CoordinateElse(f: Field, data: seq<Byte>, at: nat)
    requires FieldReadable(f, data, at) && f.kind.Coordinate? && (at % 8 != 0 || (f.size != 32 && f.size != 64))
    ensures FieldAt(f, data, at) == Some(0)
  {
    hide Slice, SignExtend, Pow2, Available;
  }

  // ---------------------------------------------------------------- dates and times, byte by byte

  /** A low byte and what is above it. */
  function Above(low: int, high: int): int {
    low + 256 * high
  }

  lemma ByteSlice(data: seq<Byte>, k: nat)
    requires k < |data|
    ensures Slice(data, 8 * k, 8) == data[k]
  {
    SliceInByte(data, k, 0, 8);
    assert Shr(data[k], 0) == data[k] && Pow2(8) == 256;
    LowFits(data[k], 8);
  }

  lemma Byteful(data: seq<Byte>, k: nat, n: nat)
    requires k + n + 1 <= |data|
    ensures Slice(data, 8 * k, 8 * (n + 1)) == Above(data[k], Slice(data, 8 * (k + 1), 8 * n))
  {
    var rest := Slice(data, 8 * (k + 1), 8 * n);
    assert Pow2(8) == 256;
    assert Above(data[k], rest) == data[k] as int + 256 * rest;
    hide *;
    SliceSplit(data, 8 * k, 8, 8 * n);
    ByteSlice(data, k);
    ShlPow2(rest, 8);
  }

  lemma FourBytes(data: seq<Byte>, k: nat)
    requires k + 2 <= |data|
    ensures Slice(data, 8 * k, 16) == Above(data[k], data[k + 1])
    ensures k + 4 <= |data| ==>
              Slice(data, 8 * k, 32) == Above(data[k], Above(data[k + 1], Above(data[k + 2], data[k + 3])))
  {
    hide *;
    Byteful(data, k, 1);
    ByteSlice(data, k + 1);
    if k + 4 <= |data| {
      Byteful(data, k, 3);
      Byteful(data, k + 1, 2);
      Byteful(data, k + 2, 1);
      ByteSlice(data, k + 3);
    }
  }

  /** A date is two bytes and a time four, lowest first, from the byte the field starts in. */
  lemma DatesAndTimes(f: Field, data: seq<Byte>, at: nat)
    requires FieldReadable(f, data, at) && (f.kind.Date? || f.kind.Time?)
    ensures var k := at / 8;
      && (f.kind.Date? ==> FieldAt(f, data, at) == Some(Above(data[k], data[k + 1])))
      && (f.kind.Time? ==>
            FieldAt(f, data, at) == Some(Above(data[k], Above(data[k + 1], Above(data[k + 2], data[k + 3])))))
  {
    FourBytes(data, at / 8);
    hide Slice;
  }
}
