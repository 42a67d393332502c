/**
 Bytes, shifts and bitwise operations on unbounded two's-complement integers, and the one
 specification every codec of the boat is measured against: a buffer read as a stream of bits,
 least significant bit of each byte first, and the number a slice of that stream spells.
 */
module Bits {
  import opened Division

  type Byte = b: int | 0 <= b < 256

  function Pow2(n: nat): (p: nat)
    ensures p >= 1
  {
    if n == 0 then 1 else 2 * Pow2(n - 1)
  }

  /** x >> k, arithmetic. */
  function Shr(x: int, k: nat): int
    decreases k, x
  {
    if k == 0 then x else Shr(x / 2, k - 1)
  }

  /** x << k. */
  function Shl(x: int, k: nat): int
    decreases k, x
  {
    if k == 0 then x else 2 * Shl(x, k - 1)
  }

  /** The low `b` bits of x, as a number. */
  function Low(x: int, b: nat): nat
    decreases b, x
  {
    if b == 0 then 0 else x % 2 + 2 * Low(x / 2, b - 1)
  }

  /** Bitwise conjunction in two's complement of unlimited width. */
  function And(x: int, y: int): int
    decreases if x < 0 then -x else x
  {
    if x == 0 || y == 0 then 0
    else if x == -1 then y
    else (if x % 2 == 1 && y % 2 == 1 then 1 else 0) + 2 * And(x / 2, y / 2)
  }

  function Not(x: int): int {
    -x - 1
  }

  function Or(x: int, y: int): int {
    Not(And(Not(y), Not(x)))
  }

  // ---------------------------------------------------------------- bit streams

  /** The low `n` bits of x, least significant first. */
  function ToBits(x: int, n: nat): (bs: seq<bool>)
    ensures |bs| == n
    decreases n, x
  {
    if n == 0 then [] else [x % 2 == 1] + ToBits(x / 2, n - 1)
  }

  /** The number a list of bits spells, least significant first. */
  function FromBits(bs: seq<bool>): nat {
    if bs == [] then 0 else (if bs[0] then 1 else 0) + 2 * FromBits(bs[1..])
  }

  /** The bits of a buffer in transmission order. */
  function BitsOf(data: seq<Byte>): (bs: seq<bool>)
    ensures |bs| == 8 * |data|
  {
    if data == [] then [] else ToBits(data[0], 8) + BitsOf(data[1..])
  }

  /** The number spelled by `size` bits of a buffer starting at bit `start`. */
  function Slice(data: seq<Byte>, start: nat, size: nat): nat
    requires start + size <= 8 * |data|
  {
    FromBits(BitsOf(data)[start..start + size])
  }

  lemma {:induction false} FromBitsConcat(a: seq<bool>, b: seq<bool>)
    ensures FromBits(a + b) == FromBits(a) + Shl(FromBits(b), |a|)
    decreases |a|
  {
    if a == [] {
      assert a + b == b;
    } else {
      assert (a + b)[1..] == a[1..] + b;
      FromBitsConcat(a[1..], b);
    }
  }

  lemma {:induction false} FromBitsBound(bs: seq<bool>)
    ensures FromBits(bs) < Pow2(|bs|)
    decreases |bs|
  {
    if bs != [] {
      FromBitsBound(bs[1..]);
    }
  }

  lemma {:induction false} FromToBits(x: int, n: nat)
    ensures FromBits(ToBits(x, n)) == Low(x, n)
    decreases n
  {
    if n != 0 {
      assert ToBits(x, n)[1..] == ToBits(x / 2, n - 1);
      FromToBits(x / 2, n - 1);
    }
  }

  /** No two bit lists of one length spell the same number. */
  lemma {:induction false} ToFromBits(bs: seq<bool>)
    ensures ToBits(FromBits(bs), |bs|) == bs
    decreases |bs|
  {
    if bs != [] {
      var x := FromBits(bs);
      assert x / 2 == FromBits(bs[1..]) && (x % 2 == 1) == bs[0];
      ToFromBits(bs[1..]);
      assert bs == [bs[0]] + bs[1..];
    }
  }

  lemma {:induction false} ToBitsDrop(x: int, n: nat, s: nat)
    requires s <= n
    ensures ToBits(x, n)[s..] == ToBits(Shr(x, s), n - s)
    decreases s
  {
    if s != 0 {
      assert ToBits(x, n)[s..] == ToBits(x / 2, n - 1)[s - 1..];
      ToBitsDrop(x / 2, n - 1, s - 1);
    }
  }

  lemma {:induction false} ToBitsTake(x: int, n: nat, b: nat)
    requires b <= n
    ensures ToBits(x, n)[..b] == ToBits(x, b)
    decreases b
  {
    if b != 0 {
      assert ToBits(x, n)[..b] == [x % 2 == 1] + ToBits(x / 2, n - 1)[..b - 1];
      ToBitsTake(x / 2, n - 1, b - 1);
    }
  }

  lemma {:induction false} BitsOfConcat(a: seq<Byte>, b: seq<Byte>)
    ensures BitsOf(a + b) == BitsOf(a) + BitsOf(b)
    decreases |a|
  {
    if a == [] {
      assert a + b == b;
    } else {
      assert (a + b)[1..] == a[1..] + b;
      BitsOfConcat(a[1..], b);
    }
  }

  lemma SliceOfSlice(bs: seq<bool>, i: nat, n: nat, s: nat, b: nat)
    requires i + n <= |bs| && s + b <= n
    ensures bs[i + s..i + s + b] == bs[i..i + n][s..][..b]
  {
  }

  // ---------------------------------------------------------------- slices

  /** A slice splits at any bit: the upper part is shifted by the width of the lower part. */
  lemma SliceSplit(data: seq<Byte>, start: nat, a: nat, b: nat)
    requires start + a + b <= 8 * |data|
    ensures Slice(data, start, a + b) == Slice(data, start, a) + Shl(Slice(data, start + a, b), a)
  {
    var bs := BitsOf(data);
    var lo, hi := bs[start..start + a], bs[start + a..start + a + b];
    assert bs[start..start + (a + b)] == lo + hi;
    FromBitsConcat(lo, hi);
  }

  /** Inside one byte a slice is a shift and a mask. */
  lemma SliceInByte(data: seq<Byte>, k: nat, s: nat, b: nat)
    requires k < |data| && s + b <= 8
    ensures Slice(data, 8 * k + s, b) == Low(Shr(data[k], s), b)
  {
    OctetOf(data, k);
    SliceOfSlice(BitsOf(data), 8 * k, 8, s, b);
    ToBitsDrop(data[k], 8, s);
    ToBitsTake(Shr(data[k], s), 8 - s, b);
    FromToBits(Shr(data[k], s), b);
  }

  lemma {:induction false} OctetOf(data: seq<Byte>, k: nat)
    requires k < |data|
    ensures BitsOf(data)[8 * k..8 * k + 8] == ToBits(data[k], 8)
    decreases k
  {
    if k != 0 {
      OctetOf(data[1..], k - 1);
      DropOctet(ToBits(data[0], 8), BitsOf(data[1..]), 8 * (k - 1));
    }
  }

  lemma DropOctet(x: seq<bool>, y: seq<bool>, i: nat)
    requires |x| == 8 && i + 8 <= |y|
    ensures (x + y)[i + 8..i + 16] == y[i..i + 8]
  {
  }

  lemma SliceBound(data: seq<Byte>, start: nat, size: nat)
    requires start + size <= 8 * |data|
    ensures Slice(data, start, size) < Pow2(size)
  {
    FromBitsBound(BitsOf(data)[start..start + size]);
  }

  // ---------------------------------------------------------------- shifts

  lemma {:induction false} ShrShl(x: int, k: nat)
    ensures Shr(Shl(x, k), k) == x
    decreases k
  {
    if k != 0 {
      assert Shl(x, k) / 2 == Shl(x, k - 1);
      ShrShl(x, k - 1);
    }
  }

  /** Taking low bits of low bits. */
  lemma {:induction false} LowLow(x: int, a: nat, b: nat)
    requires a <= b
    ensures Low(Low(x, b), a) == Low(x, a)
    decreases a
  {
    if a != 0 {
      assert Low(x, b) % 2 == x % 2 && Low(x, b) / 2 == Low(x / 2, b - 1);
      LowLow(x / 2, a - 1, b - 1);
    }
  }

  lemma {:induction false} LowShl(x: int, s: nat, b: nat)
    ensures Low(Shl(x, s), s + b) == Shl(Low(x, b), s)
    decreases s
  {
    if s != 0 {
      assert Shl(x, s) / 2 == Shl(x, s - 1) && Shl(x, s) % 2 == 0;
      LowShl(x, s - 1, b);
    }
  }

  lemma {:induction false} LowBound(x: int, b: nat)
    ensures Low(x, b) < Pow2(b)
    decreases b
  {
    if b != 0 {
      LowBound(x / 2, b - 1);
    }
  }

  lemma {:induction false} LowFits(x: nat, b: nat)
    requires x < Pow2(b)
    ensures Low(x, b) == x
    decreases b
  {
    if b != 0 {
      LowFits(x / 2, b - 1);
    }
  }

  /** The low bits do not see what is added above them. */
  lemma {:induction false} LowPeriodic(x: int, b: nat, k: int)
    ensures Low(x + Shl(k, b), b) == Low(x, b)
    decreases b
  {
    if b != 0 {
      assert (x + Shl(k, b)) / 2 == x / 2 + Shl(k, b - 1);
      assert (x + Shl(k, b)) % 2 == x % 2;
      LowPeriodic(x / 2, b - 1, k);
    }
  }

  /** Every integer is its low bits plus a multiple of the next power of two. */
  lemma {:induction false} LowHigh(x: int, b: nat)
    ensures x == Low(x, b) + Shl(Shr(x, b), b)
    decreases b
  {
    if b != 0 {
      LowHigh(x / 2, b - 1);
    }
  }

  lemma {:induction false} ShlPow2(k: int, b: nat)
    ensures Shl(k, b) == k * Pow2(b)
    decreases b
  {
    if b != 0 {
      ShlPow2(k, b - 1);
    }
  }

  lemma {:induction false} Pow2Mono(a: nat, b: nat)
    requires a <= b
    ensures Pow2(a) <= Pow2(b)
    decreases b
  {
    if a < b {
      Pow2Mono(a, b - 1);
    }
  }

  // ---------------------------------------------------------------- masks

  lemma AndDouble(x: int, y: int)
    ensures And(2 * x, y) == 2 * And(x, y / 2)
  {
    if x != 0 && y != 0 {
      assert (2 * x) % 2 == 0 && (2 * x) / 2 == x;
    }
  }

  lemma {:induction false} AndShifted(x: int, s: nat, y: int)
    ensures And(Shl(x, s), y) == Shl(And(x, Shr(y, s)), s)
    decreases s
  {
    if s != 0 {
      AndDouble(Shl(x, s - 1), y);
      AndShifted(x, s - 1, y / 2);
    }
  }

  /** Masking with `b` ones keeps the low `b` bits, for negative numbers too. */
  lemma {:induction false} AndOnes(b: nat, y: int)
    ensures And(Pow2(b) - 1, y) == Low(y, b)
    decreases b
  {
    if y == 0 {
      LowFits(0, b);
    } else if b != 0 {
      var x := Pow2(b) - 1;
      assert x % 2 == 1 && x / 2 == Pow2(b - 1) - 1;
      AndOnes(b - 1, y / 2);
    }
  }

  lemma {:induction false} ShrOnes(n: nat, k: nat)
    requires k <= n
    ensures Shr(Pow2(n) - 1, k) == Pow2(n - k) - 1
    decreases k
  {
    if k != 0 {
      assert (Pow2(n) - 1) / 2 == Pow2(n - 1) - 1;
      ShrOnes(n - 1, k - 1);
    }
  }

  lemma {:induction false} LowOnes(n: nat, b: nat)
    requires b <= n
    ensures Low(Pow2(n) - 1, b) == Pow2(b) - 1
    decreases b
  {
    if b != 0 {
      var x := Pow2(n) - 1;
      assert x / 2 == Pow2(n - 1) - 1 && x % 2 == 1;
      LowOnes(n - 1, b - 1);
    }
  }

  lemma {:induction false} ShlBound(x: nat, b: nat, s: nat)
    requires x < Pow2(b)
    ensures 0 <= Shl(x, s) < Pow2(b + s)
    decreases s
  {
    if s != 0 {
      ShlBound(x, b, s - 1);
    }
  }

  /** `ones` cut to the bits s .. s+b-1: shifted down from above, shifted up from below. */
  function Window(ones: int, n: nat, s: nat, b: nat): int
    requires s + b <= n
  {
    And(Shr(ones, n - b - s), Shl(ones, s))
  }

  lemma WindowShape(ones: int, n: nat, s: nat, b: nat)
    requires s + b <= n && ones == Pow2(n) - 1
    ensures Window(ones, n, s, b) == Shl(Pow2(b) - 1, s)
  {
    calc {
      Window(ones, n, s, b);
    == { ShrOnes(n, n - b - s); }
      And(Pow2(s + b) - 1, Shl(ones, s));
    == { AndOnes(s + b, Shl(ones, s)); }
      Low(Shl(ones, s), s + b);
    == { LowShl(ones, s, b); }
      Shl(Low(ones, b), s);
    == { LowOnes(n, b); }
      Shl(Pow2(b) - 1, s);
    }
  }

  // ---------------------------------------------------------------- little-endian numbers

  /** The low `m` bytes of a number in little-endian order. */
  function LeBytes(n: nat, m: nat): (bs: seq<Byte>)
    ensures |bs| == m
    decreases m, n
  {
    if m == 0 then [] else [LowByte(n)] + LeBytes(Rest(n), m - 1)
  }

  function LowByte(n: nat): Byte {
    LowBound(n, 8);
    assert Pow2(8) == 256;
    Low(n, 8)
  }

  function Rest(n: nat): nat {
    ShrNat(n, 8);
    Shr(n, 8)
  }

  lemma {:induction false} ShrNat(n: nat, k: nat)
    ensures Shr(n, k) >= 0
    decreases k
  {
    if k != 0 {
      ShrNat(n / 2, k - 1);
    }
  }

  /** The number a list of bytes spells in little-endian order. */
  function LeValue(bs: seq<Byte>): nat {
    FromBits(BitsOf(bs))
  }

  /** Writing the low `m` bytes of a number and reading them back keeps the low 8m bits. */
  lemma LeRoundTrip(n: nat, m: nat)
    ensures LeValue(LeBytes(n, m)) == Low(n, 8 * m)
  {
    LeBits(n, m);
    FromToBits(n, 8 * m);
  }

  lemma LeBytesNil(n: nat)
    ensures LeBytes(n, 0) == []
  {
  }

  lemma LeBytesCons(n: nat, m: nat)
    requires m > 0
    ensures LeBytes(n, m) == [LowByte(n)] + LeBytes(Rest(n), m - 1)
  {
  }

  lemma {:induction false} LeBits(n: nat, m: nat)
    ensures BitsOf(LeBytes(n, m)) == ToBits(n, 8 * m)
    decreases m
  {
    if m != 0 {
      LeBytesCons(n, m);
      LeBits(Rest(n), m - 1);
      ToBitsDrop(n, 8 * m, 8);
      ToBitsTake(n, 8 * m, 8);
      LowByteBits(n);
      hide *;
      BitsOfConcat([LowByte(n)], LeBytes(Rest(n), m - 1));
      OneByte(LowByte(n));
      RestIs(n);
      assert ToBits(n, 8 * m) == ToBits(n, 8 * m)[..8] + ToBits(n, 8 * m)[8..];
    }
  }

  lemma OneByte(x: Byte)
    ensures BitsOf([x]) == ToBits(x, 8)
  {
    assert [x][1..] == [];
  }

  lemma RestIs(n: nat)
    ensures Rest(n) == Shr(n, 8)
  {
  }

  lemma {:induction false} ToBitsLow(x: int, n: nat)
    ensures ToBits(Low(x, n), n) == ToBits(x, n)
    decreases n
  {
    if n != 0 {
      assert Low(x, n) % 2 == x % 2 && Low(x, n) / 2 == Low(x / 2, n - 1);
      ToBitsLow(x / 2, n - 1);
    }
  }

  lemma LowByteBits(n: nat)
    ensures ToBits(LowByte(n), 8) == ToBits(n, 8)
  {
    ToBitsLow(n, 8);
  }

  // ---------------------------------------------------------------- shifts and masks as division

  /** The low bits are the remainder, the shift is the quotient. */
  lemma LowShrAre(x: int, b: nat)
    ensures Low(x, b) == x % Pow2(b) && Shr(x, b) == x / Pow2(b)
  {
    LowHigh(x, b);
    LowBound(x, b);
    ShlPow2(Shr(x, b), b);
    hide *;
    Residue(x, Pow2(b), Shr(x, b), Low(x, b));
  }
}
