/**
 The SBUS receiver (sensor/read-sbus.cc): sixteen 11-bit channels packed LSB-first into 22 bytes.
 */
module Sbus {
  import opened Bits
  import CanFields

  lemma {:induction false} ShrBound(x: nat, k: nat, n: nat)
    requires k <= n && x < Pow2(n)
    ensures 0 <= Shr(x, k) < Pow2(n - k)
    decreases k
  {
    if k != 0 {
      ShrBound(x / 2, k - 1, n - 1);
    }
  }

  lemma {:induction false} ShlShl(x: int, a: nat, b: nat)
    ensures Shl(Shl(x, a), b) == Shl(x, a + b)
    decreases b
  {
    if b != 0 {
      ShlShl(x, a, b - 1);
    }
  }

  lemma ByteBits(x: Byte)
    ensures x < Pow2(8)
  {
    assert Pow2(8) == 256;
  }

  /** The bits of the first byte: shifting drops the bits below, so all that is left belongs. */
  lemma FirstPart(data: seq<Byte>, k: nat, s: nat)
    requires k < |data| && s < 8
    ensures Low(Shr(data[k], s), 8) == Slice(data, 8 * k + s, 8 - s)
  {
    ByteBits(data[k]);
    ShrBound(data[k], s, 8);
    Pow2Mono(8 - s, 8);
    SliceInByte(data, k, s, 8 - s);
    LowFits(Shr(data[k], s), 8);
    LowFits(Shr(data[k], s), 8 - s);
  }

  /** A whole byte in the middle. */
  lemma MiddlePart(data: seq<Byte>, k: nat)
    requires k < |data|
    ensures data[k] == Slice(data, 8 * k, 8)
  {
    ByteBits(data[k]);
    SliceInByte(data, k, 0, 8);
    LowFits(data[k], 8);
  }

  /** The low `e` bits of the last byte, moved above the bits before them. */
  lemma LastPart(data: seq<Byte>, k: nat, e: nat)
    requires k < |data| && 0 < e <= 8
    ensures Shl(Low(Shl(data[k], 8 - e), 8), 3) == Shl(Slice(data, 8 * k, e), 11 - e)
  {
    LowShl(data[k], 8 - e, e);
    SliceInByte(data, k, 0, e);
    hide *;
    ShrZero(data[k]);
    ShlShl(Low(data[k], e), 8 - e, 3);
  }

  lemma ShrZero(x: int)
    ensures Shr(x, 0) == x
  {
  }

  lemma TwoBytes(data: seq<Byte>, k: nat, s: nat)
    requires k + 1 < |data| && s < 5
    ensures Low(Shr(data[k], s), 8) + Shl(Low(Shl(data[k + 1], 5 - s), 8), 3) == Slice(data, 8 * k + s, 11)
  {
    hide *;
    FirstPart(data, k, s);
    LastPart(data, k + 1, s + 3);
    SliceSplit(data, 8 * k + s, 8 - s, s + 3);
  }

  lemma ThreeBytes(data: seq<Byte>, k: nat, s: nat)
    requires k + 1 < |data| && 5 <= s < 8 && (s > 5 ==> k + 2 < |data|)
    ensures s == 5 ==> Low(Shr(data[k], s), 8) + Shl(data[k + 1], 8 - s) == Slice(data, 8 * k + s, 11)
    ensures s > 5 ==> Low(Shr(data[k], s), 8) + Shl(data[k + 1], 8 - s) + Shl(Low(Shl(data[k + 2], 13 - s), 8), 3)
                      == Slice(data, 8 * k + s, 11)
  {
    hide *;
    FirstPart(data, k, s);
    MiddlePart(data, k + 1);
    SliceSplit(data, 8 * k + s, 8 - s, 8);
    if s > 5 {
      LastPart(data, k + 2, s - 5);
      SliceSplit(data, 8 * k + s, 16 - s, s - 5);
    }
  }

  /** One pass of the channel loop: eleven bits from any alignment, out of two or three bytes. */
  method ReadChannel(data: seq<Byte>, curBit: nat) returns (bits: int)
    requires curBit + 11 <= 8 * |data|
    ensures bits == Slice(data, curBit, 11)
  {
    hide *;
    var curByte := curBit / 8;
    var startBit := curBit % 8;
    var endBit := (curBit + 11) % 8;
    if startBit < 5 {
      TwoBytes(data, curByte, startBit);
    } else {
      ThreeBytes(data, curByte, startBit);
    }
    bits := Low(Shr(data[curByte], startBit), 8);
    curByte := curByte + 1;
    if endBit < 3 {
      bits := bits + Shl(data[curByte], 8 - startBit);
      curByte := curByte + 1;
    }
    if endBit != 0 {
      bits := bits + Shl(Low(Shl(data[curByte], 8 - endBit), 8), 3);
    }
  }

  /** The channel loop of ReadSBUS::Iterate: channel i is bits 11i .. 11i+10 of the payload. */
  method UnpackChannels(data: seq<Byte>) returns (channels: seq<int>)
    requires |data| == 24
    ensures |channels| == 16
    ensures forall i :: 0 <= i < 16 ==> channels[i] == Slice(data, 11 * i, 11)
  {
    hide *;
    channels := [];
    var curBit: nat := 0;
    for i := 0 to 16
      invariant curBit == 11 * i && |channels| == i
      invariant forall j :: 0 <= j < i ==> channels[j] == Slice(data, 11 * j, 11)
    {
      var bits := ReadChannel(data, curBit);
      channels := channels + [bits];
      curBit := curBit + 11;
    }
  }

  // ---------------------------------------------------------------- the transmitter's side

  /** The bit stream of a list of 11-bit channel values. */
  function Stream(channels: seq<nat>): (bs: seq<bool>)
    ensures |bs| == 11 * |channels|
  {
    if channels == [] then [] else ToBits(channels[0], 11) + Stream(channels[1..])
  }

  /** A bit stream cut into bytes. */
  function Bytes(bs: seq<bool>): (data: seq<Byte>)
    requires |bs| % 8 == 0
    ensures 8 * |data| == |bs|
    decreases |bs|
  {
    if bs == [] then []
    else
      FromBitsBound(bs[..8]);
      assert Pow2(8) == 256;
      [FromBits(bs[..8])] + Bytes(bs[8..])
  }

  lemma {:induction false} BitsOfBytes(bs: seq<bool>)
    requires |bs| % 8 == 0
    ensures BitsOf(Bytes(bs)) == bs
    decreases |bs|
  {
    if bs != [] {
      BitsOfBytes(bs[8..]);
      ToFromBits(bs[..8]);
      assert Bytes(bs)[1..] == Bytes(bs[8..]);
      assert bs == bs[..8] + bs[8..];
    }
  }

  lemma {:induction false} BytesOfBits(data: seq<Byte>)
    ensures Bytes(BitsOf(data)) == data
    decreases |data|
  {
    if data != [] {
      BytesOfBits(data[1..]);
      assert BitsOf(data)[..8] == ToBits(data[0], 8) && BitsOf(data)[8..] == BitsOf(data[1..]);
      FromToBits(data[0], 8);
      ByteBits(data[0]);
      LowFits(data[0], 8);
      assert data == [data[0]] + data[1..];
    }
  }

  lemma {:induction false} StreamAt(channels: seq<nat>, i: nat)
    requires i < |channels|
    ensures Stream(channels)[11 * i..11 * i + 11] == ToBits(channels[i], 11)
    decreases i
  {
    if i != 0 {
      StreamAt(channels[1..], i - 1);
      DropChannel(ToBits(channels[0], 11), Stream(channels[1..]), 11 * (i - 1));
    }
  }

  lemma DropChannel(x: seq<bool>, y: seq<bool>, i: nat)
    requires |x| == 11 && i + 11 <= |y|
    ensures (x + y)[i + 11..i + 22] == y[i..i + 11]
  {
  }

  /** Bit streams are equal if they agree channel by channel. */
  lemma {:induction false} StreamEquals(channels: seq<nat>, bs: seq<bool>)
    requires |bs| == 11 * |channels|
    requires forall i :: 0 <= i < |channels| ==> ToBits(channels[i], 11) == bs[11 * i..11 * i + 11]
    ensures Stream(channels) == bs
    decreases |channels|
  {
    if channels != [] {
      var rest := bs[11..];
      forall i | 0 <= i < |channels| - 1
        ensures ToBits(channels[1..][i], 11) == rest[11 * i..11 * i + 11]
      {
        assert channels[1..][i] == channels[i + 1];
        assert rest[11 * i..11 * i + 11] == bs[11 * (i + 1)..11 * (i + 1) + 11];
      }
      StreamEquals(channels[1..], rest);
      assert ToBits(channels[0], 11) == bs[11 * 0..11 * 0 + 11];
      assert bs == bs[..11] + rest;
    }
  }

  /** Unpacking inverts packing: whatever two bytes follow, each channel comes back. */
  lemma PackUnpack(channels: seq<nat>, tail: seq<Byte>, i: nat)
    requires |channels| == 16 && |tail| == 2 && i < 16
    requires forall j :: 0 <= j < 16 ==> channels[j] < 2048
    ensures var data := Bytes(Stream(channels)) + tail;
            |data| == 24 && Slice(data, 11 * i, 11) == channels[i]
  {
    hide *;
    var bs := Stream(channels);
    var body := Bytes(bs);
    BitsOfBytes(bs);
    BitsOfConcat(body, tail);
    StreamAt(channels, i);
    FromToBits(channels[i], 11);
    Fits(channels[i]);
    SliceForm(body + tail, 11 * i, 11);
    assert (bs + BitsOf(tail))[11 * i..11 * i + 11] == bs[11 * i..11 * i + 11];
  }

  lemma Fits(x: nat)
    requires x < 2048
    ensures Low(x, 11) == x
  {
    assert Pow2(11) == 2048;
    hide *;
    LowFits(x, 11);
  }

  lemma SliceForm(data: seq<Byte>, start: nat, size: nat)
    requires start + size <= 8 * |data|
    ensures Slice(data, start, size) == FromBits(BitsOf(data)[start..start + size])
  {
  }

  /** Packing inverts unpacking: the channels determine all 22 payload bytes. */
  lemma UnpackPack(data: seq<Byte>, channels: seq<nat>)
    requires |data| == 24 && |channels| == 16
    requires forall i :: 0 <= i < 16 ==> channels[i] == Slice(data, 11 * i, 11)
    ensures Bytes(Stream(channels)) == data[..22]
  {
    hide *;
    var bs := BitsOf(data[..22]);
    assert data == data[..22] + data[22..];
    BitsOfConcat(data[..22], data[22..]);
    forall i | 0 <= i < 16
      ensures ToBits(channels[i], 11) == bs[11 * i..11 * i + 11]
    {
      SliceForm(data, 11 * i, 11);
      assert BitsOf(data)[11 * i..11 * i + 11] == bs[11 * i..11 * i + 11];
      ToFromBits(bs[11 * i..11 * i + 11]);
    }
    StreamEquals(channels, bs);
    BytesOfBits(data[..22]);
  }

  /** A channel is what the CAN decoder would extract as an 11-bit unsigned field at the same bit. */
  lemma AgreesWithCanField(data: seq<Byte>, start: nat)
    requires start + 11 <= 8 * |data|
    ensures CanFields.FieldValue(CanFields.Field(11, false, CanFields.Scaled), Slice(data, start, 11))
         == Slice(data, start, 11)
  {
    hide *;
    SliceBound(data, start, 11);
    Pow2Mono(11, 63);
    AsField(Slice(data, start, 11));
    CanFields.StoredExact(Slice(data, start, 11), 64);
  }

  lemma AsField(raw: nat)
    ensures CanFields.Decodable(CanFields.Field(11, false, CanFields.Scaled))
    ensures CanFields.FieldValue(CanFields.Field(11, false, CanFields.Scaled), raw) == CanFields.Stored(raw, 64)
  {
    hide CanFields.Stored;
  }
}
