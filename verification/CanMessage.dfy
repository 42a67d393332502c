/**
 Whole CAN messages (can/can.cc): the walk that decodes the fields of a message one after the other,
 the encoder that lays the fields of an outgoing message out in a frame, and the round trip.
 */
module CanMessage {
  import opened Bits
  import opened CanFields
  import opened Options

  /** The bit at which field `i` starts: fields are contiguous. */
  function Offset(fields: seq<Field>, i: nat): nat
    requires i <= |fields|
  {
    if i == 0 then 0 else Offset(fields, i - 1) + fields[i - 1].size
  }

  lemma {:induction false} OffsetMono(fields: seq<Field>, i: nat, j: nat)
    requires i <= j <= |fields|
    ensures Offset(fields, i) <= Offset(fields, j)
    decreases j
  {
    if i < j {
      OffsetMono(fields, i, j - 1);
    }
  }

  /** Values at the top of the range mean "not available". */
  predicate IsReserved(val: int, maxval: int) {
    (maxval >= 15 && maxval - val <= 2) || (maxval > 1 && maxval - val <= 1) || maxval == val
  }

  /** The number extracted bit by bit from fields of this kind. */
  predicate Numeric(f: Field) {
    f.kind.Scaled? || f.kind.Lookup?
  }

  /** A field the decoder extracts is decodable, and all it reads lies in the buffer. */
  predicate FieldReadable(f: Field, data: seq<Byte>, at: nat) {
    && at + f.size <= 8 * |data| && (Numeric(f) ==> Decodable(f))
    && (f.kind.Date? ==> at / 8 + 2 <= |data|) && (f.kind.Time? ==> at / 8 + 4 <= |data|)
  }

  predicate Readable(fields: seq<Field>, data: seq<Byte>) {
    forall i :: 0 <= i < |fields| ==> FieldReadable(fields[i], data, Offset(fields, i))
  }

  /** What decoding must say about a field that starts at bit `at`: the slice of its bits, as a number of its
      kind. A latitude or longitude out of step with the bytes, or neither 32 nor 64 bits wide, comes out as 0.
      Dates and times start at the byte their first bit is in, have a fixed width and are always available. */
  function FieldAt(f: Field, data: seq<Byte>, at: nat): Option<int>
    requires FieldReadable(f, data, at)
  {
    match f.kind
    case Skipped => None
    case Date => Some(Slice(data, 8 * (at / 8), 16))
    case Time => Some(Slice(data, 8 * (at / 8), 32))
    case Coordinate => CoordinateAt(data, at, f.size)
    case _ => Available(FieldValue(f, Slice(data, at, f.size)), FieldMax(f))
  }

  /** Field `i` of a message. */
  function Decoded(fields: seq<Field>, data: seq<Byte>, i: nat): Option<int>
    requires Readable(fields, data) && i < |fields|
  {
    FieldAt(fields[i], data, Offset(fields, i))
  }

  function CoordinateAt(data: seq<Byte>, at: nat, size: nat): Option<int>
    requires at + size <= 8 * |data|
  {
    if at % 8 != 0 || (size != 32 && size != 64) then Some(0)
    else Available(SignExtend(Slice(data, at, size), size), Pow2(size - 1) - 1)
  }

  function Available(val: int, maxval: int): Option<int> {
    if IsReserved(val, maxval) then None else Some(val)
  }

  /** memcpy of `n` bytes into an unsigned integer of a little-endian machine. */
  function Copied(data: seq<Byte>, at: nat, n: nat): (v: nat)
    requires at + n <= |data|
    ensures v == Slice(data, 8 * at, 8 * n)
  {
    CopiedIsSlice(data, at, n);
    LeValue(data[at..at + n])
  }

  lemma CopiedIsSlice(data: seq<Byte>, at: nat, n: nat)
    requires at + n <= |data|
    ensures LeValue(data[at..at + n]) == Slice(data, 8 * at, 8 * n)
  {
    var a, b, c := data[..at], data[at..at + n], data[at + n..];
    assert data == a + b + c;
    BitsOfConcat(a, b);
    BitsOfConcat(a + b, c);
    hide BitsOf, FromBits;
    assert BitsOf(data)[8 * at..8 * at + 8 * n] == BitsOf(b);
  }

  /** memcpy into a signed integer: the same bits read as two's complement. */
  function CopiedSigned(data: seq<Byte>, at: nat, n: nat): int
    requires at + n <= |data| && n > 0
  {
    SignExtend(Copied(data, at, n), 8 * n)
  }

  /** The branch of the field loop for latitudes and longitudes. */
  method DecodeCoordinate(f: Field, data: seq<Byte>, curBit: nat) returns (val: Option<int>)
    requires curBit + f.size <= 8 * |data|
    ensures val == CoordinateAt(data, curBit, f.size)
  {
    hide SignExtend, Slice, Pow2, IsReserved, Copied;
    if curBit % 8 != 0 {
      return Some(0);
    }
    var at := curBit / 8;
    assert curBit == 8 * at;
    if f.size == 32 {
      var v := CopiedSigned(data, at, 4);
      return if IsReserved(v, Pow2(31) - 1) then None else Some(v);
    } else if f.size == 64 {
      var v := CopiedSigned(data, at, 8);
      return if IsReserved(v, Pow2(63) - 1) then None else Some(v);
    }
    return Some(0);
  }

  /** One turn of the field loop. */
  method DecodeField(f: Field, data: seq<Byte>, curBit: nat) returns (v: Option<int>)
    requires FieldReadable(f, data, curBit)
    ensures v == FieldAt(f, data, curBit)
  {
    hide Slice, FieldValue, FieldMax, CoordinateAt, Copied, IsReserved, Decodable;
    match f.kind {
      case Skipped =>
        return None;
      case Coordinate =>
        v := DecodeCoordinate(f, data, curBit);
      case Date =>
        return Some(Copied(data, curBit / 8, 2));
      case Time =>
        return Some(Copied(data, curBit / 8, 4));
      case _ =>
        var val, maxval := ExtractNumberField(f, data, curBit);
        return if IsReserved(val, maxval) then None else Some(val);
    }
  }

  /** The field loop of CanNode::DecodeAndSend. */
  method DecodeFields(fields: seq<Field>, data: seq<Byte>) returns (vals: seq<Option<int>>)
    requires Readable(fields, data)
    ensures |vals| == |fields|
    ensures forall i :: 0 <= i < |fields| ==> vals[i] == Decoded(fields, data, i)
  {
    hide FieldReadable, FieldAt;
    vals := [];
    var curBit: nat := 0;
    for i := 0 to |fields|
      invariant |vals| == i
      invariant curBit == Offset(fields, i)
      invariant forall k :: 0 <= k < i ==> vals[k] == Decoded(fields, data, k)
    {
      var v := DecodeField(fields[i], data, curBit);
      vals := vals + [v];
      curBit := curBit + fields[i].size;
    }
  }

  // ---------------------------------------------------------------- encoding

  /** memcpy of the low `m` bytes of a uint64_t into the frame. */
  method CopyLow(data: array<Byte>, at: nat, n: nat, m: nat)
    requires at + m <= data.Length
    modifies data
    ensures data[..] == old(data[..at]) + LeBytes(n, m) + old(data[at + m..])
  {
    hide *;
    var rest := n;
    LeBytesNil(n);
    assert data[..] == old(data[..at]) + [] + old(data[at..]);
    ghost var done: seq<Byte> := [];
    for b := 0 to m
      invariant |done| == b
      invariant LeBytes(n, m) == done + LeBytes(rest, m - b)
      invariant data[..] == old(data[..at]) + done + old(data[at + b..])
    {
      LeBytesCons(rest, m - b);
      ghost var before := data[..];
      data[at + b] := LowByte(rest);
      Patched(old(data[..at]), done, old(data[at + b..]), LowByte(rest));
      assert data[..] == before[at + b := LowByte(rest)];
      assert old(data[at + b..])[1..] == old(data[at + b + 1..]);
      done := done + [LowByte(rest)];
      rest := Rest(rest);
    }
    LeBytesNil(rest);
  }

  lemma Patched(x: seq<Byte>, y: seq<Byte>, z: seq<Byte>, v: Byte)
    requires z != []
    ensures (x + y + z)[|x| + |y| := v] == x + (y + [v]) + z[1..]
  {
  }

  /** The first `i` fields are whole bytes wide: the only fields the encoder can send. */
  predicate ByteWide(fields: seq<Field>, i: nat)
    requires i <= |fields|
  {
    forall k :: 0 <= k < i ==> fields[k].size % 8 == 0
  }

  /** The bytes of the first `i` fields: numbers little-endian, other fields left as they were. */
  function Payload(before: seq<Byte>, fields: seq<Field>, raws: seq<nat>, i: nat): (p: seq<Byte>)
    requires i <= |fields| == |raws| && Offset(fields, |fields|) <= 8 * |before|
    ensures 8 * |p| <= Offset(fields, i)
    decreases i
  {
    if i == 0 then []
    else
      OffsetMono(fields, i, |fields|);
      var p := Payload(before, fields, raws, i - 1);
      var m := fields[i - 1].size / 8;
      p + if fields[i - 1].kind.Scaled? then LeBytes(raws[i - 1], m) else before[|p|..|p| + m]
  }

  lemma {:induction false} PayloadLength(before: seq<Byte>, fields: seq<Field>, raws: seq<nat>, i: nat)
    requires i <= |fields| == |raws| && Offset(fields, |fields|) <= 8 * |before|
    requires ByteWide(fields, i)
    ensures 8 * |Payload(before, fields, raws, i)| == Offset(fields, i)
    decreases i
  {
    if i != 0 {
      PayloadLength(before, fields, raws, i - 1);
      OffsetMono(fields, i, |fields|);
    }
  }

  lemma {:induction false} PayloadPrefix(before: seq<Byte>, fields: seq<Field>, raws: seq<nat>, i: nat, j: nat)
    requires i <= j <= |fields| == |raws| && Offset(fields, |fields|) <= 8 * |before|
    ensures Payload(before, fields, raws, i) <= Payload(before, fields, raws, j)
    decreases j
  {
    if i < j {
      PayloadPrefix(before, fields, raws, i, j - 1);
      OffsetMono(fields, j, |fields|);
    }
  }

  /** CanNode::ConstructMessage, up to the frame id: refuses a field that is not whole bytes wide,
      otherwise lays the fields out in order and fills the rest of the frame with 0xFF. */
  method ConstructMessage(fields: seq<Field>, raws: seq<nat>, data: array<Byte>) returns (ok: bool)
    requires data.Length == 8 && |raws| == |fields|
    requires Offset(fields, |fields|) <= 64
    modifies data
    ensures ok == ByteWide(fields, |fields|)
    ensures ok ==> var p := Payload(old(data[..]), fields, raws, |fields|);
              p <= data[..] && forall k :: |p| <= k < 8 ==> data[k] == 255
  {
    ghost var before := data[..];
    var dlc: nat := 0;
    Start(before, fields, raws);
    hide *;
    for i := 0 to |fields|
      invariant dlc <= 8 && ByteWide(fields, i)
      invariant dlc == |Payload(before, fields, raws, i)|
      invariant data[..dlc] == Payload(before, fields, raws, i)
      invariant data[dlc..] == before[dlc..]
    {
      ByteWideNext(fields, i);
      if fields[i].size % 8 != 0 {
        return false;
      }
      dlc := AppendField(fields, raws, data, i, dlc, before);
    }
    FillRest(data, dlc);
    ok := true;
  }

  lemma Start(before: seq<Byte>, fields: seq<Field>, raws: seq<nat>)
    requires |fields| == |raws| && Offset(fields, |fields|) <= 8 * |before|
    ensures ByteWide(fields, 0) && Payload(before, fields, raws, 0) == []
  {
  }

  lemma ByteWideNext(fields: seq<Field>, i: nat)
    requires i < |fields|
    ensures ByteWide(fields, i) && fields[i].size % 8 == 0 ==> ByteWide(fields, i + 1)
    ensures fields[i].size % 8 != 0 ==> !ByteWide(fields, |fields|)
  {
  }

  /** Data bytes past the last field are filled with ones. */
  method FillRest(data: array<Byte>, from: nat)
    requires from <= data.Length
    modifies data
    ensures data[..from] == old(data[..from])
    ensures forall k :: from <= k < data.Length ==> data[k] == 255
  {
    var dlc := from;
    while dlc < data.Length
      invariant from <= dlc <= data.Length
      invariant data[..from] == old(data[..from])
      invariant forall k :: from <= k < dlc ==> data[k] == 255
    {
      data[dlc] := 255;
      dlc := dlc + 1;
    }
  }

  /** One pass of the encoder's field loop. */
  method AppendField(fields: seq<Field>, raws: seq<nat>, data: array<Byte>, i: nat, dlc: nat,
                     ghost before: seq<Byte>)
    returns (next: nat)
    requires i < |fields| == |raws| && Offset(fields, |fields|) <= 8 * |before| && |before| == data.Length
    requires dlc == |Payload(before, fields, raws, i)| <= data.Length
    requires data[..dlc] == Payload(before, fields, raws, i) && data[dlc..] == before[dlc..]
    modifies data
    ensures next == |Payload(before, fields, raws, i + 1)| <= data.Length
    ensures data[..next] == Payload(before, fields, raws, i + 1) && data[next..] == before[next..]
  {
    OffsetMono(fields, i + 1, |fields|);
    var m := fields[i].size / 8;
    PayloadNext(before, fields, raws, i);
    hide *;
    next := dlc + m;
    if fields[i].kind.Scaled? {
      CopyLow(data, dlc, raws[i], m);
      assert data[..next] == old(data[..dlc]) + LeBytes(raws[i], m);
      assert data[next..] == old(data[dlc..])[m..];
    } else {
      assert data[..next] == data[..dlc] + data[dlc..][..m];
      assert data[next..] == data[dlc..][m..];
    }
  }

  lemma PayloadNext(before: seq<Byte>, fields: seq<Field>, raws: seq<nat>, i: nat)
    requires i < |fields| == |raws| && Offset(fields, |fields|) <= 8 * |before|
    ensures var p, m := Payload(before, fields, raws, i), fields[i].size / 8;
      && |p| + m <= |before|
      && Payload(before, fields, raws, i + 1) ==
         p + (if fields[i].kind.Scaled? then LeBytes(raws[i], m) else before[|p|..][..m])
  {
    OffsetMono(fields, i + 1, |fields|);
  }

  // ---------------------------------------------------------------- the round trip

  /** Whole bytes in the middle of a buffer are a slice of it. */
  lemma SliceOfMiddle(data: seq<Byte>, x: seq<Byte>, y: seq<Byte>)
    requires x + y <= data
    ensures Slice(data, 8 * |x|, 8 * |y|) == FromBits(BitsOf(y))
  {
    hide *;
    BitsOfPrefix(data, x + y);
    BitsOfConcat(x, y);
    SliceOfPrefix(data, BitsOf(x), BitsOf(y));
  }

  lemma BitsOfPrefix(data: seq<Byte>, p: seq<Byte>)
    requires p <= data
    ensures BitsOf(p) <= BitsOf(data)
  {
    hide *;
    assert data == p + data[|p|..];
    BitsOfConcat(p, data[|p|..]);
  }

  lemma SliceOfPrefix(data: seq<Byte>, bx: seq<bool>, bm: seq<bool>)
    requires bx + bm <= BitsOf(data)
    ensures Slice(data, |bx|, |bm|) == FromBits(bm)
  {
    assert BitsOf(data)[|bx|..|bx| + |bm|] == bm;
  }

  /** In a constructed frame the slice of a numeric field is the low bits of its number. */
  lemma FieldSlice(before: seq<Byte>, after: seq<Byte>, fields: seq<Field>, raws: seq<nat>, i: nat)
    requires i < |fields| == |raws| && |before| == |after| && Offset(fields, |fields|) <= 8 * |before|
    requires ByteWide(fields, |fields|) && fields[i].kind.Scaled?
    requires Payload(before, fields, raws, |fields|) <= after
    ensures Offset(fields, i) + fields[i].size <= 8 * |after|
    ensures Slice(after, Offset(fields, i), fields[i].size) == Low(raws[i], fields[i].size)
  {
    var p, m := Payload(before, fields, raws, i), fields[i].size / 8;
    WholeBytes(fields, i);
    hide *;
    OffsetMono(fields, i + 1, |fields|);
    PayloadPrefix(before, fields, raws, i + 1, |fields|);
    PayloadNext(before, fields, raws, i);
    PayloadLength(before, fields, raws, i);
    LeBits(raws[i], m);
    FromToBits(raws[i], 8 * m);
    SliceOfMiddle(after, p, LeBytes(raws[i], m));
  }

  predicate SameBytes(before: seq<Byte>, after: seq<Byte>, at: nat, m: nat) {
    at + m <= |before| && at + m <= |after| && after[at..at + m] == before[at..at + m]
  }

  /** And the bytes of any other field are what they were. */
  lemma OtherFieldUntouched(before: seq<Byte>, after: seq<Byte>, fields: seq<Field>, raws: seq<nat>, i: nat)
    requires i < |fields| == |raws| && |before| == |after| && Offset(fields, |fields|) <= 8 * |before|
    requires ByteWide(fields, |fields|) && !fields[i].kind.Scaled?
    requires Payload(before, fields, raws, |fields|) <= after
    ensures SameBytes(before, after, Offset(fields, i) / 8, fields[i].size / 8)
  {
    hide *;
    var p, m := Payload(before, fields, raws, i), fields[i].size / 8;
    WholeBytes(fields, i);
    PayloadPrefix(before, fields, raws, i + 1, |fields|);
    PayloadNext(before, fields, raws, i);
    PayloadLength(before, fields, raws, i);
    Within(Payload(before, fields, raws, i + 1), Payload(before, fields, raws, |fields|), after);
    Eighth(|p|, Offset(fields, i));
    KeptMiddle(before, after, p, m, Payload(before, fields, raws, i + 1));
  }

  lemma Within(a: seq<Byte>, b: seq<Byte>, c: seq<Byte>)
    requires a <= b && b <= c
    ensures a <= c
  {
  }

  lemma Eighth(n: nat, bits: nat)
    requires 8 * n == bits
    ensures bits / 8 == n
  {
  }

  lemma KeptMiddle(before: seq<Byte>, after: seq<Byte>, p: seq<Byte>, m: nat, q: seq<Byte>)
    requires |p| + m <= |before| && q == p + before[|p|..][..m] && q <= after
    ensures SameBytes(before, after, |p|, m)
  {
    MiddleOf(after, p, before[|p|..][..m]);
  }

  lemma MiddleOf(data: seq<Byte>, x: seq<Byte>, y: seq<Byte>)
    requires x + y <= data
    ensures data[|x|..|x| + |y|] == y
  {
  }

  lemma WholeBytes(fields: seq<Field>, i: nat)
    requires i < |fields| && ByteWide(fields, |fields|)
    ensures ByteWide(fields, i) && 8 * (fields[i].size / 8) == fields[i].size
    ensures Offset(fields, i + 1) == Offset(fields, i) + fields[i].size
  {
  }

  /** The integers a field can carry. */
  predicate Representable(f: Field, v: int) {
    if f.hasSign then f.size > 0 && -(Pow2(f.size - 1) as int) <= v < Pow2(f.size - 1)
    else 0 <= v < Pow2(f.size) && v < Pow2(63)
  }

  /** The uint64_t put on the wire for an integer. */
  function Wire(v: int): nat {
    Low(v, 64)
  }

  /** Cutting an integer to the width of its field and reading it back returns the integer. */
  lemma WireRoundTrip(f: Field, v: int)
    requires Decodable(f) && Representable(f, v)
    ensures FieldValue(f, Low(Wire(v), f.size)) == v
  {
    LowLow(v, f.size, 64);
    if f.hasSign {
      SignExtendLow(v, f.size);
    } else {
      LowFits(v, f.size);
      hide *;
      StoredExact(v, 64);
    }
  }

  lemma SignExtendLow(v: int, size: nat)
    requires size > 0 && -(Pow2(size - 1) as int) <= v < Pow2(size - 1)
    ensures SignExtend(Low(v, size), size) == v
  {
    if v >= 0 {
      LowFits(v, size);
    } else {
      ShlUnits(size);
      LowPeriodic(v, size, 1);
      LowFits(v + Pow2(size), size);
    }
  }

  /** Decoding a constructed frame gives back every number that was encoded, at every offset. */
  lemma EncodeDecode(before: seq<Byte>, after: seq<Byte>, fields: seq<Field>, vals: seq<int>, i: nat)
    requires |before| == |after| == 8 && |vals| == |fields| && Offset(fields, |fields|) <= 64
    requires ByteWide(fields, |fields|) && Readable(fields, after)
    requires Payload(before, fields, seq(|vals|, k requires 0 <= k < |vals| => Wire(vals[k])), |fields|) <= after
    requires i < |fields| && fields[i].kind.Scaled? && Representable(fields[i], vals[i])
    ensures Decoded(fields, after, i) == if IsReserved(vals[i], FieldMax(fields[i])) then None else Some(vals[i])
  {
    var raws := seq(|vals|, k requires 0 <= k < |vals| => Wire(vals[k]));
    FieldSlice(before, after, fields, raws, i);
    assert Decodable(fields[i]);
    WireRoundTrip(fields[i], vals[i]);
    assert raws[i] == Wire(vals[i]);
  }
}
