/**
 Where the parts of a frame identifier lie on the wire (can/pgn.h), as bit slices of the 32-bit word's four
 little-endian bytes, and which group number a received word carries (section 5.3 of SAE J1939-21).
 */
module CanIdLayout {
  import opened Bits
  import opened Division
  import opened CanId

  lemma SliceLow(n: nat, m: nat, start: nat, size: nat)
    requires start + size <= 8 * m
    ensures Slice(LeBytes(n, m), start, size) == Low(Shr(n, start), size)
  {
    var bs := ToBits(n, 8 * m);
    assert Slice(LeBytes(n, m), start, size) == FromBits(BitsOf(LeBytes(n, m))[start..start + size]);
    hide *;
    LeBits(n, m);
    assert bs[start..start + size] == bs[start..][..size];
    ToBitsDrop(n, 8 * m, start);
    ToBitsTake(Shr(n, start), 8 * m - start, size);
    FromToBits(Shr(n, start), size);
  }

  /** A slice of a number's little-endian bytes. */
  lemma SliceOfNumber(n: nat, m: nat, start: nat, size: nat)
    requires start + size <= 8 * m
    ensures Slice(LeBytes(n, m), start, size) == (n / Pow2(start)) % Pow2(size)
  {
    hide *;
    SliceLow(n, m, start, size);
    LowShrAre(Shr(n, start), size);
    LowShrAre(n, start);
  }

  /** The four bytes of a word in memory. */
  function Bytes(raw: Word32): seq<Byte> {
    LeBytes(raw, 4)
  }

  lemma Powers()
    ensures Pow2(0) == 1 && Pow2(1) == 2 && Pow2(2) == 4 && Pow2(3) == 8 && Pow2(8) == 0x100 && Pow2(16) == 0x1_0000
    ensures Pow2(24) == 0x100_0000 && Pow2(25) == 0x200_0000 && Pow2(26) == 0x400_0000
    ensures Pow2(29) == 0x2000_0000 && Pow2(31) == 0x8000_0000
  {
    assert Pow2(8) == 0x100;
    assert Pow2(16) == 0x1_0000;
    assert Pow2(24) == 0x100_0000;
    assert Pow2(26) == 0x400_0000;
    assert Pow2(29) == 0x2000_0000;
  }

  /** What each part of the struct is, by division. */
  lemma PartsAre(raw: Word32)
    ensures var id := RetrieveID(raw);
      && id.source == raw % 0x100 && id.ps == (raw / 0x100) % 0x100 && id.pf == (raw / 0x1_0000) % 0x100
      && id.dp == (raw / 0x100_0000) % 2 && id.reserved == (raw / 0x200_0000) % 2
      && id.priority == (raw / 0x400_0000) % 8 && id.unused == (raw / 0x2000_0000) % 4
      && id.effIdent == (raw / 0x8000_0000) % 2
  {
    var r1 := raw / 0x100;
    var r2 := r1 / 0x100;
    var f0 := r2 / 0x100;
    assert r2 == raw / 0x1_0000 && f0 == raw / 0x100_0000;
    var f1 := f0 / 2;
    var f2 := f1 / 2;
    var f3 := f2 / 8;
    assert f1 == raw / 0x200_0000 && f2 == raw / 0x400_0000 && f3 == raw / 0x2000_0000;
    assert f3 / 4 == raw / 0x8000_0000 < 2;
  }

  /** The struct's parts are the slices of the word's bytes: source, PS and PF in a byte each, then data page,
      a reserved bit, three bits of priority, two unused bits and the extended-frame flag. */
  lemma Layout(raw: Word32)
    ensures var id, b := RetrieveID(raw), Bytes(raw);
      && id.source == Slice(b, 0, 8) && id.ps == Slice(b, 8, 8) && id.pf == Slice(b, 16, 8)
      && id.dp == Slice(b, 24, 1) && id.reserved == Slice(b, 25, 1) && id.priority == Slice(b, 26, 3)
      && id.unused == Slice(b, 29, 2) && id.effIdent == Slice(b, 31, 1)
  {
    var b := Bytes(raw);
    assert b == LeBytes(raw, 4);
    hide *;
    Powers();
    PartsAre(raw);
    SliceOfNumber(raw, 4, 0, 8);
    SliceOfNumber(raw, 4, 8, 8);
    SliceOfNumber(raw, 4, 16, 8);
    SliceOfNumber(raw, 4, 24, 1);
    SliceOfNumber(raw, 4, 25, 1);
    SliceOfNumber(raw, 4, 26, 3);
    SliceOfNumber(raw, 4, 29, 2);
    SliceOfNumber(raw, 4, 31, 1);
  }

  /** And so they are in the word made of a struct. */
  lemma ConstructLayout(id: Id)
    ensures var b := Bytes(ConstructID(id));
      && id.source == Slice(b, 0, 8) && id.ps == Slice(b, 8, 8) && id.pf == Slice(b, 16, 8)
      && id.dp == Slice(b, 24, 1) && id.reserved == Slice(b, 25, 1) && id.priority == Slice(b, 26, 3)
      && id.unused == Slice(b, 29, 2) && id.effIdent == Slice(b, 31, 1)
  {
    hide *;
    IdRoundTrip(id);
    Layout(ConstructID(id));
  }

  lemma SplitGroup(a: nat)
    ensures var w := a % 0x2_0000;
      && w % 0x100 == a % 0x100
      && w == 0x1_0000 * ((a / 0x1_0000) % 2) + 0x100 * ((a / 0x100) % 0x100) + a % 0x100
  {
    var lo, up := a % 0x100, a / 0x100;
    var mid, hi := up % 0x100, up / 0x100;
    assert hi == a / 0x1_0000 && a == lo + 0x100 * up && up == mid + 0x100 * hi;
    Reassemble(a, lo, mid, hi);
  }

  lemma Reassemble(a: nat, lo: nat, mid: nat, hi: nat)
    requires a == lo + 0x100 * (mid + 0x100 * hi) && lo < 0x100 && mid < 0x100
    ensures a % 0x2_0000 == 0x1_0000 * (hi % 2) + 0x100 * mid + lo && (a % 0x2_0000) % 0x100 == lo
  {
    var w := 0x1_0000 * (hi % 2) + 0x100 * mid + lo;
    Residue(a, 0x2_0000, hi / 2, w);
    Residue(w, 0x100, 0x100 * (hi % 2) + mid, lo);
  }

  /** The group number of a received word: the 17 bits above the source byte, without the low byte of a PDU1
      format, where that byte is a destination address. */
  lemma GroupNumber(raw: Word32)
    ensures var w := (raw / 0x100) % 0x2_0000;
      GetPGN(RetrieveID(raw)) == if (raw / 0x1_0000) % 0x100 >= 240 then w else w - w % 0x100
  {
    var id := RetrieveID(raw);
    PgnIs(id);
    hide *;
    PartsAre(raw);
    var a := raw / 0x100;
    Shifted(raw, a);
    SplitGroup(a);
  }

  lemma PgnIs(id: Id)
    ensures GetPGN(id) == 0x1_0000 * id.dp + 0x100 * id.pf + if id.pf >= 240 then id.ps else 0
  {
  }

  lemma Shifted(raw: nat, a: nat)
    requires a == raw / 0x100
    ensures raw / 0x1_0000 == a / 0x100 && raw / 0x100_0000 == a / 0x1_0000
  {
  }

  /** Setting a group number puts it into bits 8 to 24 of the word, but leaves the destination address of a
      PDU1 format where it is, and touches nothing else. */
  lemma SetGroup(id: Id, pgn: nat)
    requires pgn < 0x2_0000
    ensures var b, b0 := Bytes(ConstructID(SetPGN(id, pgn))), Bytes(ConstructID(id));
      && Slice(b, 16, 8) == (pgn / 0x100) % 0x100 && Slice(b, 24, 1) == pgn / 0x1_0000
      && Slice(b, 8, 8) == (if (pgn / 0x100) % 0x100 >= 240 then pgn % 0x100 else Slice(b0, 8, 8))
      && Slice(b, 0, 8) == Slice(b0, 0, 8) && Slice(b, 25, 1) == Slice(b0, 25, 1)
      && Slice(b, 26, 3) == Slice(b0, 26, 3) && Slice(b, 29, 2) == Slice(b0, 29, 2)
      && Slice(b, 31, 1) == Slice(b0, 31, 1)
  {
    SetIs(id, pgn);
    hide *;
    ConstructLayout(id);
    ConstructLayout(SetPGN(id, pgn));
  }

  lemma SetIs(id: Id, pgn: nat)
    requires pgn < 0x2_0000
    ensures var r := SetPGN(id, pgn);
      && r.pf == (pgn / 0x100) % 0x100 && r.dp == pgn / 0x1_0000
      && r.ps == (if (pgn / 0x100) % 0x100 >= 240 then pgn % 0x100 else id.ps)
      && r.source == id.source && r.reserved == id.reserved && r.priority == id.priority
      && r.unused == id.unused && r.effIdent == id.effIdent
  {
  }

  /** The identifier of an outgoing frame; `ps` is what the struct's second byte happens to hold. */
  function FrameId(pgn: int, ps: Byte): Word32 {
    var id := SetPGN(Id(0, ps, 0, 0, 0, 0, 0, 1), pgn);
    ConstructID(id.(priority := 5, source := 0x15))
  }

  /** A receiver of the frame sees source 0x15, priority 5, the extended-frame flag, and, for every group
      number of 17 bits in PDU2 format, that group number. */
  lemma FrameIdSays(pgn: nat, ps: Byte)
    requires pgn < 0x2_0000
    ensures var raw := FrameId(pgn, ps);
      && Slice(Bytes(raw), 0, 8) == 0x15 && Slice(Bytes(raw), 26, 3) == 5 && Slice(Bytes(raw), 31, 1) == 1
      && ((pgn / 0x100) % 0x100 >= 240 ==> GetPGN(RetrieveID(raw)) == pgn)
  {
    var id := SetPGN(Id(0, ps, 0, 0, 0, 0, 0, 1), pgn).(priority := 5, source := 0x15);
    FrameIdIs(pgn, ps, id);
    hide *;
    ConstructLayout(id);
    IdRoundTrip(id);
  }

  lemma FrameIdIs(pgn: nat, ps: Byte, id: Id)
    requires pgn < 0x2_0000
    requires id == SetPGN(Id(0, ps, 0, 0, 0, 0, 0, 1), pgn).(priority := 5, source := 0x15)
    ensures FrameId(pgn, ps) == ConstructID(id) && id.source == 0x15 && id.priority == 5 && id.effIdent == 1
    ensures (pgn / 0x100) % 0x100 >= 240 ==> GetPGN(id) == pgn
  {
    SetThenGet(Id(0, ps, 0, 0, 0, 0, 0, 1), pgn);
    hide ConstructID;
  }
}
