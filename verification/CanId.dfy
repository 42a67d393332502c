/**
 The 29-bit CAN identifier (can/pgn.h, can/pgn.cc): SAE J1939-21 section 5.3 packs a 17-bit parameter
 group number into the data page bit, the PDU format byte and, for PDU2 formats, the group extension.
 */
module CanId {
  import opened Bits

  type Flag = x: int | 0 <= x < 2
  type TwoBits = x: int | 0 <= x < 4
  type ThreeBits = x: int | 0 <= x < 8
  type Word32 = x: int | 0 <= x < 0x1_0000_0000

  /** struct CANID: three bytes and a byte of bit fields, lowest bits first. */
  datatype Id = Id(source: Byte, ps: Byte, pf: Byte,
                   dp: Flag, reserved: Flag, priority: ThreeBits, unused: TwoBits, effIdent: Flag)

  /** The byte of bit fields. */
  function Flags(id: Id): Byte {
    id.dp + 2 * (id.reserved + 2 * (id.priority + 8 * (id.unused + 4 * id.effIdent)))
  }

  /** The struct read as a little-endian 32-bit word. */
  function ConstructID(id: Id): Word32 {
    id.source + 0x100 * (id.ps + 0x100 * (id.pf + 0x100 * Flags(id)))
  }

  /** A 32-bit word read as the struct. */
  function RetrieveID(raw: Word32): Id {
    var r1 := raw / 0x100;
    var r2 := r1 / 0x100;
    var f0 := r2 / 0x100;
    var f1 := f0 / 2;
    var f2 := f1 / 2;
    var f3 := f2 / 8;
    Id(raw % 0x100, r1 % 0x100, r2 % 0x100, f0 % 2, f1 % 2, f2 % 8, f3 % 4, f3 / 4)
  }

  function GetPGN(id: Id): int {
    0x1_0000 * id.dp + 0x100 * id.pf + (if id.pf < 240 then 0 else id.ps)
  }

  /** SetPGN on an int32_t, whose right shifts are arithmetic. */
  function SetPGN(id: Id, pgn: int): Id {
    var low := pgn % 0x100;
    var pf := (pgn / 0x100) % 0x100;
    var dp := (pgn / 0x1_0000) % 2;
    id.(pf := pf, dp := dp, ps := if pf >= 240 then low else id.ps)
  }

  lemma IdRoundTrip(id: Id)
    ensures RetrieveID(ConstructID(id)) == id
  {
    var r2 := id.pf + 0x100 * Flags(id);
    var r1 := id.ps + 0x100 * r2;
    PeelByte(id.source, r1);
    PeelByte(id.ps, r2);
    PeelByte(id.pf, Flags(id));
    FlagsRoundTrip(id);
  }

  lemma PeelByte(x: Byte, rest: nat)
    ensures (x + 0x100 * rest) % 0x100 == x && (x + 0x100 * rest) / 0x100 == rest
  {
  }

  lemma FlagsRoundTrip(id: Id)
    ensures var f0 := Flags(id);
            var f1 := f0 / 2;
            var f2 := f1 / 2;
            var f3 := f2 / 8;
            && f0 % 2 == id.dp && f1 % 2 == id.reserved && f2 % 8 == id.priority
            && f3 % 4 == id.unused && f3 / 4 == id.effIdent
  {
  }

  lemma RawRoundTrip(raw: Word32)
    ensures ConstructID(RetrieveID(raw)) == raw
  {
  }

  /** A group number survives the trip through a raw frame identifier exactly when it has 17 bits and
      either is a PDU2 number or leaves its low byte, the PDU1 destination address, zero. Source and
      priority are untouched. */
  lemma PgnRoundTrip(id: Id, pgn: int)
    ensures GetPGN(RetrieveID(ConstructID(SetPGN(id, pgn)))) == pgn
       <==> 0 <= pgn < 0x2_0000 && ((pgn / 0x100) % 0x100 >= 240 || pgn % 0x100 == 0)
    ensures var back := RetrieveID(ConstructID(SetPGN(id, pgn)));
            back.source == id.source && back.priority == id.priority
  {
    hide *;
    IdRoundTrip(SetPGN(id, pgn));
    SetThenGet(id, pgn);
  }

  lemma SetThenGet(id: Id, pgn: int)
    ensures GetPGN(SetPGN(id, pgn)) == pgn
       <==> 0 <= pgn < 0x2_0000 && ((pgn / 0x100) % 0x100 >= 240 || pgn % 0x100 == 0)
    ensures SetPGN(id, pgn).source == id.source && SetPGN(id, pgn).priority == id.priority
  {
    var hi := pgn / 0x100;
    assert pgn / 0x1_0000 == hi / 0x100;
    if 0 <= pgn < 0x2_0000 {
      assert 0 <= hi < 0x200;
    }
  }

  /** The group number a receiver sees for a PDU1 number with a destination in its low byte. */
  lemma PduOneLosesLowByte(id: Id, pgn: int)
    requires 0 <= pgn < 0x2_0000 && (pgn / 0x100) % 0x100 < 240
    ensures GetPGN(SetPGN(id, pgn)) == pgn - pgn % 0x100
  {
    assert pgn / 0x1_0000 == (pgn / 0x100) / 0x100;
  }
}
