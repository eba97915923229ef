/** The table-driven CRC-16, high byte of the remainder first. */
module Crc16 {
  import opened BitDivision
  import opened MessageBits

  /** What the table has to hold: the index times x^16, divided. */
  function Entry(i: bv16): bv16 {
    var t := i ^ (i >> 4);
    t ^ (t << 5) ^ (t << 12)
  }

  function Crc16Tab(i: bv16): (v: bv16)
    requires i < 0x100
    ensures v == Entry(i)
  {
    if i < 0x08 then Pick(i, 0x0000, 0x1021, 0x2042, 0x3063, 0x4084, 0x50a5, 0x60c6, 0x70e7)
    else if i < 0x10 then Pick(i, 0x8108, 0x9129, 0xa14a, 0xb16b, 0xc18c, 0xd1ad, 0xe1ce, 0xf1ef)
    else if i < 0x18 then Pick(i, 0x1231, 0x0210, 0x3273, 0x2252, 0x52b5, 0x4294, 0x72f7, 0x62d6)
    else if i < 0x20 then Pick(i, 0x9339, 0x8318, 0xb37b, 0xa35a, 0xd3bd, 0xc39c, 0xf3ff, 0xe3de)
    else if i < 0x28 then Pick(i, 0x2462, 0x3443, 0x0420, 0x1401, 0x64e6, 0x74c7, 0x44a4, 0x5485)
    else if i < 0x30 then Pick(i, 0xa56a, 0xb54b, 0x8528, 0x9509, 0xe5ee, 0xf5cf, 0xc5ac, 0xd58d)
    else if i < 0x38 then Pick(i, 0x3653, 0x2672, 0x1611, 0x0630, 0x76d7, 0x66f6, 0x5695, 0x46b4)
    else if i < 0x40 then Pick(i, 0xb75b, 0xa77a, 0x9719, 0x8738, 0xf7df, 0xe7fe, 0xd79d, 0xc7bc)
    else if i < 0x48 then Pick(i, 0x48c4, 0x58e5, 0x6886, 0x78a7, 0x0840, 0x1861, 0x2802, 0x3823)
    else if i < 0x50 then Pick(i, 0xc9cc, 0xd9ed, 0xe98e, 0xf9af, 0x8948, 0x9969, 0xa90a, 0xb92b)
    else if i < 0x58 then Pick(i, 0x5af5, 0x4ad4, 0x7ab7, 0x6a96, 0x1a71, 0x0a50, 0x3a33, 0x2a12)
    else if i < 0x60 then Pick(i, 0xdbfd, 0xcbdc, 0xfbbf, 0xeb9e, 0x9b79, 0x8b58, 0xbb3b, 0xab1a)
    else if i < 0x68 then Pick(i, 0x6ca6, 0x7c87, 0x4ce4, 0x5cc5, 0x2c22, 0x3c03, 0x0c60, 0x1c41)
    else if i < 0x70 then Pick(i, 0xedae, 0xfd8f, 0xcdec, 0xddcd, 0xad2a, 0xbd0b, 0x8d68, 0x9d49)
    else if i < 0x78 then Pick(i, 0x7e97, 0x6eb6, 0x5ed5, 0x4ef4, 0x3e13, 0x2e32, 0x1e51, 0x0e70)
    else if i < 0x80 then Pick(i, 0xff9f, 0xefbe, 0xdfdd, 0xcffc, 0xbf1b, 0xaf3a, 0x9f59, 0x8f78)
    else if i < 0x88 then Pick(i, 0x9188, 0x81a9, 0xb1ca, 0xa1eb, 0xd10c, 0xc12d, 0xf14e, 0xe16f)
    else if i < 0x90 then Pick(i, 0x1080, 0x00a1, 0x30c2, 0x20e3, 0x5004, 0x4025, 0x7046, 0x6067)
    else if i < 0x98 then Pick(i, 0x83b9, 0x9398, 0xa3fb, 0xb3da, 0xc33d, 0xd31c, 0xe37f, 0xf35e)
    else if i < 0xa0 then Pick(i, 0x02b1, 0x1290, 0x22f3, 0x32d2, 0x4235, 0x5214, 0x6277, 0x7256)
    else if i < 0xa8 then Pick(i, 0xb5ea, 0xa5cb, 0x95a8, 0x8589, 0xf56e, 0xe54f, 0xd52c, 0xc50d)
    else if i < 0xb0 then Pick(i, 0x34e2, 0x24c3, 0x14a0, 0x0481, 0x7466, 0x6447, 0x5424, 0x4405)
    else if i < 0xb8 then Pick(i, 0xa7db, 0xb7fa, 0x8799, 0x97b8, 0xe75f, 0xf77e, 0xc71d, 0xd73c)
    else if i < 0xc0 then Pick(i, 0x26d3, 0x36f2, 0x0691, 0x16b0, 0x6657, 0x7676, 0x4615, 0x5634)
    else if i < 0xc8 then Pick(i, 0xd94c, 0xc96d, 0xf90e, 0xe92f, 0x99c8, 0x89e9, 0xb98a, 0xa9ab)
    else if i < 0xd0 then Pick(i, 0x5844, 0x4865, 0x7806, 0x6827, 0x18c0, 0x08e1, 0x3882, 0x28a3)
    else if i < 0xd8 then Pick(i, 0xcb7d, 0xdb5c, 0xeb3f, 0xfb1e, 0x8bf9, 0x9bd8, 0xabbb, 0xbb9a)
    else if i < 0xe0 then Pick(i, 0x4a75, 0x5a54, 0x6a37, 0x7a16, 0x0af1, 0x1ad0, 0x2ab3, 0x3a92)
    else if i < 0xe8 then Pick(i, 0xfd2e, 0xed0f, 0xdd6c, 0xcd4d, 0xbdaa, 0xad8b, 0x9de8, 0x8dc9)
    else if i < 0xf0 then Pick(i, 0x7c26, 0x6c07, 0x5c64, 0x4c45, 0x3ca2, 0x2c83, 0x1ce0, 0x0cc1)
    else if i < 0xf8 then Pick(i, 0xef1f, 0xff3e, 0xcf5d, 0xdf7c, 0xaf9b, 0xbfba, 0x8fd9, 0x9ff8)
    else Pick(i, 0x6e17, 0x7e36, 0x4e55, 0x5e74, 0x2e93, 0x3eb2, 0x0ed1, 0x1ef0)
  }

  function LowByte(x: bv16): bv16 { x & 0xFF }

  /** Index and shifted remainder of one table step. */
  function Index(c: bv8, crc: bv16): (i: bv16)
    ensures i < 0x100
  {
    (crc >> 8) ^ (c as bv16)
  }

  function UpdCrc16(c: bv8, crc: bv16): bv16 {
    Xor(Crc16Tab(Index(c, crc)), ByteUp(crc))
  }

  function Crc16Of(crc: bv16, buf: seq<bv8>): bv16
    decreases |buf|
  {
    if buf == [] then crc else Crc16Of(UpdCrc16(buf[0], crc), buf[1..])
  }

  method Crc16(crc0: bv16, buffer: array<bv8>, len: nat) returns (crc: bv16)
    requires len <= buffer.Length
    ensures crc == Crc16Of(crc0, buffer[..len])
  {
    crc := crc0;
    var left, buf := len, 0;
    while left > 0
      invariant buf + left == len
      invariant Crc16Of(crc, buffer[buf..len]) == Crc16Of(crc0, buffer[..len])
    {
      left := left - 1;
      assert buffer[buf..len][1..] == buffer[buf + 1..len];
      crc := UpdCrc16(buffer[buf], crc);
      buf := buf + 1;
    }
  }

  // ---- the table form is division ---------------------------------------------------------------

  lemma EightShifts(x: bv16)
    ensures ShiftN(x, 8) == Shift(Shift(Shift(Shift(Shift(Shift(Shift(Shift(x))))))))
  {
    assert ShiftN(x, 8) == ShiftN(Shift(Shift(x)), 6);
    var y := Shift(Shift(x));
    assert ShiftN(y, 6) == ShiftN(Shift(Shift(y)), 4);
    var z := Shift(Shift(y));
    assert ShiftN(z, 4) == ShiftN(Shift(Shift(z)), 2);
  }

  lemma EntryRaw(i: bv16)
    requires i < 0x100
    ensures Entry(i) == Shift(Shift(Shift(Shift(Shift(Shift(Shift(Shift(ByteUp(i)))))))))
  {
  }

  lemma LowByteShifts(x: bv16)
    requires x < 0x100
    ensures Shift(Shift(Shift(Shift(Shift(Shift(Shift(Shift(x)))))))) == ByteUp(x)
  {
  }

  lemma SplitRaw(w: bv16, crc: bv16)
    ensures crc ^ (w << 8) == (((crc >> 8) ^ w) << 8) ^ (crc & 0xFF)
  {
  }

  lemma SameXor(a: bv16, b: bv16, c: bv16, d: bv16)
    requires a ^ b == c ^ d
    ensures Xor(a, b) == Xor(c, d)
  {
  }

  lemma SplitStep(c: bv8, crc: bv16)
    ensures Xor(crc, HighByte(c)) == Xor(ByteUp(Index(c, crc)), LowByte(crc))
  {
    hide Xor;
    var w := c as bv16;
    SplitRaw(w, crc);
    SameXor(crc, w << 8, ((crc >> 8) ^ w) << 8, crc & 0xFF);
  }

  lemma LowByteUp(crc: bv16)
    ensures LowByte(crc) < 0x100 && ByteUp(LowByte(crc)) == ByteUp(crc)
  {
    assert (crc & 0xFF) << 8 == crc << 8;
  }

  /** One table step is eight bits of division. */
  lemma StepIsDivision(c: bv8, crc: bv16)
    ensures UpdCrc16(c, crc) == Divide(crc, ByteBits(HighFirst, c))
  {
    var i, low := Index(c, crc), LowByte(crc);
    HighByteFits(c);
    DivideAtOnce(crc, HighByte(c), 8);
    SplitStep(c, crc);
    ShiftNLinear(ByteUp(i), low, 8);
    EightShifts(ByteUp(i));
    EntryRaw(i);
    LowByteUp(crc);
    EightShifts(low);
    LowByteShifts(low);
  }

  /** On every buffer the table form is the bit-at-a-time division. */
  lemma {:induction false} Crc16IsDivision(crc: bv16, buf: seq<bv8>)
    ensures Crc16Of(crc, buf) == Divide(crc, Bits(HighFirst, buf))
    decreases |buf|
  {
    if buf == [] {
    } else {
      StepIsDivision(buf[0], crc);
      Crc16IsDivision(UpdCrc16(buf[0], crc), buf[1..]);
      DivideAppend(crc, ByteBits(HighFirst, buf[0]), Bits(HighFirst, buf[1..]));
    }
  }

  // ---- error detection --------------------------------------------------------------------------

  /** Two buffers whose bits differ only within 16 consecutive positions never have the same CRC; two
      adjacent bytes are such positions. */
  lemma Crc16DetectsBursts(crc: bv16, x: seq<bv8>, y: seq<bv8>, k: nat)
    requires |x| == |y| && x != y
    requires forall i :: 0 <= i < 8 * |x| && (i < k || i >= k + 16) ==> Bits(HighFirst, x)[i] == Bits(HighFirst, y)[i]
    ensures Crc16Of(crc, x) != Crc16Of(crc, y)
  {
    Crc16IsDivision(crc, x);
    Crc16IsDivision(crc, y);
    if Bits(HighFirst, x) == Bits(HighFirst, y) { BitsInjective(HighFirst, x, y); }
    WindowDetected(crc, Bits(HighFirst, x), Bits(HighFirst, y), k);
  }

  /** Two buffers that differ in two adjacent bytes, or in one, never have the same CRC. */
  lemma AdjacentBytesDetected(crc: bv16, head: seq<bv8>, u: seq<bv8>, v: seq<bv8>, tail: seq<bv8>)
    requires |u| == |v| <= 2 && u != v
    ensures Crc16Of(crc, head + u + tail) != Crc16Of(crc, head + v + tail)
  {
    if Bits(HighFirst, u) == Bits(HighFirst, v) { BitsInjective(HighFirst, u, v); }
    BurstDetected(crc, Bits(HighFirst, head), Bits(HighFirst, u), Bits(HighFirst, v), Bits(HighFirst, tail));
    BitsAppend(HighFirst, head + u, tail);
    BitsAppend(HighFirst, head, u);
    BitsAppend(HighFirst, head + v, tail);
    BitsAppend(HighFirst, head, v);
    Crc16IsDivision(crc, head + u + tail);
    Crc16IsDivision(crc, head + v + tail);
  }

  lemma {:induction false} Crc16Append(crc: bv16, a: seq<bv8>, b: seq<bv8>)
    ensures Crc16Of(crc, a + b) == Crc16Of(Crc16Of(crc, a), b)
    decreases |a|
  {
    if a == [] {
      assert a + b == b;
    } else {
      Crc16Append(UpdCrc16(a[0], crc), a[1..], b);
      assert (a + b)[1..] == a[1..] + b;
    }
  }

  lemma OwnHalves(r: bv16)
    ensures UpdCrc16(HighHalf(r), r) == ByteUp(r)
    ensures UpdCrc16(LowHalf(r), ByteUp(r)) == 0
  {
    assert Index(HighHalf(r), r) == 0;
    assert Crc16Tab(0) == 0;
    assert Xor(0, ByteUp(r)) == ByteUp(r);
    assert Index(LowHalf(r), r << 8) == 0;
    assert ByteUp(r << 8) == 0;
  }

  lemma OwnResidue(r: bv16)
    ensures Crc16Of(r, [HighHalf(r), LowHalf(r)]) == 0
  {
    OwnHalves(r);
    var own := [HighHalf(r), LowHalf(r)];
    assert own[1..] == [LowHalf(r)];
    assert Crc16Of(r, own) == Crc16Of(ByteUp(r), own[1..]);
    assert Crc16Of(ByteUp(r), [LowHalf(r)]) == Crc16Of(0, [LowHalf(r)][1..]);
  }

  /** With its own two bytes appended, high byte first, the CRC is 0, and with no others. */
  lemma Crc16Residue(crc: bv16, buf: seq<bv8>, hi: bv8, lo: bv8)
    ensures Crc16Of(crc, buf + [hi, lo]) == 0 <==>
            hi == HighHalf(Crc16Of(crc, buf)) && lo == LowHalf(Crc16Of(crc, buf))
  {
    Crc16Append(crc, buf, [hi, lo]);
    TwoByteResidue(Crc16Of(crc, buf), hi, lo);
  }

  lemma TwoByteResidue(r: bv16, hi: bv8, lo: bv8)
    ensures Crc16Of(r, [hi, lo]) == 0 <==> hi == HighHalf(r) && lo == LowHalf(r)
  {
    if hi == HighHalf(r) && lo == LowHalf(r) {
      OwnResidue(r);
    } else {
      OthersDiffer(r, hi, lo);
    }
  }

  lemma OthersDiffer(r: bv16, hi: bv8, lo: bv8)
    requires hi != HighHalf(r) || lo != LowHalf(r)
    ensures Crc16Of(r, [hi, lo]) != 0
  {
    var x, own := [hi, lo], [HighHalf(r), LowHalf(r)];
    assert x[0] != own[0] || x[1] != own[1];
    OwnResidue(r);
    Crc16DetectsBursts(r, x, own, 0);
  }
}
