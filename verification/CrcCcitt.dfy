/** The table-driven CRC-CCITT, low byte of the remainder first: the mirror image of the other division. */
module CrcCcitt {
  import opened BitDivision
  import opened MessageBits

  /** What the table has to hold: the index divided for eight bits, low bit first. */
  function Entry(i: bv16): bv16 {
    var t := (i ^ (i << 4)) & 0xFF;
    (t << 8) ^ (t << 3) ^ (t >> 4)
  }

  function CrcCcittTab(i: bv16): (v: bv16)
    requires i < 0x100
    ensures v == Entry(i)
  {
    if i < 0x08 then Pick(i, 0x0000, 0x1189, 0x2312, 0x329b, 0x4624, 0x57ad, 0x6536, 0x74bf)
    else if i < 0x10 then Pick(i, 0x8c48, 0x9dc1, 0xaf5a, 0xbed3, 0xca6c, 0xdbe5, 0xe97e, 0xf8f7)
    else if i < 0x18 then Pick(i, 0x1081, 0x0108, 0x3393, 0x221a, 0x56a5, 0x472c, 0x75b7, 0x643e)
    else if i < 0x20 then Pick(i, 0x9cc9, 0x8d40, 0xbfdb, 0xae52, 0xdaed, 0xcb64, 0xf9ff, 0xe876)
    else if i < 0x28 then Pick(i, 0x2102, 0x308b, 0x0210, 0x1399, 0x6726, 0x76af, 0x4434, 0x55bd)
    else if i < 0x30 then Pick(i, 0xad4a, 0xbcc3, 0x8e58, 0x9fd1, 0xeb6e, 0xfae7, 0xc87c, 0xd9f5)
    else if i < 0x38 then Pick(i, 0x3183, 0x200a, 0x1291, 0x0318, 0x77a7, 0x662e, 0x54b5, 0x453c)
    else if i < 0x40 then Pick(i, 0xbdcb, 0xac42, 0x9ed9, 0x8f50, 0xfbef, 0xea66, 0xd8fd, 0xc974)
    else if i < 0x48 then Pick(i, 0x4204, 0x538d, 0x6116, 0x709f, 0x0420, 0x15a9, 0x2732, 0x36bb)
    else if i < 0x50 then Pick(i, 0xce4c, 0xdfc5, 0xed5e, 0xfcd7, 0x8868, 0x99e1, 0xab7a, 0xbaf3)
    else if i < 0x58 then Pick(i, 0x5285, 0x430c, 0x7197, 0x601e, 0x14a1, 0x0528, 0x37b3, 0x263a)
    else if i < 0x60 then Pick(i, 0xdecd, 0xcf44, 0xfddf, 0xec56, 0x98e9, 0x8960, 0xbbfb, 0xaa72)
    else if i < 0x68 then Pick(i, 0x6306, 0x728f, 0x4014, 0x519d, 0x2522, 0x34ab, 0x0630, 0x17b9)
    else if i < 0x70 then Pick(i, 0xef4e, 0xfec7, 0xcc5c, 0xddd5, 0xa96a, 0xb8e3, 0x8a78, 0x9bf1)
    else if i < 0x78 then Pick(i, 0x7387, 0x620e, 0x5095, 0x411c, 0x35a3, 0x242a, 0x16b1, 0x0738)
    else if i < 0x80 then Pick(i, 0xffcf, 0xee46, 0xdcdd, 0xcd54, 0xb9eb, 0xa862, 0x9af9, 0x8b70)
    else if i < 0x88 then Pick(i, 0x8408, 0x9581, 0xa71a, 0xb693, 0xc22c, 0xd3a5, 0xe13e, 0xf0b7)
    else if i < 0x90 then Pick(i, 0x0840, 0x19c9, 0x2b52, 0x3adb, 0x4e64, 0x5fed, 0x6d76, 0x7cff)
    else if i < 0x98 then Pick(i, 0x9489, 0x8500, 0xb79b, 0xa612, 0xd2ad, 0xc324, 0xf1bf, 0xe036)
    else if i < 0xa0 then Pick(i, 0x18c1, 0x0948, 0x3bd3, 0x2a5a, 0x5ee5, 0x4f6c, 0x7df7, 0x6c7e)
    else if i < 0xa8 then Pick(i, 0xa50a, 0xb483, 0x8618, 0x9791, 0xe32e, 0xf2a7, 0xc03c, 0xd1b5)
    else if i < 0xb0 then Pick(i, 0x2942, 0x38cb, 0x0a50, 0x1bd9, 0x6f66, 0x7eef, 0x4c74, 0x5dfd)
    else if i < 0xb8 then Pick(i, 0xb58b, 0xa402, 0x9699, 0x8710, 0xf3af, 0xe226, 0xd0bd, 0xc134)
    else if i < 0xc0 then Pick(i, 0x39c3, 0x284a, 0x1ad1, 0x0b58, 0x7fe7, 0x6e6e, 0x5cf5, 0x4d7c)
    else if i < 0xc8 then Pick(i, 0xc60c, 0xd785, 0xe51e, 0xf497, 0x8028, 0x91a1, 0xa33a, 0xb2b3)
    else if i < 0xd0 then Pick(i, 0x4a44, 0x5bcd, 0x6956, 0x78df, 0x0c60, 0x1de9, 0x2f72, 0x3efb)
    else if i < 0xd8 then Pick(i, 0xd68d, 0xc704, 0xf59f, 0xe416, 0x90a9, 0x8120, 0xb3bb, 0xa232)
    else if i < 0xe0 then Pick(i, 0x5ac5, 0x4b4c, 0x79d7, 0x685e, 0x1ce1, 0x0d68, 0x3ff3, 0x2e7a)
    else if i < 0xe8 then Pick(i, 0xe70e, 0xf687, 0xc41c, 0xd595, 0xa12a, 0xb0a3, 0x8238, 0x93b1)
    else if i < 0xf0 then Pick(i, 0x6b46, 0x7acf, 0x4854, 0x59dd, 0x2d62, 0x3ceb, 0x0e70, 0x1ff9)
    else if i < 0xf8 then Pick(i, 0xf78f, 0xe606, 0xd49d, 0xc514, 0xb1ab, 0xa022, 0x92b9, 0x8330)
    else Pick(i, 0x7bc7, 0x6a4e, 0x58d5, 0x495c, 0x3de3, 0x2c6a, 0x1ef1, 0x0f78)
  }

  function Index(c: bv8, crc: bv16): (i: bv16)
    ensures i < 0x100
  {
    (crc ^ (c as bv16)) & 0xFF
  }

  function ByteDown(x: bv16): bv16 { x >> 8 }

  function UpdCrcCcitt(c: bv8, crc: bv16): bv16 {
    Xor(ByteDown(crc), CrcCcittTab(Index(c, crc)))
  }

  function CrcCcittOf(crc: bv16, buf: seq<bv8>): bv16
    decreases |buf|
  {
    if buf == [] then crc else CrcCcittOf(UpdCrcCcitt(buf[0], crc), buf[1..])
  }

  method CrcCcitt(crc0: bv16, buffer: array<bv8>, len: nat) returns (crc: bv16)
    requires len <= buffer.Length
    ensures crc == CrcCcittOf(crc0, buffer[..len])
  {
    crc := crc0;
    var left, buf := len, 0;
    while left > 0
      invariant buf + left == len
      invariant CrcCcittOf(crc, buffer[buf..len]) == CrcCcittOf(crc0, buffer[..len])
    {
      left := left - 1;
      assert buffer[buf..len][1..] == buffer[buf + 1..len];
      crc := UpdCrcCcitt(buffer[buf], crc);
      buf := buf + 1;
    }
  }

  // ---- division with the lowest bit first -------------------------------------------------------

  function ShiftLow(x: bv16): bv16 {
    if LowBit(x) then Xor(Right(x), 0x8408) else Right(x)
  }

  function Bottom(b: bool): bv16 {
    if b then 1 else 0
  }

  /** Remainder after the message bits, the remainder held low bit first. */
  function DivideLow(crc: bv16, bits: seq<bool>): bv16
    decreases |bits|
  {
    if bits == [] then crc else DivideLow(ShiftLow(Xor(crc, Bottom(bits[0]))), bits[1..])
  }

  function ShiftLowN(x: bv16, n: nat): bv16
    decreases n
  {
    if n == 0 then x else ShiftLowN(ShiftLow(x), n - 1)
  }

  lemma MirrorXorRaw(x: bv16, y: bv16)
    ensures Mirror(x ^ y) == Mirror(x) ^ Mirror(y)
  {
  }

  lemma MirrorXor(x: bv16, y: bv16)
    ensures Mirror(Xor(x, y)) == Xor(Mirror(x), Mirror(y))
  {
    MirrorXorRaw(x, y);
    assert Xor(x, y) == x ^ y;
    assert Xor(Mirror(x), Mirror(y)) == Mirror(x) ^ Mirror(y);
  }

  lemma MirrorBottom(b: bool)
    ensures Mirror(Bottom(b)) == Top(b)
  {
  }

  lemma MirrorShift(x: bv16)
    ensures Mirror(ShiftLow(x)) == Shift(Mirror(x))
  {
    MirrorRight(x);
    MirrorXor(Right(x), 0x8408);
    assert Mirror(0x8408) == 0x1021;
  }

  /** The two divisions are mirror images. */
  lemma {:induction false} MirrorDivide(crc: bv16, bits: seq<bool>)
    ensures Mirror(DivideLow(crc, bits)) == Divide(Mirror(crc), bits)
    decreases |bits|
  {
    if bits == [] {
    } else {
      var x := Xor(crc, Bottom(bits[0]));
      MirrorXor(crc, Bottom(bits[0]));
      MirrorBottom(bits[0]);
      MirrorShift(x);
      MirrorDivide(ShiftLow(x), bits[1..]);
    }
  }

  lemma {:induction false} MirrorShiftN(x: bv16, n: nat)
    ensures Mirror(ShiftLowN(x, n)) == ShiftN(Mirror(x), n)
    decreases n
  {
    if n == 0 {
    } else {
      MirrorShift(x);
      MirrorShiftN(ShiftLow(x), n - 1);
    }
  }

  lemma EightShifts(x: bv16)
    ensures ShiftLowN(x, 8) == ShiftLow(ShiftLow(ShiftLow(ShiftLow(ShiftLow(ShiftLow(ShiftLow(ShiftLow(x))))))))
  {
    assert ShiftLowN(x, 8) == ShiftLowN(ShiftLow(ShiftLow(x)), 6);
    var y := ShiftLow(ShiftLow(x));
    assert ShiftLowN(y, 6) == ShiftLowN(ShiftLow(ShiftLow(y)), 4);
    var z := ShiftLow(ShiftLow(y));
    assert ShiftLowN(z, 4) == ShiftLowN(ShiftLow(ShiftLow(z)), 2);
  }

  /** Four bits of the division at once. */
  function Nibble(x: bv16): bv16 {
    var j := x & 15;
    (x >> 4) ^ (j << 12) ^ (j << 7) ^ j
  }

  function HalfNibble(x: bv16): bv16 {
    var j := x & 3;
    (x >> 2) ^ (j << 14) ^ (j << 9) ^ (j << 2)
  }

  function Half(x: bv16): bv16 {
    var j := x & 1;
    (x >> 1) ^ (j << 15) ^ (j << 10) ^ (j << 3)
  }

  lemma HalfOdd(x: bv16)
    requires x & 1 != 0
    ensures Half(x) == (x >> 1) ^ 0x8408
  {
  }

  lemma HalfEven(x: bv16)
    requires x & 1 == 0
    ensures Half(x) == x >> 1
  {
  }

  lemma OneShift(x: bv16)
    ensures ShiftLow(x) == Half(x)
  {
    hide Half;
    if LowBit(x) {
      HalfOdd(x);
      assert Xor(x >> 1, 0x8408) == (x >> 1) ^ 0x8408;
      assert ShiftLow(x) == (x >> 1) ^ 0x8408;
    } else {
      HalfEven(x);
      assert ShiftLow(x) == x >> 1;
    }
  }

  lemma HalfTwice(x: bv16)
    ensures Half(Half(x)) == HalfNibble(x)
  {
  }

  lemma TwoShifts(x: bv16)
    ensures ShiftLow(ShiftLow(x)) == HalfNibble(x)
  {
    hide Half, HalfNibble, ShiftLow;
    OneShift(x);
    OneShift(Half(x));
    HalfTwice(x);
  }

  lemma TwoHalves(x: bv16)
    ensures HalfNibble(HalfNibble(x)) == Nibble(x)
  {
  }

  lemma FourShifts(x: bv16)
    ensures ShiftLow(ShiftLow(ShiftLow(ShiftLow(x)))) == Nibble(x)
  {
    hide HalfNibble, Nibble, ShiftLow;
    TwoShifts(x);
    TwoShifts(HalfNibble(x));
    TwoHalves(x);
  }

  lemma TwoNibbles(i: bv16)
    requires i < 0x100
    ensures Entry(i) == Nibble(Nibble(i))
  {
  }

  lemma EntryRaw(i: bv16)
    requires i < 0x100
    ensures Entry(i) == ShiftLow(ShiftLow(ShiftLow(ShiftLow(ShiftLow(ShiftLow(ShiftLow(ShiftLow(i))))))))
  {
    hide Entry, Nibble, ShiftLow;
    FourShifts(i);
    FourShifts(Nibble(i));
    TwoNibbles(i);
  }

  function UpperByte(x: bv16): bv16 { x & 0xFF00 }

  lemma UpperByteShifts(x: bv16)
    ensures ShiftLow(ShiftLow(ShiftLow(ShiftLow(ShiftLow(ShiftLow(ShiftLow(ShiftLow(UpperByte(x)))))))))
         == ByteDown(x)
  {
  }

  lemma SplitRaw(x: bv16)
    ensures Xor(x & 0xFF, x & 0xFF00) == x
  {
  }

  lemma SplitStep(c: bv8, crc: bv16)
    ensures Xor(crc, c as bv16) == Xor(Index(c, crc), UpperByte(crc))
  {
    var x := crc ^ (c as bv16);
    SplitRaw(x);
    assert x & 0xFF00 == crc & 0xFF00;
  }

  /** One table step is eight bits of division. */
  lemma StepIsDivision(c: bv8, crc: bv16)
    ensures UpdCrcCcitt(c, crc) == DivideLow(crc, ByteBits(LowFirst, c))
  {
    var w := c as bv16;
    MirrorDivide(crc, ByteBits(LowFirst, c));
    MirrorBits(w, 8);
    MirrorFits(c);
    DivideAtOnce(Mirror(crc), Mirror(w), 8);
    SplitStep(c, crc);
    var i, upper := Index(c, crc), UpperByte(crc);
    MirrorXor(crc, w);
    MirrorXor(i, upper);
    ShiftNLinear(Mirror(i), Mirror(upper), 8);
    MirrorShiftN(i, 8);
    MirrorShiftN(upper, 8);
    EightShifts(i);
    EntryRaw(i);
    EightShifts(upper);
    UpperByteShifts(crc);
    MirrorXor(Entry(i), ByteDown(crc));
    XorBasics(Entry(i), ByteDown(crc));
    MirrorTwice(DivideLow(crc, ByteBits(LowFirst, c)));
    MirrorTwice(UpdCrcCcitt(c, crc));
  }

  lemma {:induction false} DivideLowAppend(crc: bv16, a: seq<bool>, b: seq<bool>)
    ensures DivideLow(crc, a + b) == DivideLow(DivideLow(crc, a), b)
    decreases |a|
  {
    if a == [] {
      assert a + b == b;
    } else {
      DivideLowAppend(ShiftLow(Xor(crc, Bottom(a[0]))), a[1..], b);
      assert (a + b)[1..] == a[1..] + b;
    }
  }

  /** On every buffer the table form is the bit-at-a-time division. */
  lemma {:induction false} CrcCcittIsDivision(crc: bv16, buf: seq<bv8>)
    ensures CrcCcittOf(crc, buf) == DivideLow(crc, Bits(LowFirst, buf))
    decreases |buf|
  {
    if buf == [] {
    } else {
      StepIsDivision(buf[0], crc);
      CrcCcittIsDivision(UpdCrcCcitt(buf[0], crc), buf[1..]);
      DivideLowAppend(crc, ByteBits(LowFirst, buf[0]), Bits(LowFirst, buf[1..]));
    }
  }

  // ---- error detection --------------------------------------------------------------------------

  lemma SameCrcSameDivision(crc: bv16, x: seq<bv8>, y: seq<bv8>)
    requires CrcCcittOf(crc, x) == CrcCcittOf(crc, y)
    ensures Divide(Mirror(crc), Bits(LowFirst, x)) == Divide(Mirror(crc), Bits(LowFirst, y))
  {
    CrcCcittIsDivision(crc, x);
    CrcCcittIsDivision(crc, y);
    MirrorDivide(crc, Bits(LowFirst, x));
    MirrorDivide(crc, Bits(LowFirst, y));
  }

  /** Two buffers whose bits differ only within 16 consecutive positions never have the same CRC. */
  lemma CrcCcittDetectsBursts(crc: bv16, x: seq<bv8>, y: seq<bv8>, k: nat)
    requires |x| == |y| && x != y
    requires forall i :: 0 <= i < 8 * |x| && (i < k || i >= k + 16) ==> Bits(LowFirst, x)[i] == Bits(LowFirst, y)[i]
    ensures CrcCcittOf(crc, x) != CrcCcittOf(crc, y)
  {
    if Bits(LowFirst, x) == Bits(LowFirst, y) { BitsInjective(LowFirst, x, y); }
    WindowDetected(Mirror(crc), Bits(LowFirst, x), Bits(LowFirst, y), k);
    if CrcCcittOf(crc, x) == CrcCcittOf(crc, y) { SameCrcSameDivision(crc, x, y); }
  }

  /** Two buffers that differ in two adjacent bytes, or in one, never have the same CRC. */
  lemma AdjacentBytesDetected(crc: bv16, head: seq<bv8>, u: seq<bv8>, v: seq<bv8>, tail: seq<bv8>)
    requires |u| == |v| <= 2 && u != v
    ensures CrcCcittOf(crc, head + u + tail) != CrcCcittOf(crc, head + v + tail)
  {
    if Bits(LowFirst, u) == Bits(LowFirst, v) { BitsInjective(LowFirst, u, v); }
    BurstDetected(Mirror(crc), Bits(LowFirst, head), Bits(LowFirst, u), Bits(LowFirst, v), Bits(LowFirst, tail));
    BitsAppend(LowFirst, head + u, tail);
    BitsAppend(LowFirst, head, u);
    BitsAppend(LowFirst, head + v, tail);
    BitsAppend(LowFirst, head, v);
    if CrcCcittOf(crc, head + u + tail) == CrcCcittOf(crc, head + v + tail) {
      SameCrcSameDivision(crc, head + u + tail, head + v + tail);
    }
  }

  // ---- residue ----------------------------------------------------------------------------------

  lemma {:induction false} CrcCcittAppend(crc: bv16, a: seq<bv8>, b: seq<bv8>)
    ensures CrcCcittOf(crc, a + b) == CrcCcittOf(CrcCcittOf(crc, a), b)
    decreases |a|
  {
    if a == [] {
      assert a + b == b;
    } else {
      CrcCcittAppend(UpdCrcCcitt(a[0], crc), a[1..], b);
      assert (a + b)[1..] == a[1..] + b;
    }
  }

  lemma OwnHalves(r: bv16)
    ensures UpdCrcCcitt(LowHalf(r), r) == ByteDown(r)
    ensures UpdCrcCcitt(HighHalf(r), ByteDown(r)) == 0
  {
    assert Index(LowHalf(r), r) == 0;
    assert CrcCcittTab(0) == 0;
    XorBasics(ByteDown(r), 0);
    assert Index(HighHalf(r), r >> 8) == 0;
    assert ByteDown(r >> 8) == 0;
    XorBasics(0, 0);
  }

  lemma OwnResidue(r: bv16)
    ensures CrcCcittOf(r, [LowHalf(r), HighHalf(r)]) == 0
  {
    hide UpdCrcCcitt, LowHalf, HighHalf, ByteDown;
    OwnHalves(r);
    var own := [LowHalf(r), HighHalf(r)];
    assert own[1..] == [HighHalf(r)];
    assert CrcCcittOf(r, own) == CrcCcittOf(ByteDown(r), own[1..]);
    assert CrcCcittOf(ByteDown(r), [HighHalf(r)]) == CrcCcittOf(0, [HighHalf(r)][1..]);
  }

  lemma OthersDiffer(r: bv16, lo: bv8, hi: bv8)
    requires lo != LowHalf(r) || hi != HighHalf(r)
    ensures CrcCcittOf(r, [lo, hi]) != 0
  {
    hide UpdCrcCcitt, LowHalf, HighHalf;
    var x, own := [lo, hi], [LowHalf(r), HighHalf(r)];
    assert x[0] != own[0] || x[1] != own[1];
    OwnResidue(r);
    CrcCcittDetectsBursts(r, x, own, 0);
  }

  /** With its own two bytes appended, low byte first, the CRC is 0, and with no others. */
  lemma CrcCcittResidue(crc: bv16, buf: seq<bv8>, lo: bv8, hi: bv8)
    ensures CrcCcittOf(crc, buf + [lo, hi]) == 0 <==>
            lo == LowHalf(CrcCcittOf(crc, buf)) && hi == HighHalf(CrcCcittOf(crc, buf))
  {
    hide CrcCcittOf, LowHalf, HighHalf;
    CrcCcittAppend(crc, buf, [lo, hi]);
    var r := CrcCcittOf(crc, buf);
    OwnResidue(r);
    if lo != LowHalf(r) || hi != HighHalf(r) { OthersDiffer(r, lo, hi); }
  }
}
