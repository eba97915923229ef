/** A message of bytes as a message of bits, in either order of the bits of a byte. */
module MessageBits {
  import opened BitDivision
  import opened Common

  function ByteUp(x: bv16): bv16 { x << 8 }

  function HighByte(c: bv8): bv16 { ByteUp(c as bv16) }

  lemma HighByteFits(c: bv8)
    ensures Fits(HighByte(c), 8)
  {
    var x := HighByte(c);
    FitsByFour(x, 4);
    FitsByFour(Left(Left(Left(Left(x)))), 0);
    assert Left(Left(Left(Left(x)))) == x << 4;
    assert Left(Left(Left(Left(x << 4)))) == (x << 4) << 4;
    assert (((c as bv16) << 8) << 4) << 4 == 0;
  }

  /** The two bytes of a remainder. */
  function HighHalf(r: bv16): bv8 { (r >> 8) as bv8 }

  function LowHalf(r: bv16): bv8 { (r & 0xFF) as bv8 }

  function LowBit(x: bv16): bool { x & 1 != 0 }

  /** The 16 bits in the opposite order. */
  function Mirror(x: bv16): bv16 {
    var a := ((x >> 1) & 0x5555) | ((x & 0x5555) << 1);
    var b := ((a >> 2) & 0x3333) | ((a & 0x3333) << 2);
    var c := ((b >> 4) & 0x0F0F) | ((b & 0x0F0F) << 4);
    (c >> 8) | (c << 8)
  }

  lemma MirrorTwice(x: bv16)
    ensures Mirror(Mirror(x)) == x
  {
  }

  lemma MirrorRight(x: bv16)
    ensures Mirror(Right(x)) == Left(Mirror(x)) && HighBit(Mirror(x)) == LowBit(x)
  {
  }

  /** The n lowest bits of x, from the bottom. */
  function LowBits(x: bv16, n: nat): (bits: seq<bool>)
    ensures |bits| == n
    decreases n
  {
    if n == 0 then [] else [LowBit(x)] + LowBits(Right(x), n - 1)
  }

  lemma {:induction false} MirrorBits(x: bv16, n: nat)
    ensures LowBits(x, n) == HighBits(Mirror(x), n)
    decreases n
  {
    if n == 0 {
    } else {
      MirrorRight(x);
      MirrorBits(Right(x), n - 1);
    }
  }

  lemma MirrorFits(c: bv8)
    ensures Fits(Mirror(c as bv16), 8)
  {
    var x := Mirror(c as bv16);
    FitsByFour(x, 4);
    FitsByFour(Left(Left(Left(Left(x)))), 0);
    assert Left(Left(Left(Left(x)))) == x << 4;
    assert Left(Left(Left(Left(x << 4)))) == (x << 4) << 4;
    assert (Mirror(c as bv16) << 4) << 4 == 0;
  }

  datatype Order = HighFirst | LowFirst

  function ByteBits(o: Order, c: bv8): (bits: seq<bool>)
    ensures |bits| == 8
  {
    match o
    case HighFirst => HighBits(HighByte(c), 8)
    case LowFirst => LowBits(c as bv16, 8)
  }

  /** The bits of a buffer, byte after byte. */
  function Bits(o: Order, buf: seq<bv8>): (bits: seq<bool>)
    ensures |bits| == 8 * |buf|
  {
    if buf == [] then [] else ByteBits(o, buf[0]) + Bits(o, buf[1..])
  }

  lemma HighFirstInjective(a: bv8, b: bv8)
    requires ByteBits(HighFirst, a) == ByteBits(HighFirst, b)
    ensures a == b
  {
    HighByteFits(a);
    HighByteFits(b);
    HighBitsInjective(HighByte(a), HighByte(b), 8);
  }

  lemma LowFirstInjective(a: bv8, b: bv8)
    requires ByteBits(LowFirst, a) == ByteBits(LowFirst, b)
    ensures a == b
  {
    var x, y := a as bv16, b as bv16;
    MirrorBits(x, 8);
    MirrorBits(y, 8);
    MirrorFits(a);
    MirrorFits(b);
    HighBitsInjective(Mirror(x), Mirror(y), 8);
    MirrorTwice(x);
    MirrorTwice(y);
    assert (a as bv16) as bv8 == a && (b as bv16) as bv8 == b;
  }

  lemma ByteBitsInjective(o: Order, a: bv8, b: bv8)
    requires ByteBits(o, a) == ByteBits(o, b)
    ensures a == b
  {
    hide ByteBits;
    if o == HighFirst { HighFirstInjective(a, b); } else { LowFirstInjective(a, b); }
  }

  lemma FrontAndBack(a: seq<bool>, b: seq<bool>, c: seq<bool>, d: seq<bool>)
    requires |a| == |c| && a + b == c + d
    ensures a == c && b == d
  {
    assert a == (a + b)[..|a|] && c == (c + d)[..|c|];
    assert b == (a + b)[|a|..] && d == (c + d)[|c|..];
  }

  lemma {:induction false} BitsInjective(o: Order, x: seq<bv8>, y: seq<bv8>)
    requires |x| == |y| && Bits(o, x) == Bits(o, y)
    ensures x == y
  {
    hide ByteBits;
    if x == [] {
    } else {
      FrontAndBack(ByteBits(o, x[0]), Bits(o, x[1..]), ByteBits(o, y[0]), Bits(o, y[1..]));
      ByteBitsInjective(o, x[0], y[0]);
      BitsInjective(o, x[1..], y[1..]);
      assert x == [x[0]] + x[1..] && y == [y[0]] + y[1..];
    }
  }

  lemma BitsCons(o: Order, c: bv8, rest: seq<bv8>)
    ensures Bits(o, [c] + rest) == ByteBits(o, c) + Bits(o, rest)
  {
    assert ([c] + rest)[1..] == rest;
  }

  lemma {:induction false} BitsAppend(o: Order, a: seq<bv8>, b: seq<bv8>)
    ensures Bits(o, a + b) == Bits(o, a) + Bits(o, b)
    decreases |a|
  {
    if a == [] {
      assert a + b == b;
    } else {
      var c, d := a[0], a[1..];
      assert a == [c] + d && a + b == [c] + (d + b);
      assert Bits(o, a + b) == ByteBits(o, c) + Bits(o, d + b) by { BitsCons(o, c, d + b); }
      assert Bits(o, a) == ByteBits(o, c) + Bits(o, d) by { BitsCons(o, c, d); }
      BitsAppend(o, d, b);
      Associate(ByteBits(o, c), Bits(o, d), Bits(o, b));
    }
  }
}
