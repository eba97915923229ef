/** Polynomial division by x^16 + x^12 + x^5 + 1 one message bit at a time, most significant bit of the
    remainder first. This is what both table-driven CRCs are shown to compute. */
module BitDivision {
  function Xor(x: bv16, y: bv16): bv16 { x ^ y }

  function Left(x: bv16): bv16 { x << 1 }

  function HighBit(x: bv16): bool { x & 0x8000 != 0 }

  /** One shift of the 16-bit remainder. */
  function Shift(x: bv16): bv16 {
    if HighBit(x) then Xor(Left(x), 0x1021) else Left(x)
  }

  function Top(b: bool): bv16 {
    if b then 0x8000 else 0
  }

  /** Remainder after the message bits, from the remainder `crc`. */
  function Divide(crc: bv16, bits: seq<bool>): bv16
    decreases |bits|
  {
    if bits == [] then crc else Divide(Shift(Xor(crc, Top(bits[0]))), bits[1..])
  }

  function ShiftN(x: bv16, n: nat): bv16
    decreases n
  {
    if n == 0 then x else ShiftN(Shift(x), n - 1)
  }

  lemma {:induction false} DivideAppend(crc: bv16, a: seq<bool>, b: seq<bool>)
    ensures Divide(crc, a + b) == Divide(Divide(crc, a), b)
    decreases |a|
  {
    if a == [] {
      assert a + b == b;
    } else {
      DivideAppend(Shift(Xor(crc, Top(a[0]))), a[1..], b);
      assert (a + b)[1..] == a[1..] + b;
    }
  }

  // ---- the shift is linear and reversible -------------------------------------------------------

  lemma XorAssociates(x: bv16, y: bv16, z: bv16)
    ensures Xor(Xor(x, y), z) == Xor(x, Xor(y, z))
  {
    assert Xor(x ^ y, z) == x ^ y ^ z;
    assert Xor(x, y ^ z) == x ^ y ^ z;
  }

  lemma XorBasics(x: bv16, y: bv16)
    ensures Xor(x, y) == Xor(y, x) && Xor(x, 0) == x && Xor(x, x) == 0
  {
  }

  /** A third factor on one side may be moved to the other. */
  lemma XorMove(a: bv16, b: bv16, p: bv16)
    ensures Xor(Xor(a, b), p) == Xor(Xor(a, p), b) == Xor(a, Xor(b, p))
  {
    XorAssociates(a, b, p);
    XorAssociates(a, p, b);
    XorBasics(b, p);
  }

  /** A third factor on both sides cancels. */
  lemma XorCancel(a: bv16, b: bv16, p: bv16)
    ensures Xor(Xor(a, p), Xor(b, p)) == Xor(a, b)
  {
    XorAssociates(Xor(a, p), b, p);
    XorMove(a, b, p);
    XorAssociates(Xor(a, b), p, p);
    XorBasics(p, p);
    XorBasics(Xor(a, b), 0);
    XorMove(a, p, b);
  }

  lemma LeftLinear(x: bv16, y: bv16)
    ensures Left(Xor(x, y)) == Xor(Left(x), Left(y))
  {
    assert Left(x ^ y) == (x << 1) ^ (y << 1);
    assert Xor(x << 1, y << 1) == (x << 1) ^ (y << 1);
  }

  lemma HighBitLinear(x: bv16, y: bv16)
    ensures HighBit(Xor(x, y)) <==> HighBit(x) != HighBit(y)
  {
    assert HighBit(x ^ y) <==> HighBit(x) != HighBit(y);
  }

  lemma ShiftLinear(x: bv16, y: bv16)
    ensures Shift(Xor(x, y)) == Xor(Shift(x), Shift(y))
  {
    LeftLinear(x, y);
    HighBitLinear(x, y);
    var a, b := Left(x), Left(y);
    if HighBit(x) && HighBit(y) {
      XorCancel(a, b, 0x1021);
    } else if HighBit(x) {
      XorMove(a, b, 0x1021);
    } else if HighBit(y) {
      XorMove(a, b, 0x1021);
    }
  }

  lemma {:induction false} ShiftNLinear(x: bv16, y: bv16, n: nat)
    ensures ShiftN(Xor(x, y), n) == Xor(ShiftN(x, n), ShiftN(y, n))
    decreases n
  {
    if n == 0 {
    } else {
      ShiftLinear(x, y);
      ShiftNLinear(Shift(x), Shift(y), n - 1);
    }
  }

  /** The lowest bit of a shifted remainder tells whether the polynomial was added. */
  function Unshift(y: bv16): bv16 {
    if y & 1 != 0 then ((y ^ 0x1021) >> 1) | 0x8000 else y >> 1
  }

  lemma UnshiftHigh(x: bv16)
    requires x & 0x8000 != 0
    ensures Unshift((x << 1) ^ 0x1021) == x
  {
  }

  lemma UnshiftLow(x: bv16)
    requires x & 0x8000 == 0
    ensures Unshift(x << 1) == x
  {
  }

  lemma UnshiftShift(x: bv16)
    ensures Unshift(Shift(x)) == x
  {
    if HighBit(x) {
      UnshiftHigh(x);
      assert Xor(x << 1, 0x1021) == (x << 1) ^ 0x1021;
      assert Shift(x) == (x << 1) ^ 0x1021;
    } else {
      UnshiftLow(x);
      assert Shift(x) == x << 1;
    }
  }

  lemma ShiftInjective(x: bv16, y: bv16)
    requires Shift(x) == Shift(y)
    ensures x == y
  {
    UnshiftShift(x);
    UnshiftShift(y);
  }

  lemma {:induction false} ShiftNInjective(x: bv16, y: bv16, n: nat)
    requires ShiftN(x, n) == ShiftN(y, n)
    ensures x == y
    decreases n
  {
    if n == 0 {
    } else {
      ShiftNInjective(Shift(x), Shift(y), n - 1);
      ShiftInjective(x, y);
    }
  }

  lemma XorInjective(x: bv16, y: bv16, z: bv16)
    requires Xor(x, z) == Xor(y, z)
    ensures x == y
  {
    XorAssociates(x, z, z);
    XorAssociates(y, z, z);
    XorBasics(z, z);
    XorBasics(x, 0);
    XorBasics(y, 0);
  }

  /** For the same message bits, different remainders stay different. */
  lemma {:induction false} DivideInjective(x: bv16, y: bv16, bits: seq<bool>)
    requires Divide(x, bits) == Divide(y, bits)
    ensures x == y
    decreases |bits|
  {
    if bits == [] {
    } else {
      var t := Top(bits[0]);
      DivideInjective(Shift(Xor(x, t)), Shift(Xor(y, t)), bits[1..]);
      ShiftInjective(Xor(x, t), Xor(y, t));
      XorInjective(x, y, t);
    }
  }

  // ---- up to 16 bits at once --------------------------------------------------------------------

  /** The n highest bits of x, from the top. */
  function HighBits(x: bv16, n: nat): (bits: seq<bool>)
    ensures |bits| == n
    decreases n
  {
    if n == 0 then [] else [HighBit(x)] + HighBits(Left(x), n - 1)
  }

  /** x has no bit below its n highest. */
  predicate Fits(x: bv16, n: nat)
    decreases n
  {
    if n == 0 then x == 0 else Fits(Left(x), n - 1)
  }

  function Rest(x: bv16): bv16 { x & 0x7FFF }

  lemma ShiftRest(x: bv16)
    ensures Shift(Rest(x)) == Left(x)
  {
    assert (x & 0x7FFF) << 1 == x << 1;
    assert Left(x & 0x7FFF) == x << 1;
    assert !HighBit(x & 0x7FFF);
  }

  lemma TopBitSet(x: bv16)
    requires x & 0x8000 != 0
    ensures Xor(0x8000, x & 0x7FFF) == x
  {
  }

  lemma TopBitClear(x: bv16)
    requires x & 0x8000 == 0
    ensures Xor(0, x & 0x7FFF) == x
  {
  }

  lemma TopXorRest(x: bv16)
    ensures Xor(Top(HighBit(x)), Rest(x)) == x
  {
    if HighBit(x) { TopBitSet(x); } else { TopBitClear(x); }
  }

  /** Taking the top bit in first and the others one shift later is taking all in first. */
  lemma ShiftTogether(crc: bv16, x: bv16)
    ensures Xor(Shift(Xor(crc, Top(HighBit(x)))), Left(x)) == Shift(Xor(crc, x))
  {
    var t := Top(HighBit(x));
    ShiftRest(x);
    TopXorRest(x);
    XorAssociates(crc, t, Rest(x));
    ShiftLinear(Xor(crc, t), Rest(x));
  }

  /** Feeding the n bits of x one at a time is one exclusive or and n shifts. */
  lemma {:induction false} DivideAtOnce(crc: bv16, x: bv16, n: nat)
    requires Fits(x, n)
    ensures Divide(crc, HighBits(x, n)) == ShiftN(Xor(crc, x), n)
    decreases n
  {
    if n == 0 {
      XorBasics(crc, 0);
    } else {
      var bits := HighBits(x, n);
      assert bits[1..] == HighBits(Left(x), n - 1);
      DivideAtOnce(Shift(Xor(crc, Top(bits[0]))), Left(x), n - 1);
      ShiftTogether(crc, x);
    }
  }

  lemma SameRaw(x: bv16, y: bv16)
    requires x & 0x8000 == y & 0x8000 && x << 1 == y << 1
    ensures x == y
  {
  }

  lemma TopMask(x: bv16)
    ensures x & 0x8000 == if HighBit(x) then 0x8000 else 0
  {
  }

  lemma SameBits(x: bv16, y: bv16)
    requires HighBit(x) == HighBit(y) && Left(x) == Left(y)
    ensures x == y
  {
    TopMask(x);
    TopMask(y);
    SameRaw(x, y);
  }

  lemma {:induction false} HighBitsInjective(x: bv16, y: bv16, n: nat)
    requires Fits(x, n) && Fits(y, n) && HighBits(x, n) == HighBits(y, n)
    ensures x == y
    decreases n
  {
    if n == 0 {
    } else {
      assert HighBits(x, n)[0] == HighBits(y, n)[0];
      assert HighBits(x, n)[1..] == HighBits(Left(x), n - 1) && HighBits(y, n)[1..] == HighBits(Left(y), n - 1);
      HighBitsInjective(Left(x), Left(y), n - 1);
      SameBits(x, y);
    }
  }

  // ---- bursts -----------------------------------------------------------------------------------

  function Right(x: bv16): bv16 { x >> 1 }

  /** Up to 16 bits as a word, aligned at the top. */
  function Word(bits: seq<bool>): bv16 {
    if bits == [] then 0 else Xor(Top(bits[0]), Right(Word(bits[1..])))
  }

  lemma FitsByFour(x: bv16, n: nat)
    ensures Fits(x, n + 4) == Fits(Left(Left(Left(Left(x)))), n)
  {
    var a, b, c := Left(x), Left(Left(x)), Left(Left(Left(x)));
    assert Fits(x, n + 4) == Fits(a, n + 3);
    assert Fits(a, n + 3) == Fits(b, n + 2);
    assert Fits(b, n + 2) == Fits(c, n + 1);
    assert Fits(c, n + 1) == Fits(Left(c), n);
  }

  lemma {:induction false} FitsZero(n: nat)
    ensures Fits(0, n)
  {
    if n == 0 {
    } else {
      assert Left(0) == 0;
      FitsZero(n - 1);
    }
  }

  lemma {:induction false} FitsMore(x: bv16, n: nat, m: nat)
    requires Fits(x, n) && n <= m
    ensures Fits(x, m)
    decreases n
  {
    if n == 0 { FitsZero(m); } else { FitsMore(Left(x), n - 1, m - 1); }
  }

  /** With at most 15 bits in use the lowest is clear. */
  lemma FitsEven(x: bv16, n: nat)
    requires n <= 15 && Fits(x, n)
    ensures x & 1 == 0
  {
    FitsMore(x, n, 15);
    var a := Left(Left(Left(Left(x))));
    var b := Left(Left(Left(Left(a))));
    var c := Left(Left(Left(Left(b))));
    FitsByFour(x, 11);
    FitsByFour(a, 7);
    FitsByFour(b, 3);
    assert Fits(c, 3) == Fits(Left(c), 2) == Fits(Left(Left(c)), 1) == Fits(Left(Left(Left(c))), 0);
    assert a == x << 4 && b == a << 4 && c == b << 4;
    assert Left(Left(Left(c))) == c << 3;
  }

  lemma {:induction false} WordFits(bits: seq<bool>)
    requires |bits| <= 16
    ensures Fits(Word(bits), |bits|) && HighBits(Word(bits), |bits|) == bits
  {
    if bits == [] {
    } else {
      var rest := Word(bits[1..]);
      WordFits(bits[1..]);
      FitsEven(rest, |bits| - 1);
      WordStep(bits[0], rest);
    }
  }

  lemma WordStep(b: bool, x: bv16)
    requires x & 1 == 0
    ensures Left(Xor(Top(b), Right(x))) == x && HighBit(Xor(Top(b), Right(x))) == b
  {
    assert (x >> 1) << 1 == x;
    assert Left(x >> 1) == x && !HighBit(x >> 1);
    assert Left(Top(b)) == 0 && HighBit(Top(b)) == b;
    LeftLinear(Top(b), Right(x));
    HighBitLinear(Top(b), Right(x));
    XorBasics(x, 0);
  }

  /** Message bits up to 16 are determined by the remainder they lead to. */
  lemma ShortInjective(crc: bv16, u: seq<bool>, v: seq<bool>)
    requires |u| == |v| <= 16 && Divide(crc, u) == Divide(crc, v)
    ensures u == v
  {
    WordFits(u);
    WordFits(v);
    DivideAtOnce(crc, Word(u), |u|);
    DivideAtOnce(crc, Word(v), |v|);
    ShiftNInjective(Xor(crc, Word(u)), Xor(crc, Word(v)), |u|);
    XorBasics(crc, Word(u));
    XorBasics(crc, Word(v));
    XorInjective(Word(u), Word(v), crc);
  }

  /** Two messages that differ only within 16 consecutive bits never leave the same remainder. */
  lemma BurstDetected(crc: bv16, head: seq<bool>, u: seq<bool>, v: seq<bool>, tail: seq<bool>)
    requires |u| == |v| <= 16 && u != v
    ensures Divide(crc, head + u + tail) != Divide(crc, head + v + tail)
  {
    var s := Divide(crc, head);
    DivideAppend(crc, head + u, tail);
    DivideAppend(crc, head, u);
    DivideAppend(crc, head + v, tail);
    DivideAppend(crc, head, v);
    if Divide(crc, head + u + tail) == Divide(crc, head + v + tail) {
      DivideInjective(Divide(s, u), Divide(s, v), tail);
      ShortInjective(s, u, v);
    }
  }

  lemma WindowDetected(crc: bv16, x: seq<bool>, y: seq<bool>, k: nat)
    requires |x| == |y| && x != y
    requires forall i :: 0 <= i < |x| && (i < k || i >= k + 16) ==> x[i] == y[i]
    ensures Divide(crc, x) != Divide(crc, y)
  {
    var a := if k < |x| then k else |x|;
    var b := if k + 16 < |x| then k + 16 else |x|;
    assert x == x[..a] + x[a..b] + x[b..] && y == y[..a] + y[a..b] + y[b..];
    assert x[..a] == y[..a] && x[b..] == y[b..];
    BurstDetected(crc, x[..a], x[a..b], y[a..b], x[b..]);
  }

  // ---- tables -----------------------------------------------------------------------------------

  /** One of the eight entries of a table row. */
  function Pick(i: bv16, v0: bv16, v1: bv16, v2: bv16, v3: bv16, v4: bv16, v5: bv16, v6: bv16, v7: bv16): bv16 {
    var j := i & 7;
    if j == 0 then v0 else if j == 1 then v1 else if j == 2 then v2 else if j == 3 then v3
    else if j == 4 then v4 else if j == 5 then v5 else if j == 6 then v6 else v7
  }
}
