/** Fixed-point acceleration ramp: speeds as 0.16 and reciprocal times as 0.32 fixed-point numbers. */
module StepperRamp {
  const TWO_24: nat := 0x100_0000
  const TWO_32: nat := 0x1_0000_0000

  // ---- multiplication ---------------------------------------------------------------------------

  /** The 64-bit product without its low 16 bits. */
  function FixMult32(a: nat, b: nat): nat {
    a * b / 0x1_0000
  }

  function Add32(a: nat, b: nat): nat {
    (a + b) % 0x1_0000_0000
  }

  function Mul32(a: nat, b: nat): nat {
    a * b % 0x1_0000_0000
  }

  lemma ByteProduct(m: nat, b: nat)
    requires m < TWO_24 && b < 256
    ensures 0 <= m * b <= (TWO_24 - 1) * 255
    ensures Mul32(m, b) == m * b
  {
    assert m * b <= m * 255;
  }

  lemma Distribute(m: nat, x: nat, y: nat)
    ensures m * (x + y) == m * x + m * y
  {
  }

  lemma ByBytes(m: nat, b0: nat, b1: nat, b2: nat)
    ensures m * (b0 + 256 * b1 + 65536 * b2) == m * b0 + 256 * (m * b1) + 65536 * (m * b2)
  {
    Distribute(m, b0 + 256 * b1, 65536 * b2);
    Distribute(m, b0, 256 * b1);
    assert m * (256 * b1) == 256 * (m * b1);
    assert m * (65536 * b2) == 65536 * (m * b2);
  }

  lemma Shifts(p0: nat, p1: nat, p2: nat)
    ensures (p0 + 256 * p1 + 65536 * p2) / 65536 == ((p0 / 256) + p1) / 256 + p2
  {
    var q := p0 + 256 * p1;
    assert q / 256 == p0 / 256 + p1;
    assert q / 65536 == q / 256 / 256;
  }

  lemma AddFits(a: nat, b: nat)
    requires a + b < TWO_32
    ensures Add32(a, b) == a + b
  {
  }

  lemma HighBytesFit(p: nat)
    requires p <= (TWO_24 - 1) * 255 + TWO_24
    ensures p / 256 < TWO_24
  {
  }

  lemma AccumulateExact(p0: nat, p1: nat, p2: nat)
    requires p0 <= (TWO_24 - 1) * 255 && p1 <= (TWO_24 - 1) * 255 && p2 <= (TWO_24 - 1) * 255
    ensures Add32(Add32(Add32(0, p0) / 256, p1) / 256, p2) == (p0 + 256 * p1 + 65536 * p2) / 65536
  {
    hide Add32;
    AddFits(0, p0);
    HighBytesFit(p0);
    AddFits(p0 / 256, p1);
    HighBytesFit(p0 / 256 + p1);
    AddFits((p0 / 256 + p1) / 256, p2);
    Shifts(p0, p1, p2);
  }

  lemma Bytes(m: nat)
    requires m < TWO_24
    ensures m == m % 256 + 256 * (m / 256 % 256) + 65536 * (m / 65536 % 256)
  {
  }

  lemma SplitMultiply(m1: nat, m2: nat)
    requires m1 < TWO_24 && m2 < TWO_24
    ensures var p0, p1, p2 := Mul32(m1, m2 % 256), Mul32(m1, m2 / 256 % 256), Mul32(m1, m2 / 65536 % 256);
            && p0 <= (TWO_24 - 1) * 255 && p1 <= (TWO_24 - 1) * 255 && p2 <= (TWO_24 - 1) * 255
            && m1 * m2 == p0 + 256 * p1 + 65536 * p2
  {
    var b0, b1, b2 := m2 % 256, m2 / 256 % 256, m2 / 65536 % 256;
    ByteProduct(m1, b0);
    ByteProduct(m1, b1);
    ByteProduct(m1, b2);
    Bytes(m2);
    ByBytes(m1, b0, b1, b2);
  }

  /** Eight bits of the second factor at a time: no step leaves 32 bits, and the result is the product
      without its low 16 bits. */
  method FixMult32Bytewise(m1: nat, m2: nat) returns (accum: nat)
    requires m1 < TWO_24 && m2 < TWO_24
    ensures accum == FixMult32(m1, m2)
  {
    SplitMultiply(m1, m2);
    AccumulateExact(Mul32(m1, m2 % 256), Mul32(m1, m2 / 256 % 256), Mul32(m1, m2 / 65536 % 256));
    accum := 0;
    accum := Add32(accum, Mul32(m1, m2 % 256));
    accum := accum / 256;
    accum := Add32(accum, Mul32(m1, m2 / 256 % 256));
    accum := accum / 256;
    accum := Add32(accum, Mul32(m1, m2 / 65536 % 256));
  }

  // ---- the fixed-point evaluation ---------------------------------------------------------------

  function Cast16(x: nat): nat { x % 0x1_0000 }

  function FixMult16(a: nat, b: nat): nat {
    Cast16(Mul32(b, a) / 0x1_0000)
  }

  /** Minimum over maximum wavelength, as a 0.16 fraction. */
  function MaxDivMin(minWL: nat, maxWL: nat): nat
    requires maxWL > 0
  {
    Cast16(minWL * 0x1_0000 / maxWL)
  }

  /** Reciprocal of the shifted ramp length, as a 0.32 fraction. */
  function InvTotalTime(clocksRamp: nat): nat
    requires clocksRamp / 4 > 0
  {
    0xFFFF_FFFF / (clocksRamp / 4)
  }

  function TimeFraction(curClock: nat, inv: nat): nat {
    Cast16(FixMult32(curClock / 4, inv))
  }

  /** The 16-bit complement of t plus one, times r, plus t, all cut to 16 bits. */
  function Denominator(r: nat, t: nat): nat
    requires t < 0x1_0000
  {
    Cast16(FixMult16(Cast16(0xFFFF - t + 1), r) + t)
  }

  /** The delay before its last cast. */
  function WideDelay(minWL: nat, denom: nat): nat
    requires denom > 0
  {
    minWL * 0x1_0000 / denom
  }

  // ---- the two arguments stay in range ----------------------------------------------------------

  lemma MulMono(a: nat, b: nat, d: nat)
    requires a <= b
    ensures a * d <= b * d && d * a <= d * b
  {
  }

  lemma DivMod(x: nat, d: nat)
    requires d > 0
    ensures (x / d) * d <= x < (x / d + 1) * d
  {
  }

  lemma DivLower(x: nat, d: nat, q: nat)
    requires d > 0 && q * d <= x
    ensures q <= x / d
  {
    DivMod(x, d);
    if x / d < q { MulMono(x / d + 1, q, d); }
  }

  lemma DivUpper(x: nat, d: nat, q: nat)
    requires d > 0 && x < (q + 1) * d
    ensures x / d <= q
  {
    DivMod(x, d);
    if x / d > q { MulMono(q + 1, x / d, d); }
  }

  /** With minimum below maximum the ratio is a proper fraction, neither 0 nor wrapped. */
  lemma RatioInRange(minWL: nat, maxWL: nat)
    requires 0 < minWL < maxWL < 0x1_0000
    ensures var r := MaxDivMin(minWL, maxWL);
            1 <= r <= 0xFFFF && r * maxWL <= minWL * 0x1_0000 < (r + 1) * maxWL
  {
    var x := minWL * 0x1_0000;
    DivMod(x, maxWL);
    DivLower(x, maxWL, 1);
    DivUpper(x, maxWL, 0xFFFF);
  }

  /** With equal wavelengths the ratio is 1 and the 16-bit field wraps to 0. */
  lemma EqualWavelengthsWrap(wl: nat)
    requires 0 < wl < 0x1_0000
    ensures MaxDivMin(wl, wl) == 0
  {
    DivLower(wl * 0x1_0000, wl, 0x1_0000);
    DivUpper(wl * 0x1_0000, wl, 0x1_0000);
  }

  /** The field is 0 in no other case: the ratio is kept exactly when the wavelengths differ. */
  lemma RatioKeptIff(minWL: nat, maxWL: nat)
    requires 0 < minWL <= maxWL < 0x1_0000
    ensures MaxDivMin(minWL, maxWL) >= 1 <==> minWL < maxWL
  {
    if minWL < maxWL { RatioInRange(minWL, maxWL); } else { EqualWavelengthsWrap(minWL); }
  }

  /** Inside the ramp the time fraction is not cut: it is below 1. */
  lemma TimeInRange(clocksRamp: nat, curClock: nat)
    requires clocksRamp / 4 > 0 && curClock <= clocksRamp
    ensures var c, inv := curClock / 4, InvTotalTime(clocksRamp);
            0 <= c * inv <= 0xFFFF_FFFF && TimeFraction(curClock, inv) == c * inv / 0x1_0000
  {
    var c, n, inv := curClock / 4, clocksRamp / 4, InvTotalTime(clocksRamp);
    DivMod(0xFFFF_FFFF, n);
    MulMono(c, n, inv);
  }

  // ---- the denominator --------------------------------------------------------------------------

  lemma Complement(r: nat, t: nat)
    requires 1 <= t <= 0xFFFF && r <= 0xFFFF
    ensures (0x1_0000 - t) * r + t * 0x1_0000 == r * 0x1_0000 + t * (0x1_0000 - r)
    ensures 0 <= (0x1_0000 - t) * r <= 0xFFFF * 0xFFFF
    ensures 0 <= t * (0x1_0000 - r) <= 0xFFFF * (0x1_0000 - r)
  {
    MulMono(0x1_0000 - t, 0xFFFF, r);
    MulMono(r, 0xFFFF, 0xFFFF);
    MulMono(t, 0xFFFF, 0x1_0000 - r);
  }

  /** From time fraction 1 on the denominator is r + t (1 - r) rounded down: nothing is cut, and it
      never is 0. At fraction 0 the complement wraps, and it is 0. */
  lemma DenominatorValue(r: nat, t: nat)
    requires r <= 0xFFFF && t <= 0xFFFF
    ensures t == 0 ==> Denominator(r, t) == 0
    ensures t > 0 ==> Denominator(r, t) == r + t * (0x1_0000 - r) / 0x1_0000
    ensures t > 0 ==> r <= Denominator(r, t) <= 0xFFFF && t <= Denominator(r, t)
  {
    if t > 0 {
      Complement(r, t);
      CutNothing(r, t, (0x1_0000 - t) * r, t * (0x1_0000 - r));
    } else {
      assert Cast16(0xFFFF - t + 1) == 0;
      assert Mul32(r, 0) == 0;
    }
  }

  lemma CutNothing(r: nat, t: nat, p: nat, q: nat)
    requires 1 <= t <= 0xFFFF && r <= 0xFFFF
    requires p == (0x1_0000 - t) * r && p <= 0xFFFF * 0xFFFF
    requires q <= 0xFFFF * (0x1_0000 - r)
    requires p + t * 0x1_0000 == r * 0x1_0000 + q
    ensures Denominator(r, t) == r + q / 0x1_0000
    ensures r <= r + q / 0x1_0000 <= 0xFFFF && t <= r + q / 0x1_0000
  {
    hide Mul32;
    assert Cast16(0xFFFF - t + 1) == 0x1_0000 - t;
    Product(0x1_0000 - t, r, p);
    HighParts(r, t, p, q);
    assert Cast16(p / 0x1_0000) == p / 0x1_0000;
  }

  lemma Product(a: nat, b: nat, p: nat)
    requires p == a * b && p < TWO_32
    ensures Mul32(b, a) == p
  {
    assert b * a == p;
  }

  lemma HighParts(r: nat, t: nat, p: nat, q: nat)
    requires 1 <= t <= 0xFFFF && r <= 0xFFFF
    requires p <= 0xFFFF * 0xFFFF && q <= 0xFFFF * (0x1_0000 - r)
    requires p + t * 0x1_0000 == r * 0x1_0000 + q
    ensures p / 0x1_0000 < 0x1_0000 && p / 0x1_0000 + t == r + q / 0x1_0000 <= 0xFFFF
  {
  }

  /** The evaluation divides by zero exactly where the time fraction rounds to 0. */
  lemma DividesByZeroIff(clocksRamp: nat, minWL: nat, maxWL: nat, curClock: nat)
    requires 0 < maxWL && clocksRamp / 4 > 0 && curClock <= clocksRamp
    ensures var inv := InvTotalTime(clocksRamp); var t := TimeFraction(curClock, inv);
            Denominator(MaxDivMin(minWL, maxWL), t) == 0 <==> (curClock / 4) * inv < 0x1_0000
  {
    TimeInRange(clocksRamp, curClock);
    DenominatorValue(MaxDivMin(minWL, maxWL), TimeFraction(curClock, InvTotalTime(clocksRamp)));
  }

  lemma DenominatorMonotone(r: nat, t: nat, u: nat)
    requires 1 <= r <= 0xFFFF && 1 <= t <= u <= 0xFFFF
    ensures Denominator(r, t) <= Denominator(r, u)
  {
    DenominatorValue(r, t);
    DenominatorValue(r, u);
    MulMono(t, u, 0x1_0000 - r);
  }

  // ---- the delay --------------------------------------------------------------------------------

  /** At least the minimum wavelength, at most the maximum and the error of its ratio r. */
  lemma DelayBounds(minWL: nat, maxWL: nat, r: nat, denom: nat)
    requires 1 <= r <= denom <= 0x1_0000
    requires minWL * 0x1_0000 < (r + 1) * maxWL
    ensures minWL <= WideDelay(minWL, denom) <= maxWL + maxWL / r
  {
    var x := minWL * 0x1_0000;
    MulMono(denom, 0x1_0000, minWL);
    DivLower(x, denom, minWL);
    var top := maxWL + maxWL / r;
    DivMod(maxWL, r);
    assert (r + 1) * maxWL == r * maxWL + maxWL;
    assert (top + 1) * r == maxWL * r + (maxWL / r + 1) * r;
    assert x < (top + 1) * r;
    MulMono(r, denom, top + 1);
    DivUpper(x, denom, top);
  }

  lemma DelayMonotone(minWL: nat, d: nat, e: nat)
    requires 0 < d <= e
    ensures WideDelay(minWL, e) <= WideDelay(minWL, d)
  {
    var x := minWL * 0x1_0000;
    DivMod(x, e);
    MulMono(d, e, x / e);
    DivLower(x, d, x / e);
  }

  /** The assertions of set-up, and no division by zero in it. */
  predicate Asserted(clocksRamp: nat, minWL: nat, maxWL: nat) {
    && minWL <= maxWL && 0 < maxWL < 0x1_0000
    && 0 < clocksRamp / 4 && clocksRamp < 4 * TWO_24
    && InvTotalTime(clocksRamp) < TWO_24
  }

  /** As asserted, with a ratio of wavelengths that fits its field. */
  predicate Accepted(clocksRamp: nat, minWL: nat, maxWL: nat) {
    Asserted(clocksRamp, minWL, maxWL) && 0 < minWL < maxWL
  }

  /** The delay at a clock before its last cast, where the evaluation is defined. */
  function DelayAt(clocksRamp: nat, minWL: nat, maxWL: nat, curClock: nat): (d: nat)
    requires Asserted(clocksRamp, minWL, maxWL) && curClock <= clocksRamp
    requires Started(clocksRamp, curClock)
  {
    DividesByZeroIff(clocksRamp, minWL, maxWL, curClock);
    WideDelay(minWL, Denominator(MaxDivMin(minWL, maxWL), TimeFraction(curClock, InvTotalTime(clocksRamp))))
  }

  /** The time fraction has left 0. */
  predicate Started(clocksRamp: nat, curClock: nat)
    requires clocksRamp / 4 > 0
  {
    (curClock / 4) * InvTotalTime(clocksRamp) >= 0x1_0000
  }

  /** For ramps of fewer than 2^18 clocks the evaluation is defined exactly from clock 4 on. */
  lemma ShortRampStarts(clocksRamp: nat, curClock: nat)
    requires 0 < clocksRamp / 4 <= 0xFFFF
    ensures Started(clocksRamp, curClock) <==> curClock >= 4
  {
    var c, n, inv := curClock / 4, clocksRamp / 4, InvTotalTime(clocksRamp);
    MulMono(n, 0xFFFF, 0x1_0001);
    DivLower(0xFFFF_FFFF, n, 0x1_0001);
    if c >= 1 { MulMono(1, c, inv); }
  }

  /** The assertions of set-up keep the factors of the evaluation within 24 bits. */
  lemma OperandsFit(clocksRamp: nat, minWL: nat, maxWL: nat, curClock: nat)
    requires Asserted(clocksRamp, minWL, maxWL) && curClock <= clocksRamp
    ensures curClock / 4 < TWO_24 && InvTotalTime(clocksRamp) < TWO_24
    ensures clocksRamp / 4 >= 256
  {
    var n := clocksRamp / 4;
    if n < 256 {
      MulMono(n, 255, TWO_24);
      DivLower(0xFFFF_FFFF, n, TWO_24);
    }
  }

  /** What the evaluation returns: the delay cut to 16 bits. */
  function Returned(clocksRamp: nat, minWL: nat, maxWL: nat, curClock: nat): (d: nat)
    requires Asserted(clocksRamp, minWL, maxWL) && curClock <= clocksRamp
    requires Started(clocksRamp, curClock)
  {
    Cast16(DelayAt(clocksRamp, minWL, maxWL, curClock))
  }

  /** The ratio has rounded down to the minimum wavelength itself, and the time fraction is still too
      small to add to it. */
  predicate Cut(clocksRamp: nat, minWL: nat, maxWL: nat, curClock: nat)
    requires maxWL > 0 && clocksRamp / 4 > 0
  {
    var r := MaxDivMin(minWL, maxWL);
    r == minWL && TimeFraction(curClock, InvTotalTime(clocksRamp)) * (0x1_0000 - r) < 0x1_0000
  }

  /** What set-up would have to ask of the wavelengths for their ratio to exceed the minimum. */
  predicate NeverCut(minWL: nat, maxWL: nat) {
    (minWL + 1) * maxWL <= minWL * 0x1_0000
  }

  /** As a 16-bit number the ratio is never below the minimum wavelength. */
  lemma RatioAboveMinimum(minWL: nat, maxWL: nat)
    requires 0 < minWL < maxWL < 0x1_0000
    ensures MaxDivMin(minWL, maxWL) >= minWL
    ensures MaxDivMin(minWL, maxWL) > minWL <==> NeverCut(minWL, maxWL)
  {
    hide MaxDivMin;
    var r := MaxDivMin(minWL, maxWL);
    RatioInRange(minWL, maxWL);
    MulMono(maxWL, 0x1_0000, minWL);
    if r < minWL { MulMono(r + 1, minWL, maxWL); }
    if r > minWL { MulMono(minWL + 1, r, maxWL); }
    if r == minWL && NeverCut(minWL, maxWL) { assert false; }
  }

  lemma WideDelayAtMinimum(minWL: nat)
    requires minWL > 0
    ensures WideDelay(minWL, minWL) == 0x1_0000
  {
    DivLower(minWL * 0x1_0000, minWL, 0x1_0000);
    DivUpper(minWL * 0x1_0000, minWL, 0x1_0000);
  }

  function Quotient(x: nat, d: nat): nat
    requires d > 0
  {
    x / d
  }

  /** What one unit of the ratio is worth at the maximum wavelength. */
  function RatioSlack(minWL: nat, maxWL: nat): nat
    requires 0 < minWL < maxWL < 0x1_0000
  {
    RatioAboveMinimum(minWL, maxWL);
    Quotient(maxWL, MaxDivMin(minWL, maxWL))
  }

  lemma StartedFraction(clocksRamp: nat, curClock: nat)
    requires clocksRamp / 4 > 0 && curClock <= clocksRamp && Started(clocksRamp, curClock)
    ensures 1 <= TimeFraction(curClock, InvTotalTime(clocksRamp)) <= 0xFFFF
  {
    TimeInRange(clocksRamp, curClock);
  }

  /** Before the last cast the delay is at least the minimum wavelength, at most the maximum and the error
      of their ratio. */
  lemma WideBounds(clocksRamp: nat, minWL: nat, maxWL: nat, curClock: nat)
    requires Accepted(clocksRamp, minWL, maxWL) && curClock <= clocksRamp
    requires Started(clocksRamp, curClock)
    ensures minWL <= DelayAt(clocksRamp, minWL, maxWL, curClock) <= maxWL + RatioSlack(minWL, maxWL)
  {
    hide Denominator, WideDelay, MaxDivMin, TimeFraction, Started;
    StartedFraction(clocksRamp, curClock);
    RatioInRange(minWL, maxWL);
    var r, t := MaxDivMin(minWL, maxWL), TimeFraction(curClock, InvTotalTime(clocksRamp));
    DenominatorValue(r, t);
    DelayBounds(minWL, maxWL, r, Denominator(r, t));
  }

  /** The one delay that does not fit 16 bits is 2^16, and it is returned as 0: exactly at the cut clocks. */
  lemma ReturnedIsDelayUnlessCut(clocksRamp: nat, minWL: nat, maxWL: nat, curClock: nat)
    requires Accepted(clocksRamp, minWL, maxWL) && curClock <= clocksRamp
    requires Started(clocksRamp, curClock)
    ensures var d := DelayAt(clocksRamp, minWL, maxWL, curClock);
            var returned := Returned(clocksRamp, minWL, maxWL, curClock);
            if Cut(clocksRamp, minWL, maxWL, curClock) then d == 0x1_0000 && returned == 0 else returned == d > 0
  {
    hide Denominator, WideDelay, MaxDivMin, TimeFraction, Started;
    StartedFraction(clocksRamp, curClock);
    RatioAboveMinimum(minWL, maxWL);
    RatioInRange(minWL, maxWL);
    WideBounds(clocksRamp, minWL, maxWL, curClock);
    var r, t := MaxDivMin(minWL, maxWL), TimeFraction(curClock, InvTotalTime(clocksRamp));
    DenominatorValue(r, t);
    AddsNothing(t * (0x1_0000 - r));
    FitsIff(minWL, Denominator(r, t));
    WideDelayAtMinimum(minWL);
  }

  lemma AddsNothing(q: nat)
    ensures q / 0x1_0000 == 0 <==> q < 0x1_0000
  {
  }

  /** Every delay that is not cut is at least the minimum wavelength, and at most the maximum and the error
      of their ratio. */
  lemma RampBounds(clocksRamp: nat, minWL: nat, maxWL: nat, curClock: nat)
    requires Accepted(clocksRamp, minWL, maxWL) && curClock <= clocksRamp
    requires Started(clocksRamp, curClock)
    ensures var returned := Returned(clocksRamp, minWL, maxWL, curClock);
            && (returned == 0 <==> Cut(clocksRamp, minWL, maxWL, curClock))
            && (returned != 0 ==> minWL <= returned <= maxWL + RatioSlack(minWL, maxWL))
            && (returned == 0 ==> !NeverCut(minWL, maxWL))
  {
    hide DelayAt, TimeFraction, MaxDivMin, Accepted;
    assert 0 < minWL < maxWL < 0x1_0000 by { AcceptedWavelengths(clocksRamp, minWL, maxWL); }
    RatioAboveMinimum(minWL, maxWL);
    WideBounds(clocksRamp, minWL, maxWL, curClock);
    ReturnedIsDelayUnlessCut(clocksRamp, minWL, maxWL, curClock);
  }

  lemma AcceptedWavelengths(clocksRamp: nat, minWL: nat, maxWL: nat)
    requires Accepted(clocksRamp, minWL, maxWL)
    ensures 0 < minWL < maxWL < 0x1_0000
  {
  }

  lemma FitsIff(minWL: nat, denom: nat)
    requires denom > 0
    ensures WideDelay(minWL, denom) < 0x1_0000 <==> minWL < denom
  {
    var x := minWL * 0x1_0000;
    if minWL < denom {
      assert x <= denom * 0x1_0000 - 0x1_0000;
      DivUpper(x, denom, 0xFFFF) by { assert (0xFFFF + 1) * denom == denom * 0x1_0000; }
    } else {
      MulMono(denom, minWL, 0x1_0000);
      DivLower(x, denom, 0x1_0000);
    }
  }

  /** With equal wavelengths, which set-up does not refuse, the delay is not held at them: it is the
      wavelength over the time fraction, cut to 16 bits exactly while the fraction is not above it. */
  lemma EqualWavelengths(clocksRamp: nat, wl: nat, curClock: nat)
    requires Asserted(clocksRamp, wl, wl) && curClock <= clocksRamp
    requires Started(clocksRamp, curClock)
    ensures var t := TimeFraction(curClock, InvTotalTime(clocksRamp));
            && 0 < t <= 0xFFFF
            && Returned(clocksRamp, wl, wl, curClock) == wl * 0x1_0000 / t % 0x1_0000
            && (Returned(clocksRamp, wl, wl, curClock) == wl * 0x1_0000 / t <==> wl < t)
  {
    hide Denominator, MaxDivMin, TimeFraction, Started;
    StartedFraction(clocksRamp, curClock);
    EqualWavelengthsWrap(wl);
    var t := TimeFraction(curClock, InvTotalTime(clocksRamp));
    DenominatorValue(0, t);
    assert t * 0x1_0000 / 0x1_0000 == t;
    FitsIff(wl, t);
  }

  /** In the middle of this ramp the motor is stepped half as fast as asked; at the start of the other,
      faster than asked. */
  lemma EqualWavelengthsExamples()
    ensures Asserted(4000, 1000, 1000) && Started(4000, 2000) && Returned(4000, 1000, 1000, 2000) == 2000
    ensures Asserted(4000, 40000, 40000) && Started(4000, 4) && Returned(4000, 40000, 40000, 4) == 25206
  {
    assert InvTotalTime(4000) == 4294967;
    assert TimeFraction(2000, 4294967) == 32767;
    assert TimeFraction(4, 4294967) == 65;
    EqualWavelengths(4000, 1000, 2000);
    EqualWavelengths(4000, 40000, 4);
  }

  /** Wavelengths next to each other can bring the ratio down to the minimum: the first half of this ramp
      returns delay 0 where the formula asks for the longest. */
  lemma CutExample()
    ensures Accepted(4000, 65534, 65535) && Started(4000, 4) && Started(4000, 1990)
    ensures Returned(4000, 65534, 65535, 4) == 0 == Returned(4000, 65534, 65535, 1990)
    ensures IdealDelay(1000, 65534, 65535, 1) >= 65534
  {
    assert InvTotalTime(4000) == 4294967;
    assert TimeFraction(4, 4294967) == 65 && TimeFraction(1990, 4294967) == 32571;
    assert MaxDivMin(65534, 65535) == 65534;
    ReturnedIsDelayUnlessCut(4000, 65534, 65535, 4);
    ReturnedIsDelayUnlessCut(4000, 65534, 65535, 1990);
  }

  lemma WideMonotone(clocksRamp: nat, minWL: nat, maxWL: nat, early: nat, late: nat)
    requires Accepted(clocksRamp, minWL, maxWL) && early <= late <= clocksRamp
    requires Started(clocksRamp, early)
    ensures Started(clocksRamp, late)
    ensures DelayAt(clocksRamp, minWL, maxWL, late) <= DelayAt(clocksRamp, minWL, maxWL, early)
    ensures TimeFraction(early, InvTotalTime(clocksRamp)) <= TimeFraction(late, InvTotalTime(clocksRamp))
  {
    var r, inv := MaxDivMin(minWL, maxWL), InvTotalTime(clocksRamp);
    RatioInRange(minWL, maxWL);
    TimeInRange(clocksRamp, early);
    TimeInRange(clocksRamp, late);
    MulMono(early / 4, late / 4, inv);
    var t, u := TimeFraction(early, inv), TimeFraction(late, inv);
    DenominatorValue(r, t);
    DenominatorMonotone(r, t, u);
    DelayMonotone(minWL, Denominator(r, t), Denominator(r, u));
  }

  /** Once a clock is not cut, no later one is. */
  lemma CutFirst(clocksRamp: nat, minWL: nat, maxWL: nat, early: nat, late: nat)
    requires Accepted(clocksRamp, minWL, maxWL) && early <= late <= clocksRamp
    requires Started(clocksRamp, early) && Cut(clocksRamp, minWL, maxWL, late)
    ensures Cut(clocksRamp, minWL, maxWL, early)
  {
    hide DelayAt, TimeFraction, MaxDivMin;
    WideMonotone(clocksRamp, minWL, maxWL, early, late);
    var t, u := TimeFraction(early, InvTotalTime(clocksRamp)), TimeFraction(late, InvTotalTime(clocksRamp));
    RatioInRange(minWL, maxWL);
    MulMono(t, u, 0x1_0000 - MaxDivMin(minWL, maxWL));
  }

  /** The motor only speeds up: the delay returned never grows along the ramp, except, and always, from a
      cut clock to one that is not. */
  lemma RampMonotone(clocksRamp: nat, minWL: nat, maxWL: nat, early: nat, late: nat)
    requires Accepted(clocksRamp, minWL, maxWL) && early <= late <= clocksRamp
    requires Started(clocksRamp, early)
    ensures Started(clocksRamp, late)
    ensures Returned(clocksRamp, minWL, maxWL, late) <= Returned(clocksRamp, minWL, maxWL, early) <==>
            !(Cut(clocksRamp, minWL, maxWL, early) && !Cut(clocksRamp, minWL, maxWL, late))
  {
    hide DelayAt, TimeFraction, MaxDivMin, Cut;
    WideMonotone(clocksRamp, minWL, maxWL, early, late);
    ReturnedIsDelayUnlessCut(clocksRamp, minWL, maxWL, early);
    ReturnedIsDelayUnlessCut(clocksRamp, minWL, maxWL, late);
    if Cut(clocksRamp, minWL, maxWL, late) { CutFirst(clocksRamp, minWL, maxWL, early, late); }
  }

  /** The first clock at which the evaluation is defined. */
  function FirstClock(clocksRamp: nat): nat
    requires clocksRamp / 4 > 0 && InvTotalTime(clocksRamp) > 0
  {
    var inv := InvTotalTime(clocksRamp);
    4 * ((0xFFFF + inv) / inv)
  }

  lemma FirstClockIsFirst(clocksRamp: nat, curClock: nat)
    requires clocksRamp / 4 > 0 && InvTotalTime(clocksRamp) > 0
    ensures Started(clocksRamp, curClock) <==> curClock >= FirstClock(clocksRamp)
  {
    hide InvTotalTime;
    var inv := InvTotalTime(clocksRamp);
    var q, c := (0xFFFF + inv) / inv, curClock / 4;
    DivMod(0xFFFF + inv, inv);
    assert (q + 1) * inv == q * inv + inv;
    if c >= q { MulMono(q, c, inv); } else { MulMono(c + 1, q, inv); assert (c + 1) * inv == c * inv + inv; }
  }

  /** A ramp has a cut clock exactly if its first defined clock is cut. */
  lemma SomeClockCutIff(clocksRamp: nat, minWL: nat, maxWL: nat)
    requires Accepted(clocksRamp, minWL, maxWL)
    ensures InvTotalTime(clocksRamp) > 0
    ensures Cut(clocksRamp, minWL, maxWL, FirstClock(clocksRamp)) <==>
            exists c: nat :: c <= clocksRamp && Started(clocksRamp, c) && Returned(clocksRamp, minWL, maxWL, c) == 0
  {
    EndFraction(clocksRamp, minWL, maxWL);
    var first := FirstClock(clocksRamp);
    FirstClockIsFirst(clocksRamp, first);
    FirstClockIsFirst(clocksRamp, clocksRamp);
    ReturnedIsDelayUnlessCut(clocksRamp, minWL, maxWL, first);
    if c: nat :| c <= clocksRamp && Started(clocksRamp, c) && Returned(clocksRamp, minWL, maxWL, c) == 0 {
      FirstClockIsFirst(clocksRamp, c);
      ReturnedIsDelayUnlessCut(clocksRamp, minWL, maxWL, c);
      CutFirst(clocksRamp, minWL, maxWL, first, c);
    }
  }

  /** At the end of every ramp the delay returned is the minimum wavelength to within one part in 255. */
  lemma RampEnd(clocksRamp: nat, minWL: nat, maxWL: nat)
    requires Accepted(clocksRamp, minWL, maxWL)
    ensures Started(clocksRamp, clocksRamp)
    ensures minWL <= Returned(clocksRamp, minWL, maxWL, clocksRamp) <= minWL + minWL / 255
  {
    hide FixMult32, WideDelay, Denominator;
    var t, r := TimeFraction(clocksRamp, InvTotalTime(clocksRamp)), MaxDivMin(minWL, maxWL);
    EndFraction(clocksRamp, minWL, maxWL);
    RatioInRange(minWL, maxWL);
    DenominatorValue(r, t);
    WideBounds(clocksRamp, minWL, maxWL, clocksRamp);
    NearMinimum(minWL, Denominator(r, t));
    ReturnedIsDelayUnlessCut(clocksRamp, minWL, maxWL, clocksRamp);
    if r == minWL { EndNotCut(r, t, minWL, maxWL); }
  }

  lemma EndNotCut(r: nat, t: nat, minWL: nat, maxWL: nat)
    requires minWL < maxWL < 0x1_0000 && t >= 65280 && r == minWL
    ensures t * (0x1_0000 - r) >= 0x1_0000
  {
    MulMono(2, 0x1_0000 - r, t);
  }

  /** A length of at most 24 bits is divided finely enough to come back to 255 / 256. */
  lemma EndFraction(clocksRamp: nat, minWL: nat, maxWL: nat)
    requires Accepted(clocksRamp, minWL, maxWL)
    ensures Started(clocksRamp, clocksRamp)
    ensures 65280 <= TimeFraction(clocksRamp, InvTotalTime(clocksRamp)) <= 0xFFFF
  {
    var n, inv := clocksRamp / 4, InvTotalTime(clocksRamp);
    TimeInRange(clocksRamp, clocksRamp);
    DivMod(0xFFFF_FFFF, n);
    assert (inv + 1) * n == n * inv + n;
    var p := n * inv;
    assert 0xFFFF_FFFF - TWO_24 < p <= 0xFFFF_FFFF;
    assert 65280 <= p / 0x1_0000 <= 0xFFFF;
  }

  lemma NearMinimum(minWL: nat, denom: nat)
    requires denom >= 65280
    ensures WideDelay(minWL, denom) <= minWL + minWL / 255
  {
    var x, top := minWL * 0x1_0000, minWL + minWL / 255;
    assert x < (top + 1) * 65280;
    MulMono(65280, denom, top + 1);
    DivUpper(x, denom, top);
  }

  // ---- against the formula ----------------------------------------------------------------------

  /** a * b / lerp(a, b, c / n), rounded down: the delay the fixed-point form stands for. */
  function IdealDelay(n: nat, a: nat, b: nat, c: nat): nat
    requires 0 < a <= b && 0 < n
  {
    IdealDivisor(n, a, b, c);
    a * b * n / (a * n + c * (b - a))
  }

  lemma IdealDivisor(n: nat, a: nat, b: nat, c: nat)
    requires 0 < a <= b && 0 < n
    ensures a * n + c * (b - a) > 0 && a * b * n >= 0
  {
    MulMono(1, a, n);
    MulMono(0, c, b - a);
    MulMono(0, a, b);
    MulMono(0, a * b, n);
  }

  lemma Cancel(x: nat, y: nat, k: nat)
    requires k > 0 && x * k <= y * k
    ensures x <= y
  {
    if x > y { MulMono(y + 1, x, k); }
  }

  /** Rounding both factors down rounds the interpolation down. */
  lemma LowerProduct(m: nat, n: nat, b: nat, x: nat, big: nat, y: nat, late: nat)
    requires x <= big <= m * b && y <= late <= m * n
    ensures m * (n * x + b * y) - x * y <= m * (n * big + b * late) - big * late
  {
    var u, v := big - x, late - y;
    assert (m * n - y) * u >= 0 && (m * b - big) * v >= 0;
    assert (m * n - y) * u == m * (n * u) - y * u;
    assert (m * b - big) * v == m * (b * v) - big * v;
    assert n * big == n * x + n * u && b * late == b * y + b * v;
    assert big * late == big * y + big * v && big * y == x * y + u * y;
  }

  lemma TimeRoundsDown(clocksRamp: nat, curClock: nat)
    requires clocksRamp / 4 > 0 && curClock <= clocksRamp
    ensures TimeFraction(curClock, InvTotalTime(clocksRamp)) * (clocksRamp / 4) <= 0x1_0000 * (curClock / 4)
  {
    hide TimeFraction, FixMult32, Cast16;
    var c, n, inv := curClock / 4, clocksRamp / 4, InvTotalTime(clocksRamp);
    TimeInRange(clocksRamp, curClock);
    DivMod(0xFFFF_FFFF, n);
    DivMod(c * inv, 0x1_0000);
    FractionOfProduct(c, n, inv, TimeFraction(curClock, inv));
  }

  lemma FractionOfProduct(c: nat, n: nat, inv: nat, t: nat)
    requires 0 <= inv * n <= TWO_32 && t * 0x1_0000 <= c * inv
    ensures t * n <= 0x1_0000 * c
  {
    MulMono(t * 0x1_0000, c * inv, n);
    assert (c * inv) * n == c * (inv * n);
    MulMono(inv * n, TWO_32, c);
    assert (t * 0x1_0000) * n == (t * n) * 0x1_0000;
    assert c * TWO_32 == (0x1_0000 * c) * 0x1_0000;
    Cancel(t * n, 0x1_0000 * c, 0x1_0000);
  }

  lemma ScaledInterpolation(n: nat, a: nat, b: nat, c: nat, r: nat, t: nat, m: nat)
    requires a <= b && c <= n && r <= m && t <= m
    requires r * b <= m * a && t * n <= m * c
    ensures (m * r + t * (m - r)) * (b * n) <= (m * (a * n + c * (b - a))) * m
  {
    MulMono(a, b, m);
    MulMono(c, n, m);
    LowerProduct(m, n, b, r * b, m * a, t * n, m * c);
    ExpandLeft(n, b, r, t, m);
    ExpandRight(n, a, b, c, m);
  }

  lemma ScaledDenominator(r: nat, t: nat)
    requires 1 <= r <= 0xFFFF && 1 <= t <= 0xFFFF
    ensures Denominator(r, t) * 0x1_0000 <= 0x1_0000 * r + t * (0x1_0000 - r)
  {
    DenominatorValue(r, t);
    DivMod(t * (0x1_0000 - r), 0x1_0000);
  }

  lemma Rescale(d: nat, f: nat, k: nat, s: nat, m: nat)
    requires m > 0 && d * m <= f && f * k <= s * m
    ensures d * k <= s
  {
    MulMono(d * m, f, k);
    assert (d * m) * k == (d * k) * m;
    Cancel(d * k, s, m);
  }

  /** The fixed-point denominator is not above the ideal one. */
  lemma DenominatorRoundsDown(n: nat, a: nat, b: nat, c: nat, r: nat, t: nat)
    requires a <= b && c <= n
    requires 1 <= r <= 0xFFFF && 1 <= t <= 0xFFFF
    requires r * b <= 0x1_0000 * a && t * n <= 0x1_0000 * c
    ensures 0 <= a * n + c * (b - a)
    ensures Denominator(r, t) * (b * n) <= 0x1_0000 * (a * n + c * (b - a))
  {
    ScaledDenominator(r, t);
    ScaledInterpolation(n, a, b, c, r, t, 0x1_0000);
    MulMono(0, b - a, c);
    MulMono(0, a, n);
    Rescale(Denominator(r, t), 0x1_0000 * r + t * (0x1_0000 - r), b * n, 0x1_0000 * (a * n + c * (b - a)), 0x1_0000);
  }

  lemma ExpandLeft(n: int, b: int, r: int, t: int, m: int)
    ensures (m * r + t * (m - r)) * (b * n) == m * (n * (r * b) + b * (t * n)) - (r * b) * (t * n)
  {
    var x, y := r * b, t * n;
    calc {
      (m * r + t * (m - r)) * (b * n);
      (m * r) * (b * n) + (t * (m - r)) * (b * n);
      { assert (m * r) * (b * n) == m * (n * x); }
      m * (n * x) + (t * (m - r)) * (b * n);
      { assert (t * (m - r)) * (b * n) == y * (b * m) - y * (b * r); }
      m * (n * x) + y * (b * m) - y * (b * r);
      { assert y * (b * m) == m * (b * y) && y * (b * r) == x * y; }
      m * (n * x) + m * (b * y) - x * y;
    }
  }

  lemma ExpandRight(n: int, a: int, b: int, c: int, m: int)
    ensures m * (n * (m * a) + b * (m * c)) - (m * a) * (m * c) == (m * (a * n + c * (b - a))) * m
  {
  }

  lemma CompareQuotients(d: nat, q: nat, s: nat, a: nat, k: nat)
    requires k > 0 && d * k <= 0x1_0000 * s && q * s <= a * k
    ensures q * d <= a * 0x1_0000
  {
    MulMono(d * k, 0x1_0000 * s, q);
    MulMono(q * s, a * k, 0x1_0000);
    assert q * (0x1_0000 * s) == 0x1_0000 * (q * s);
    assert q * (d * k) == (q * d) * k && 0x1_0000 * (a * k) == (a * 0x1_0000) * k;
    Cancel(q * d, a * 0x1_0000, k);
  }

  /** Before the last cast the delay is never shorter than the formula's. */
  lemma WideNotBelowIdeal(clocksRamp: nat, minWL: nat, maxWL: nat, curClock: nat)
    requires Accepted(clocksRamp, minWL, maxWL) && curClock <= clocksRamp
    requires Started(clocksRamp, curClock)
    ensures IdealDelay(clocksRamp / 4, minWL, maxWL, curClock / 4)
         <= DelayAt(clocksRamp, minWL, maxWL, curClock)
  {
    var r, t := MaxDivMin(minWL, maxWL), TimeFraction(curClock, InvTotalTime(clocksRamp));
    RatioInRange(minWL, maxWL);
    TimeInRange(clocksRamp, curClock);
    TimeRoundsDown(clocksRamp, curClock);
    DenominatorValue(r, t);
    IdealBelow(clocksRamp / 4, minWL, maxWL, curClock / 4, r, t);
  }

  /** The formula never asks for less than the minimum wavelength. */
  lemma IdealAboveMinimum(n: nat, a: nat, b: nat, c: nat)
    requires 0 < a <= b && 0 < n && c <= n
    ensures IdealDelay(n, a, b, c) >= a
  {
    IdealDivisor(n, a, b, c);
    var s := a * n + c * (b - a);
    MulMono(c, n, b - a);
    assert a * n + n * (b - a) == b * n;
    MulMono(s, b * n, a);
    assert a * (b * n) == a * b * n;
    DivLower(a * b * n, s, a);
  }

  /** The motor is stepped faster than the formula asks exactly at the cut clocks. */
  lemma FasterThanIdealIffCut(clocksRamp: nat, minWL: nat, maxWL: nat, curClock: nat)
    requires Accepted(clocksRamp, minWL, maxWL) && curClock <= clocksRamp
    requires Started(clocksRamp, curClock)
    ensures Returned(clocksRamp, minWL, maxWL, curClock)
          < IdealDelay(clocksRamp / 4, minWL, maxWL, curClock / 4)
        <==> Cut(clocksRamp, minWL, maxWL, curClock)
  {
    hide DelayAt, TimeFraction, MaxDivMin, Cut, IdealDelay;
    WideNotBelowIdeal(clocksRamp, minWL, maxWL, curClock);
    ReturnedIsDelayUnlessCut(clocksRamp, minWL, maxWL, curClock);
    IdealAboveMinimum(clocksRamp / 4, minWL, maxWL, curClock / 4);
  }

  /** With wavelengths far enough apart it never is. */
  lemma NeverFasterThanIdeal(clocksRamp: nat, minWL: nat, maxWL: nat, curClock: nat)
    requires Accepted(clocksRamp, minWL, maxWL) && curClock <= clocksRamp
    requires Started(clocksRamp, curClock) && NeverCut(minWL, maxWL)
    ensures IdealDelay(clocksRamp / 4, minWL, maxWL, curClock / 4)
         <= Returned(clocksRamp, minWL, maxWL, curClock)
  {
    hide DelayAt, TimeFraction, MaxDivMin, IdealDelay;
    FasterThanIdealIffCut(clocksRamp, minWL, maxWL, curClock);
    RatioAboveMinimum(minWL, maxWL);
  }

  // ---- how far above the formula ---------------------------------------------------------------

  /** The reciprocal and the product are each rounded down once. */
  lemma TimeShortfall(clocksRamp: nat, curClock: nat)
    requires clocksRamp / 4 > 0 && curClock <= clocksRamp
    ensures var c, n := curClock / 4, clocksRamp / 4;
            0x1_0000 * (0x1_0000 * c - TimeFraction(curClock, InvTotalTime(clocksRamp)) * n) <= n * (c + 0x1_0000)
  {
    hide TimeFraction, FixMult32, Cast16;
    var c, n, inv := curClock / 4, clocksRamp / 4, InvTotalTime(clocksRamp);
    TimeInRange(clocksRamp, curClock);
    DivMod(0xFFFF_FFFF, n);
    DivMod(c * inv, 0x1_0000);
    assert (inv + 1) * n == inv * n + n;
    ProductShortfall(c, n, inv, TimeFraction(curClock, inv));
  }

  lemma ProductShortfall(c: nat, n: nat, inv: nat, t: nat)
    requires TWO_32 <= inv * n + n && c * inv < t * 0x1_0000 + 0x1_0000
    ensures 0x1_0000 * (0x1_0000 * c - t * n) <= n * (c + 0x1_0000)
  {
    MulMono(TWO_32, inv * n + n, c);
    MulMono(c * inv, t * 0x1_0000 + 0x1_0000, n);
    assert c * (inv * n + n) == (c * inv) * n + c * n;
    assert (t * 0x1_0000 + 0x1_0000) * n == 0x1_0000 * (t * n) + 0x1_0000 * n;
    assert n * (c + 0x1_0000) == c * n + 0x1_0000 * n;
  }

  /** Rounding both factors down lowers the interpolation by no more than their two errors. */
  lemma UpperProduct(m: nat, n: nat, b: nat, x: nat, big: nat, y: nat, late: nat)
    requires x <= big <= m * b && y <= late <= m * n
    ensures m * (n * big + b * late) - big * late
         <= (m * (n * x + b * y) - x * y) + m * (n * (big - x)) + m * (b * (late - y))
  {
    var u, v := big - x, late - y;
    assert n * big == n * x + n * u && b * late == b * y + b * v;
    assert big * late == (x + u) * late;
    assert (x + u) * late == x * late + u * late && x * late == x * y + x * v;
    assert x * v >= 0 && u * late >= 0;
    assert m * (n * x + n * u + (b * y + b * v)) == m * (n * x + b * y) + m * (n * u) + m * (b * v);
  }

  lemma RatioShare(m: nat, n: nat, b: nat, u: nat)
    requires u <= b
    ensures m * (n * u) <= m * (b * n)
  {
    MulMono(u, b, n);
    MulMono(n * u, b * n, m);
  }

  lemma TimeShare(m: nat, n: nat, b: nat, c: nat, v: nat)
    requires m * v <= n * (c + m)
    ensures m * (b * v) <= (c + m) * (b * n)
  {
    MulMono(m * v, n * (c + m), b);
    assert b * (m * v) == m * (b * v);
    assert b * (n * (c + m)) == (c + m) * (b * n);
  }

  lemma AddShares(x: nat, y: nat, z: nat, k: nat)
    ensures x * k + y * k + z * k == (x + y + z) * k
  {
    Distribute(k, x, y);
    Distribute(k, x + y, z);
  }

  /** The fixed-point divisor, in units of 2^-32, is short of the formula's by at most 3 * 2^16 + c. */
  lemma DenominatorShortfall(n: nat, a: nat, b: nat, c: nat, r: nat, t: nat)
    requires a <= b && c <= n && 1 <= r <= 0xFFFF && 1 <= t <= 0xFFFF
    requires r * b <= 0x1_0000 * a <= r * b + b && t * n <= 0x1_0000 * c
    requires 0x1_0000 * (0x1_0000 * c - t * n) <= n * (c + 0x1_0000)
    ensures (0x1_0000 * (a * n + c * (b - a))) * 0x1_0000
         <= (0x1_0000 * Denominator(r, t) + 3 * 0x1_0000 + c) * (b * n)
  {
    DivisorRoundsOnce(r, t);
    InterpolationShortfall(0x1_0000, n, a, b, c, r, t, Denominator(r, t));
  }

  lemma InterpolationShortfall(m: nat, n: nat, a: nat, b: nat, c: nat, r: nat, t: nat, denom: nat)
    requires a <= b && c <= n && r <= m && t <= m
    requires r * b <= m * a <= r * b + b && t * n <= m * c
    requires m * (m * c - t * n) <= n * (c + m)
    requires m * r + t * (m - r) <= m * denom + m
    ensures (m * (a * n + c * (b - a))) * m <= (m * denom + 3 * m + c) * (b * n)
  {
    var k := b * n;
    var u, v, f: int := m * a - r * b, m * c - t * n, m * r + t * (m - r);
    var whole, ratio, time: int := (m * (a * n + c * (b - a))) * m, m * (n * u), m * (b * v);
    assert whole <= f * k + ratio + time by {
      MulMono(a, b, m);
      MulMono(c, n, m);
      ShortBy(m, n, a, b, c, r, t);
    }
    assert ratio <= m * k by { RatioShare(m, n, b, u); }
    assert time <= (c + m) * k by { TimeShare(m, n, b, c, v); }
    assert f * k <= (m * denom + m) * k by { ProductGrows(f, m * denom + m, k); }
    AddShares(m * denom + m, m, c + m, k);
    AddUp(whole, f * k, ratio, time, (m * denom + m) * k, m * k, (c + m) * k);
  }

  lemma ProductGrows(x: int, y: int, k: nat)
    requires x <= y
    ensures x * k <= y * k
  {
  }

  lemma AddUp(whole: int, f: int, ratio: int, time: int, a: int, b: int, c: int)
    requires whole <= f + ratio + time && f <= a && ratio <= b && time <= c
    ensures whole <= a + b + c
  {
  }

  lemma ShortBy(m: nat, n: nat, a: nat, b: nat, c: nat, r: nat, t: nat)
    requires a <= b && c <= n && r * b <= m * a <= m * b && t * n <= m * c <= m * n
    ensures (m * (a * n + c * (b - a))) * m
         <= (m * r + t * (m - r)) * (b * n) + m * (n * (m * a - r * b)) + m * (b * (m * c - t * n))
  {
    UpperProduct(m, n, b, r * b, m * a, t * n, m * c);
    ExpandLeft(n, b, r, t, m);
    ExpandRight(n, a, b, c, m);
  }

  lemma DivisorRoundsOnce(r: nat, t: nat)
    requires 1 <= r <= 0xFFFF && 1 <= t <= 0xFFFF
    ensures 0x1_0000 * r + t * (0x1_0000 - r) <= 0x1_0000 * Denominator(r, t) + 0x1_0000
  {
    DenominatorValue(r, t);
    DivMod(t * (0x1_0000 - r), 0x1_0000);
  }

  /** The formula's delay, rounded down, is less than one clock short of it. */
  lemma IdealRoundsDown(n: nat, a: nat, b: nat, c: nat)
    requires 0 < a <= b && 0 < n
    ensures a * (b * n) <= (IdealDelay(n, a, b, c) + 1) * (a * n + c * (b - a))
  {
    IdealDivisor(n, a, b, c);
    DivMod(a * b * n, a * n + c * (b - a));
    assert a * b * n == a * (b * n);
  }

  /** From a lower bound on a divisor, an upper bound on the quotient. */
  lemma QuotientShortfall(m: nat, s: nat, e: nat, k: nat, d: nat, denom: nat, a: nat, q: nat)
    requires (m * s) * m <= (m * denom + e) * k && d * denom <= a * m && a * k <= (q + 1) * s
    ensures ((d - (q + 1)) * s) * (m * m) <= d * (e * k)
  {
    LeftSide(m, s, e, k, d, denom);
    MulMono(d * denom, a * m, k);
    assert (a * m) * k == m * (a * k);
    MulMono(a * k, (q + 1) * s, m);
    MulMono((d * denom) * k, m * ((q + 1) * s), m);
    RightSide(m, s, d, q + 1);
  }

  lemma LeftSide(m: nat, s: nat, e: nat, k: nat, d: nat, denom: nat)
    requires (m * s) * m <= (m * denom + e) * k
    ensures d * ((m * s) * m) <= m * ((d * denom) * k) + d * (e * k)
  {
    var p, q := (m * denom) * k, e * k;
    assert p + q == (m * denom + e) * k;
    MulMono((m * s) * m, p + q, d);
    Distribute(d, p, q);
    Regroup(d, m, denom, k);
  }

  lemma Regroup(d: nat, m: nat, denom: nat, k: nat)
    ensures d * ((m * denom) * k) == m * ((d * denom) * k)
  {
    assert d * ((m * denom) * k) == (d * (m * denom)) * k;
    assert d * (m * denom) == m * (d * denom);
    assert (m * (d * denom)) * k == m * ((d * denom) * k);
  }

  lemma RightSide(m: nat, s: nat, d: nat, p: nat)
    ensures ((d - p) * s) * (m * m) == d * ((m * s) * m) - m * (m * (p * s))
  {
    assert d * ((m * s) * m) == (d * s) * (m * m);
    assert m * (m * (p * s)) == (p * s) * (m * m);
    assert (d - p) * s == d * s - p * s;
    assert (d * s - p * s) * (m * m) == (d * s) * (m * m) - (p * s) * (m * m);
  }

  /** How far above the formula an uncut delay d can be: with s / (b n) the formula's divisor at clock c, the
      part of d in excess of the formula is at most (3 + c / 2^16) / 2^16 of d over that divisor. */
  lemma DelayNearIdeal(clocksRamp: nat, minWL: nat, maxWL: nat, curClock: nat)
    requires Accepted(clocksRamp, minWL, maxWL) && curClock <= clocksRamp
    requires Started(clocksRamp, curClock) && !Cut(clocksRamp, minWL, maxWL, curClock)
    ensures var d, n, c := Returned(clocksRamp, minWL, maxWL, curClock), clocksRamp / 4, curClock / 4;
            var q, s := IdealDelay(n, minWL, maxWL, c), minWL * n + c * (maxWL - minWL);
            ((d - (q + 1)) * s) * (0x1_0000 * 0x1_0000) <= d * ((3 * 0x1_0000 + c) * (maxWL * n))
  {
    hide TimeFraction, MaxDivMin, Denominator, IdealDelay, Cut, FixMult32, Started;
    var n, c := clocksRamp / 4, curClock / 4;
    var r, t := MaxDivMin(minWL, maxWL), TimeFraction(curClock, InvTotalTime(clocksRamp));
    StartedFraction(clocksRamp, curClock);
    RatioInRange(minWL, maxWL);
    assert (r + 1) * maxWL == r * maxWL + maxWL;
    TimeShortfall(clocksRamp, curClock);
    TimeRoundsDown(clocksRamp, curClock);
    DenominatorShortfall(n, minWL, maxWL, c, r, t);
    DenominatorValue(r, t);
    ReturnedIsDelayUnlessCut(clocksRamp, minWL, maxWL, curClock);
    DivMod(minWL * 0x1_0000, Denominator(r, t));
    IdealRoundsDown(n, minWL, maxWL, c);
    IdealDivisor(n, minWL, maxWL, c);
    var d, q := DelayAt(clocksRamp, minWL, maxWL, curClock), IdealDelay(n, minWL, maxWL, c);
    QuotientShortfall(0x1_0000, minWL * n + c * (maxWL - minWL), 3 * 0x1_0000 + c, maxWL * n,
                      d, Denominator(r, t), minWL, q);
  }

  lemma IdealBelow(n: nat, a: nat, b: nat, c: nat, r: nat, t: nat)
    requires 0 < a <= b && 0 < n && c <= n
    requires 1 <= r <= 0xFFFF && 1 <= t <= 0xFFFF
    requires r * b <= 0x1_0000 * a && t * n <= 0x1_0000 * c
    requires Denominator(r, t) > 0
    ensures IdealDelay(n, a, b, c) <= WideDelay(a, Denominator(r, t))
  {
    DenominatorRoundsDown(n, a, b, c, r, t);
    IdealTimesDivisor(n, a, b, c);
    MulMono(1, b, n);
    CompareQuotients(Denominator(r, t), IdealDelay(n, a, b, c), a * n + c * (b - a), a, b * n);
    DivLower(a * 0x1_0000, Denominator(r, t), IdealDelay(n, a, b, c));
  }

  lemma IdealTimesDivisor(n: nat, a: nat, b: nat, c: nat)
    requires 0 < a <= b && 0 < n
    ensures IdealDelay(n, a, b, c) * (a * n + c * (b - a)) <= a * (b * n)
  {
    IdealDivisor(n, a, b, c);
    DivMod(a * b * n, a * n + c * (b - a));
  }

  // ---- the routines -----------------------------------------------------------------------------

  class Ramp {
    var clocksRamp: nat
    var clocksMinWL: nat
    var clocksMaxWL: nat
    var maxDivMin: nat
    var invTotalTime: nat

    ghost predicate Computed()
      reads this
    {
      && Asserted(clocksRamp, clocksMinWL, clocksMaxWL)
      && maxDivMin == MaxDivMin(clocksMinWL, clocksMaxWL)
      && invTotalTime == InvTotalTime(clocksRamp)
    }

    method Compute(ramp: nat, minWL: nat, maxWL: nat)
      requires Asserted(ramp, minWL, maxWL)
      modifies this
      ensures Computed() && clocksRamp == ramp && clocksMinWL == minWL && clocksMaxWL == maxWL
    {
      clocksRamp := ramp;
      clocksMinWL := minWL;
      clocksMaxWL := maxWL;
      maxDivMin := Cast16(minWL * 0x1_0000 / maxWL);
      invTotalTime := 0xFFFF_FFFF / (clocksRamp / 4);
    }

    method Evaluate(curClock: nat) returns (delta: nat)
      requires Computed() && curClock <= clocksRamp
      requires Started(clocksRamp, curClock)
      ensures delta == Returned(clocksRamp, clocksMinWL, clocksMaxWL, curClock)
    {
      hide FixMult32, FixMult16, Cast16, MaxDivMin, InvTotalTime;
      StartedFraction(clocksRamp, curClock);
      DividesByZeroIff(clocksRamp, clocksMinWL, clocksMaxWL, curClock);
      var t := Cast16(FixMult32(curClock / 4, invTotalTime));
      var denom := Cast16(FixMult16(Cast16(0xFFFF - t + 1), maxDivMin) + t);
      delta := Cast16(clocksMinWL * 0x1_0000 / denom);
    }

    /** The same with the multiplication done eight bits at a time, as a processor without a wide one needs:
        the factors are in its range, and the delay is the same. */
    method EvaluateBytewise(curClock: nat) returns (delta: nat)
      requires Computed() && curClock <= clocksRamp
      requires Started(clocksRamp, curClock)
      ensures delta == Returned(clocksRamp, clocksMinWL, clocksMaxWL, curClock)
    {
      hide FixMult32, FixMult16, Cast16, MaxDivMin, InvTotalTime;
      StartedFraction(clocksRamp, curClock);
      OperandsFit(clocksRamp, clocksMinWL, clocksMaxWL, curClock);
      DividesByZeroIff(clocksRamp, clocksMinWL, clocksMaxWL, curClock);
      var product := FixMult32Bytewise(curClock / 4, invTotalTime);
      var t := Cast16(product);
      var denom := Cast16(FixMult16(Cast16(0xFFFF - t + 1), maxDivMin) + t);
      delta := Cast16(clocksMinWL * 0x1_0000 / denom);
    }
  }
}
