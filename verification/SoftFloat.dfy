/** Software double arithmetic: addition, subtraction and multiplication of the
    compiler runtime, against correct rounding to nearest, ties to even. */
module SoftFloat {
  import opened Bits
  import opened FloatSpec
  import opened Sticky

  const QUIET: nat := 0x8_0000_0000_0000
  const DEFAULT_NAN: F64 := 0x7FF8_0000_0000_0000

  // ---- taking doubles apart and putting them together ---------------------

  /** Position of the highest one bit: what counting leading zeros gives. */
  function Msb(x: nat): (k: nat)
    requires x > 0
    ensures Pow2(k) <= x < Pow2(k + 1)
  {
    if x == 1 then 0 else 1 + Msb(x / 2)
  }

  lemma MsbBetween(x: nat, lo: nat, hi: nat)
    requires x > 0 && Pow2(lo) <= x < Pow2(hi)
    ensures lo <= Msb(x) < hi
  {
    Pow2Ordered(Msb(x) + 1, lo);
    Pow2Ordered(hi, Msb(x));
  }

  lemma Pow2Ordered(i: nat, j: nat)
    ensures i <= j ==> Pow2(i) <= Pow2(j)
  {
    if i <= j { Pow2Mono(i, j); }
  }

  /** Exponent and 53-bit significand, subnormals normalised. */
  function Unpacked(u: nat): (int, nat)
    requires 0 < u < INF
  {
    var e, f := u / P52, u % P52;
    if e == 0 then
      var shift := 52 - Msb(f);
      (1 - shift, if shift >= 0 then f * Pow2(shift) else f)
    else
      (e, P52 + f)
  }

  lemma UnpackedValue(u: nat)
    requires 0 < u < INF
    ensures var (e, f) := Unpacked(u); -51 <= e <= 2046 && P52 <= f < P53 && Mag(u) * Pow2(64) == f * Pow2(e + 63)
  {
    var e, f := u / P52, u % P52;
    if e == 0 {
      SubnormalValue(f);
    } else {
      NormalValue(e, P52 + f);
    }
  }

  lemma NormalValue(e: nat, f: nat)
    requires e >= 1
    ensures f * Pow2(e - 1) * Pow2(64) == f * Pow2(e + 63)
  {
    hide Pow2;
    Pow2Add(e - 1, 64);
    Assoc(f, Pow2(e - 1), Pow2(64));
  }

  lemma Assoc(x: nat, y: nat, z: nat)
    ensures x * y * z == x * (y * z)
  {
  }

  lemma SubnormalValue(f: nat)
    requires 0 < f < P52
    ensures Msb(f) < 52
    ensures P52 <= f * Pow2(52 - Msb(f)) < P53
    ensures f * Pow2(64) == f * Pow2(52 - Msb(f)) * Pow2(Msb(f) - 51 + 63)
  {
    Pow52();
    MsbBetween(f, 0, 52) by { assert Pow2(0) == 1; }
    var k := Msb(f);
    Pow2Add(k, 52 - k);
    Pow2Add(k + 1, 52 - k);
    MulLess(Pow2(k), f, Pow2(52 - k));
    MulLessStrict(f, Pow2(k + 1), Pow2(52 - k));
    Pow2Add(52 - k, k + 12);
    Assoc(f, Pow2(52 - k), Pow2(k + 12));
  }

  lemma Pow52()
    ensures Pow2(52) == P52 && Pow2(53) == P53 && Pow2(55) == 8 * P52 && Pow2(56) == 16 * P52 && Pow2(57) == 32 * P52
    ensures Pow2(54) == 4 * P52 && Pow2(64) == P64
  {
    Pow2Values();
    Pow2Add(32, 20);
    assert Pow2(20) == 0x10_0000 by { Pow2Add(16, 4); assert Pow2(4) == 16; }
    assert Pow2(53) == 2 * Pow2(52) && Pow2(54) == 2 * Pow2(53) && Pow2(55) == 2 * Pow2(54);
    assert Pow2(56) == 2 * Pow2(55) && Pow2(57) == 2 * Pow2(56);
  }

  /** The code with significand m at exponent e, shifted into the subnormals when e
      is not positive. */
  function Target(e: int, m: nat): nat {
    if e >= 1 then CodeOf(e, m) else Shr(m, 1 - e)
  }

  function Shr(x: nat, k: nat): (q: nat)
    ensures q <= x
  {
    Quot(x, Pow2(k))
  }

  /** The packing tail shared by the operations. */
  function Assemble(sign: nat, exp: int, frac: nat): (r: F64)
    requires sign <= 1 && P52 <= frac < P53
    ensures SignOf(r) == sign && Code(r) == Target(exp, frac) <= INF
  {
    if exp >= 2047 then
      sign * P63 + INF
    else if exp <= 0 then
      var shift := 1 - exp;
      if shift >= 53 then
        ShiftedOut(frac, shift);
        sign * P63
      else
        sign * P63 + Shr(frac, shift)
    else
      sign * P63 + exp * P52 + frac % P52
  }

  lemma ShiftedOut(f: nat, s: nat)
    requires f < P53 && s >= 53
    ensures Shr(f, s) == 0
  {
    Pow52();
    Pow2Mono(53, s);
    DivModUnique(f, Pow2(s), 0, f);
  }

  /** After an increment the significand may carry into the next exponent. */
  lemma CarryTarget(e: int)
    ensures Target(e + 1, P52) == Target(e, P53)
  {
    if e <= 0 {
      Pow52();
      assert Pow2(1 - e) == 2 * Pow2(0 - e);
      HalfOver(P52, Pow2(0 - e));
      if e == 0 { assert Pow2(0) == 1; }
    }
  }

  lemma HalfOver(x: nat, p: nat)
    requires p > 0
    ensures x / p == 2 * x / (2 * p)
  {
    DivModUnique(2 * x, 2 * p, x / p, 2 * (x % p));
  }

  // ---- rounding off three extra bits --------------------------------------

  predicate Increments(sig: nat) {
    sig % 8 > 4 || (sig % 8 == 4 && sig / 8 % 2 == 1)
  }

  /** A significand that tracks n/m decides rounding at the third bit as n does. */
  lemma RoundBits(sig: nat, n: nat, m: nat)
    requires m > 0 && Tracks(sig, n, m, 4)
    ensures n / (8 * m) == sig / 8
    ensures RoundUp(n, 8 * m) <==> Increments(sig)
  {
    var q := sig / 8;
    assert Bar(4, 2 * q) == 8 * q && Bar(4, 2 * q + 1) == 8 * q + 4 && Bar(4, 2 * q + 2) == 8 * q + 8;
    var r := n - 8 * q * m;
    EighthRemainder(n, q, m, r);
  }

  lemma EighthRemainder(n: nat, q: nat, m: nat, r: int)
    requires m > 0 && r == n - 8 * q * m
    requires 8 * q * m <= n < (8 * q + 8) * m
    ensures n / (8 * m) == q && n % (8 * m) == r
    ensures n < (8 * q + 4) * m <==> 2 * r < 8 * m
    ensures n == (8 * q + 4) * m <==> 2 * r == 8 * m
  {
    assert (8 * q + 8) * m == 8 * q * m + 8 * m && (8 * q + 4) * m == 8 * q * m + 4 * m;
    assert 8 * q * m == q * (8 * m);
    DivModUnique(n, 8 * m, q, r);
  }

  /** Rounding and packing a normalised significand with three extra bits gives the
      correctly rounded double for v. */
  lemma PackedRounds(sig: nat, exp: int, v: nat)
    requires 8 * P52 <= sig < 8 * P53 && exp + 60 >= 0
    requires Tracks(sig, v * Pow2(64), Pow2(exp + 60), 4)
    ensures RoundsTo(v, 0, Target(exp, sig / 8 + if Increments(sig) then 1 else 0))
  {
    hide RoundsTo, Tracks, Mag, Pow2;
    var n, m := v * Pow2(64), Pow2(exp + 60);
    RoundBits(sig, n, m);
    if exp >= 1 {
      EightTimes(exp + 60);
      Pow2Add(exp - 1, 64);
      Pow2Zero();
      Shuffle(v, Pow2(64), Pow2(exp - 1));
      SignificandRounds(n, 8 * m, exp, v, 0);
    } else {
      SubnormalExact(sig, exp, v);
    }
  }

  lemma EightTimes(p: nat)
    ensures 8 * Pow2(p) == Pow2(p + 3)
  {
    assert Pow2(p + 3) == 2 * Pow2(p + 2) && Pow2(p + 2) == 2 * Pow2(p + 1);
  }

  lemma Shuffle(v: nat, a: nat, b: nat)
    ensures v * (b * a) == v * a * (b * 1)
  {
  }

  /** Sums never round below the normal range: every double is a multiple of the
      smallest one. */
  lemma SubnormalExact(sig: nat, exp: int, v: nat)
    requires sig < 8 * P53 && 0 <= exp + 60 <= 60
    requires Tracks(sig, v * Pow2(64), Pow2(exp + 60), 4)
    ensures !Increments(sig) && RoundsTo(v, 0, Shr(sig / 8, 1 - exp))
  {
    hide RoundsTo, Mag, Pow2, Tracks;
    var p := Pow2(1 - exp);
    EightTimes(1 - exp);
    Pow2Add(4 - exp, exp + 60);
    Assoc(v, 8 * p, Pow2(exp + 60));
    TrackedExactly(sig, v, p, Pow2(exp + 60));
    Pow2Mono(1, 1 - exp);
    Pow2One();
    MulDivExact(v, p);
    MulLess(2, p, v);
    RoundsToItself(v);
  }

  lemma TrackedExactly(sig: nat, v: nat, p: nat, m: nat)
    requires m > 0 && Tracks(sig, v * (8 * p) * m, m, 4)
    ensures sig % 8 == 0 && sig / 8 == v * p
  {
    var c := Times(2 * v, p);
    assert Bar(4, c) == v * (8 * p);
    assert sig == Bar(4, c);
    assert c == 2 * Times(v, p);
  }

  lemma RoundsToItself(v: nat)
    requires v <= P52
    ensures RoundsTo(v, 0, v)
  {
    hide Pow2;
    Pow2Zero();
    MagSmall(v);
    if v > 0 { AtLeastMag(v, 0, v, v); }
    AtMostMag(v, 0, v);
  }

  // ---- addition -----------------------------------------------------------

  function Abs(x: int): nat { if x < 0 then 0 - x else x }

  /** Shift right, keeping a sticky bit; a shift past the word leaves only that. */
  function ShiftSticky(sig: nat, d: nat): nat {
    if d < 128 then
      Or(Shr(sig, d), if And(sig, Pow2(d) - 1) != 0 then 1 else 0)
    else
      1
  }

  lemma ShiftStickyJams(sig: nat, d: nat)
    requires 0 < sig < Pow2(128)
    ensures ShiftSticky(sig, d) == JamBy(sig, Pow2(d))
  {
    hide Pow2, And, Or;
    if d < 128 {
      AndMask(sig, d);
      OrOne(Shr(sig, d));
    } else {
      Pow2Mono(128, d);
      DivModUnique(sig, Pow2(d), 0, sig);
    }
  }

  lemma OrOne(x: nat)
    ensures Or(x, 1) == (if x % 2 == 1 then x else x + 1) && Or(x, 0) == x
  {
  }

  /** Adding or subtracting aligned significands is exact up to the sticky bit. */
  lemma AlignedSum(big: nat, small: nat, d: nat, t: nat)
    requires big % 2 == 0
    ensures big + JamBy(small, Pow2(d)) == JamBy((big * Pow2(d) + small) * Pow2(t), Pow2(t + d))
  {
    JamSum(big, small, Pow2(d));
    JamScaled(big * Pow2(d) + small, Pow2(d), Pow2(t));
    Pow2Add(t, d);
  }

  lemma AlignedDifference(big: nat, small: nat, d: nat, t: nat)
    requires big % 2 == 0 && small <= big * Pow2(d)
    ensures JamBy(small, Pow2(d)) <= big
    ensures big - JamBy(small, Pow2(d)) == JamBy((big * Pow2(d) - small) * Pow2(t), Pow2(t + d))
  {
    JamDifference(big, small, Pow2(d));
    JamScaled(big * Pow2(d) - small, Pow2(d), Pow2(t));
    Pow2Add(t, d);
  }

  /** Significand f at exponent e stands for v. */
  ghost predicate Stands(f: nat, e: int, v: nat) {
    P52 <= f < P53 && -51 <= e <= 2046 && v * Pow2(64) == f * Pow2(e + 63)
  }

  lemma StandsEight(f: nat, e: int, v: nat, t: nat, d: nat)
    requires Stands(f, e, v) && e + 60 == t + d
    ensures v * Pow2(64) == 8 * f * Pow2(d) * Pow2(t)
  {
    hide Pow2;
    EightTimes(t + d);
    Pow2Add(d, t);
    Assoc(8 * f, Pow2(d), Pow2(t));
  }

  lemma SumAligned(f: nat, e: int, v: nat, g: nat, h: int, w: nat)
    requires Stands(f, e, v) && Stands(g, h, w) && e >= h
    ensures 8 * f + JamBy(8 * g, Pow2(e - h)) == JamBy((v + w) * Pow2(64), Pow2(e + 60))
  {
    hide Pow2, JamBy;
    var d, t := e - h, h + 60;
    StandsEight(f, e, v, t, d);
    StandsEight(g, h, w, t, 0);
    Pow2Zero();
    AlignedSum(8 * f, 8 * g, d, t);
    Distribute(8 * f * Pow2(d), 8 * g, Pow2(t), v, w, Pow2(64));
  }

  lemma Distribute(x: nat, y: nat, p: nat, v: nat, w: nat, q: nat)
    requires v * q == x * p && w * q == y * p
    ensures (v + w) * q == (x + y) * p
    ensures (v - w) * q == (x - y) * p
  {
  }

  lemma DifferenceAligned(f: nat, e: int, v: nat, g: nat, h: int, w: nat)
    requires Stands(f, e, v) && Stands(g, h, w) && e >= h && 8 * g <= 8 * f * Pow2(e - h)
    ensures v >= w && JamBy(8 * g, Pow2(e - h)) <= 8 * f
    ensures 8 * f - JamBy(8 * g, Pow2(e - h)) == JamBy((v - w) * Pow2(64), Pow2(e + 60))
  {
    hide Pow2, JamBy;
    var d, t := e - h, h + 60;
    StandsEight(f, e, v, t, d);
    StandsEight(g, h, w, t, 0);
    Pow2Zero();
    var x, y := 8 * f * Pow2(d), 8 * g;
    Distribute(x, y, Pow2(t), v, w, Pow2(64));
    MulSigns(x - y, Pow2(t));
    MulSigns(v - w, Pow2(64));
    AlignedDifference(8 * f, 8 * g, d, t);
  }

  /** The operand with the larger exponent is the larger one. */
  lemma LargerExponent(f: nat, g: nat, d: nat)
    requires P52 <= f < P53 && P52 <= g < P53 && d > 0
    ensures 8 * g < 8 * f * Pow2(d)
    ensures JamBy(8 * g, Pow2(d)) < 8 * f
    ensures d >= 2 ==> JamBy(8 * g, Pow2(d)) <= 4 * P52
  {
    hide Pow2;
    Pow2Mono(1, d);
    Pow2One();
    if d >= 2 { Pow2Mono(2, d); assert Pow2(2) == 4 by { Pow2Add(1, 1); } }
    MulLess(2, Pow2(d), 8 * f);
    JamBound(8 * g, Pow2(d), if d >= 2 then 4 else 2);
  }

  lemma JamBound(x: nat, m: nat, c: nat)
    requires m >= c && (c == 2 || c == 4)
    ensures JamBy(x, m) <= x / c + 1
  {
    var q, r := x / m, x % m;
    assert x == q * m + r;
    MulLess(c, m, q);
  }

  /** Within three places the shift drops nothing. */
  lemma SmallShiftExact(g: nat, d: nat)
    requires d <= 3
    ensures JamBy(8 * g, Pow2(d)) * Pow2(d) == 8 * g
  {
    Pow2Zero();
    assert Pow2(2) == 4 && Pow2(3) == 8;
  }

  /** An unnormalised sum: n to within the sticky bit, and exact unless at most one
      place was lost. */
  ghost predicate Partial(sig: nat, exp: int, n: nat) {
    && exp + 60 >= 0
    && sig < 32 * P52
    && sig == JamBy(n, Pow2(exp + 60))
    && (n == sig * Pow2(exp + 60) || sig >= 4 * P52)
  }

  lemma SumPartial(f: nat, e: int, v: nat, g: nat, h: int, w: nat)
    requires Stands(f, e, v) && Stands(g, h, w) && e >= h
    ensures Partial(8 * f + JamBy(8 * g, Pow2(e - h)), e, (v + w) * Pow2(64))
  {
    hide Stands, JamBy, Pow2;
    StandsRange(f, e, v);
    StandsRange(g, h, w);
    SumAligned(f, e, v, g, h, w);
    JamNoLarger(g, e - h);
  }

  lemma StandsRange(f: nat, e: int, v: nat)
    requires Stands(f, e, v)
    ensures P52 <= f < P53 && -51 <= e
  {
  }

  lemma JamNoLarger(g: nat, d: nat)
    requires P52 <= g < P53
    ensures JamBy(8 * g, Pow2(d)) <= 8 * g
  {
    if d == 0 {
      Pow2Zero();
    } else {
      Pow2Mono(1, d);
      Pow2One();
      JamBound(8 * g, Pow2(d), 2);
    }
  }

  lemma DifferencePartial(f: nat, e: int, v: nat, g: nat, h: int, w: nat)
    requires Stands(f, e, v) && Stands(g, h, w) && e >= h && 8 * g <= 8 * f * Pow2(e - h)
    ensures v >= w && JamBy(8 * g, Pow2(e - h)) <= 8 * f
    ensures Partial(8 * f - JamBy(8 * g, Pow2(e - h)), e, (v - w) * Pow2(64))
  {
    hide JamBy, Pow2;
    DifferenceAligned(f, e, v, g, h, w);
    var d := e - h;
    if d >= 2 {
      LargerExponent(f, g, d);
    } else {
      ExactDifference(f, e, v, g, h, w);
    }
  }

  lemma ExactDifference(f: nat, e: int, v: nat, g: nat, h: int, w: nat)
    requires Stands(f, e, v) && Stands(g, h, w) && e >= h && e - h <= 3
    ensures (v - w) * Pow2(64) == (8 * f - JamBy(8 * g, Pow2(e - h))) * Pow2(e + 60)
  {
    hide JamBy, Pow2;
    var d, t := e - h, h + 60;
    StandsEight(f, e, v, t, d);
    StandsEight(g, h, w, t, 0);
    Pow2Zero();
    SmallShiftExact(g, d);
    var j := JamBy(8 * g, Pow2(d));
    Distribute(8 * f * Pow2(d), j * Pow2(d), Pow2(t), v, w, Pow2(64));
    Pow2Add(d, t);
    Factor(8 * f, j, Pow2(d), Pow2(t));
  }

  lemma Factor(x: int, y: int, p: int, q: int)
    ensures (x * p - y * p) * q == (x - y) * (p * q)
  {
    assert x * p - y * p == (x - y) * p;
  }

  function Signed(sign: nat, v: nat): int { if sign == 0 then v else 0 - v }

  /** Align, then add or subtract. */
  method Combine(aSign: nat, aExp: int, aFrac: nat, bSign: nat, bExp: int, bFrac: nat, ghost v: nat, ghost w: nat)
    returns (sign: nat, exp: int, sig: nat)
    requires aSign <= 1 && bSign <= 1 && Stands(aFrac, aExp, v) && Stands(bFrac, bExp, w)
    ensures Partial(sig, exp, Abs(Signed(aSign, v) + Signed(bSign, w)) * Pow2(64))
    ensures sign <= 1 && (Signed(aSign, v) + Signed(bSign, w) > 0 ==> sign == 0)
      && (Signed(aSign, v) + Signed(bSign, w) < 0 ==> sign == 1)
  {
    hide Stands, Partial, JamBy, Pow2, ShiftSticky;
    StandsRange(aFrac, aExp, v);
    StandsRange(bFrac, bExp, w);
    var aSig, bSig := 8 * aFrac, 8 * bFrac;
    var diff := aExp - bExp;
    if diff > 0 {
      exp := aExp;
      bSig := ShiftSticky(bSig, diff);
      Shifted(bFrac, diff);
      LargerExponent(aFrac, bFrac, diff);
      SumPartial(aFrac, aExp, v, bFrac, bExp, w);
      DifferencePartial(aFrac, aExp, v, bFrac, bExp, w);
    } else if diff < 0 {
      exp := bExp;
      aSig := ShiftSticky(aSig, -diff);
      Shifted(aFrac, -diff);
      LargerExponent(bFrac, aFrac, -diff);
      SumPartial(bFrac, bExp, w, aFrac, aExp, v);
      DifferencePartial(bFrac, bExp, w, aFrac, aExp, v);
    } else {
      exp := aExp;
      Unshifted(aFrac, aExp, v, bFrac, bExp, w);
    }
    if aSign == bSign {
      sign := aSign;
      sig := aSig + bSig;
    } else if aSig >= bSig {
      sign := aSign;
      sig := aSig - bSig;
    } else {
      sign := bSign;
      sig := bSig - aSig;
    }
  }

  lemma Shifted(f: nat, d: nat)
    requires P52 <= f < P53
    ensures ShiftSticky(8 * f, d) == JamBy(8 * f, Pow2(d))
  {
    hide JamBy, ShiftSticky, Pow2;
    Pow52();
    Pow2Mono(56, 128);
    ShiftStickyJams(8 * f, d);
  }

  lemma Unshifted(f: nat, e: int, v: nat, g: nat, h: int, w: nat)
    requires Stands(f, e, v) && Stands(g, h, w) && e == h
    ensures Partial(8 * f + 8 * g, e, (v + w) * Pow2(64))
    ensures f >= g ==> v >= w && Partial(8 * f - 8 * g, e, (v - w) * Pow2(64))
    ensures f <= g ==> w >= v && Partial(8 * g - 8 * f, e, (w - v) * Pow2(64))
  {
    hide Stands, Partial;
    Pow2Zero();
    SumPartial(f, e, v, g, h, w);
    if f >= g { DifferencePartial(f, e, v, g, h, w); }
    if f <= g { DifferencePartial(g, h, w, f, e, v); }
  }

  /** Move the highest one bit to position 55. */
  method Normalize(exp: int, sig: nat, ghost n: nat) returns (e: int, s: nat)
    requires sig > 0 && Partial(sig, exp, n) && (n == 0 || n >= P64)
    ensures e + 60 >= 0 && 8 * P52 <= s < 8 * P53 && Tracks(s, n, Pow2(e + 60), 4)
  {
    hide Pow2, Msb, ShiftSticky, Tracks, Partial;
    var msb := Msb(sig);
    Pow52();
    if msb > 55 {
      var shift := msb - 55;
      WideSum(sig, exp, n);
      s, e := ShiftSticky(sig, shift), exp + shift;
    } else if msb < 55 {
      var shift := 55 - msb;
      NarrowSum(sig, exp, n, shift);
      s, e := sig * Pow2(shift), exp - shift;
    } else {
      PartialTracks(sig, exp, n);
      s, e := sig, exp;
    }
  }

  lemma PartialTracks(sig: nat, exp: int, n: nat)
    requires Partial(sig, exp, n)
    ensures exp + 60 >= 0 && Tracks(sig, n, Pow2(exp + 60), 4)
  {
    hide Pow2, Tracks;
    JamTracks(n, Pow2(exp + 60));
    TracksCoarser(sig, n, Pow2(exp + 60));
  }

  lemma WideSum(sig: nat, exp: int, n: nat)
    requires sig > 0 && Partial(sig, exp, n) && Msb(sig) > 55
    ensures Msb(sig) == 56 && exp + 60 >= 0
    ensures 8 * P52 <= ShiftSticky(sig, 1) < 8 * P53
    ensures Tracks(ShiftSticky(sig, 1), n, Pow2(exp + 61), 4)
  {
    hide Pow2, Tracks, ShiftSticky, Msb;
    Pow52();
    Pow2Mono(56, Msb(sig));
    MsbBetween(sig, 56, 57);
    Pow2Mono(57, 128);
    ShiftStickyJams(sig, 1);
    Pow2One();
    JamTwice(n, Pow2(exp + 60), 2);
    Pow2Add(exp + 60, 1);
    var s := ShiftSticky(sig, 1);
    assert 8 * P52 <= s < 8 * P53;
    PartialTracksAt(s, n, Pow2(exp + 61));
  }

  lemma PartialTracksAt(s: nat, n: nat, m: nat)
    requires m > 0 && s == JamBy(n, m)
    ensures Tracks(s, n, m, 4)
  {
    hide Tracks;
    JamTracks(n, m);
    TracksCoarser(s, n, m);
  }

  lemma NarrowSum(sig: nat, exp: int, n: nat, shift: nat)
    requires sig > 0 && Partial(sig, exp, n) && (n == 0 || n >= P64) && Msb(sig) < 55 && shift == 55 - Msb(sig)
    ensures 8 * P52 <= sig * Pow2(shift) < 8 * P53
    ensures exp - shift + 60 >= 0 && Tracks(sig * Pow2(shift), n, Pow2(exp - shift + 60), 4)
  {
    hide Pow2, Tracks, Msb, JamBy;
    ShiftedRange(sig, shift);
    var m := exp + 60;
    if n == sig * Pow2(m) {
      MulLess(1, Pow2(m), sig);
      ExactShift(sig, n, m, shift);
    } else {
      Pow52();
      MsbBetween(sig, 54, 55);
      InexactShift(sig, n, m);
    }
  }

  lemma ShiftedRange(sig: nat, shift: nat)
    requires sig > 0 && Msb(sig) < 55 && shift == 55 - Msb(sig)
    ensures 8 * P52 <= sig * Pow2(shift) < 8 * P53
    ensures sig < Pow2(55)
  {
    hide Pow2, Msb;
    Pow52();
    Pow2Mono(Msb(sig) + 1, 55);
    Pow2Add(Msb(sig), shift);
    Pow2Add(Msb(sig) + 1, shift);
    MulLess(Pow2(Msb(sig)), sig, Pow2(shift));
    MulLessStrict(sig, Pow2(Msb(sig) + 1), Pow2(shift));
  }

  lemma ExactShift(sig: nat, n: nat, m: nat, shift: nat)
    requires n == sig * Pow2(m) && n >= P64 && sig * Pow2(shift) < 8 * P53
    ensures m >= shift && Tracks(sig * Pow2(shift), n, Pow2(m - shift), 4)
  {
    hide Pow2, Tracks;
    RoomToShift(sig, n, m, shift);
    Pow2Add(shift, m - shift);
    Assoc(sig, Pow2(shift), Pow2(m - shift));
    ExactTracks(sig * Pow2(shift), n, Pow2(m - shift));
  }

  lemma InexactShift(sig: nat, n: nat, m: nat)
    requires sig == JamBy(n, Pow2(m)) && n != sig * Pow2(m)
    ensures m >= 1 && Tracks(sig * Pow2(1), n, Pow2(m - 1), 4)
  {
    hide Pow2, Tracks;
    InexactHasRoom(sig, n, m);
    Pow2One();
    Pow2Add(1, m - 1);
    JamTracks(n, Pow2(m));
    TracksDoubled(sig, n, Pow2(m - 1));
  }

  lemma RoomToShift(sig: nat, n: nat, m: nat, shift: nat)
    requires n == sig * Pow2(m) && n >= P64 && sig * Pow2(shift) < 8 * P53
    ensures m >= shift
  {
    hide Pow2;
    Pow2Ordered(m, shift);
    if m < shift { MulLess(Pow2(m), Pow2(shift), sig); }
  }

  lemma InexactHasRoom(sig: nat, n: nat, m: nat)
    requires sig == JamBy(n, Pow2(m)) && n != sig * Pow2(m)
    ensures m >= 1
  {
    if m == 0 { Pow2Zero(); }
  }

  /** Rounding to nearest even, then packing. */
  method RoundAndPack(sign: nat, exp: int, sig: nat) returns (r: F64)
    requires sign <= 1 && 8 * P52 <= sig < 8 * P53
    ensures SignOf(r) == sign && Code(r) == Target(exp, sig / 8 + if Increments(sig) then 1 else 0)
  {
    hide Target;
    var e, frac := exp, sig / 8;
    if sig % 8 > 4 || (sig % 8 == 4 && frac % 2 != 0) {
      frac := frac + 1;
      if frac == P53 {
        CarryTarget(e);
        frac, e := P52, e + 1;
      }
    }
    r := Assemble(sign, e, frac);
  }

  method AddNonzero(a: F64, b: F64) returns (r: F64)
    requires Finite(a) && Finite(b) && !IsZero(a) && !IsZero(b)
    ensures RoundsTo(Abs(Val(a) + Val(b)), 0, Code(r))
    ensures SignOf(r) == (if Val(a) + Val(b) < 0 then 1 else 0)
  {
    hide RoundsTo, Partial, Mag, Pow2, Unpacked, Tracks, Target;
    var (aExp, aFrac) := Unpacked(Code(a));
    var (bExp, bFrac) := Unpacked(Code(b));
    UnpackedStands(Code(a));
    UnpackedStands(Code(b));
    var sign, exp, sig := Combine(SignOf(a), aExp, aFrac, SignOf(b), bExp, bFrac, Mag(Code(a)), Mag(Code(b)));
    ghost var v := Abs(Val(a) + Val(b));
    WholeOrZero(v, sig, exp);
    if sig == 0 {
      RoundsToItself(0);
      return 0;
    }
    exp, sig := Normalize(exp, sig, v * Pow2(64));
    PackedRounds(sig, exp, v);
    r := RoundAndPack(sign, exp, sig);
  }

  lemma UnpackedStands(u: nat)
    requires 0 < u < INF
    ensures Stands(Unpacked(u).1, Unpacked(u).0, Mag(u))
  {
    UnpackedValue(u);
  }

  lemma WholeOrZero(v: nat, sig: nat, exp: int)
    requires Partial(sig, exp, v * Pow2(64))
    ensures sig == 0 <==> v == 0
    ensures v > 0 ==> v * Pow2(64) >= P64
  {
    hide Pow2;
    Pow52();
    MulSigns(v, P64);
    MulSigns(P64, v + 1);
    assert v > 0 ==> v * P64 >= P64;
    JamZero(v * Pow2(64), Pow2(exp + 60));
  }

  lemma JamZero(n: nat, m: nat)
    requires m > 0
    ensures JamBy(n, m) == 0 <==> n == 0
  {
    assert n == n / m * m + n % m;
    MulDivExact(0, m);
    if n == 0 { assert 0 * m == 0; DivModUnique(0, m, 0, 0); }
  }

  function Quiet(x: F64): (r: F64)
    ensures r == x || r == x + QUIET
    ensures IsNan(x) ==> IsNan(r) && SignOf(r) == SignOf(x)
  {
    QuietNan(x);
    Or(x, QUIET)
  }

  lemma QuietNan(x: F64)
    ensures Or(x, QUIET) == x || Or(x, QUIET) == x + QUIET < P64
    ensures SignOf(Or(x, QUIET)) == SignOf(x) && Code(Or(x, QUIET)) >= Code(x)
  {
    hide Or;
    QuietValue(x);
    if x / QUIET % 2 == 0 { QuietStays(x, x / P52); }
  }

  lemma QuietStays(x: F64, h: nat)
    requires x / QUIET % 2 == 0 && h == x / P52
    ensures x + QUIET < P64
    ensures SignOf(x + QUIET) == SignOf(x) && Code(x + QUIET) == Code(x) + QUIET
  {
    var l := x - h * P52;
    assert l < QUIET by { if l >= QUIET { DivModUnique(x, QUIET, 2 * h + 1, l - QUIET); } }
    var t, g := h / 2048, h % 2048;
    assert x == t * P63 + (g * P52 + l);
    DivModUnique(x, P63, t, g * P52 + l);
    DivModUnique(x + QUIET, P63, t, g * P52 + l + QUIET);
  }

  lemma QuietValue(x: F64)
    ensures Or(x, QUIET) == if x / QUIET % 2 == 1 then x else x + QUIET
  {
    hide Or, Xor, Pow2;
    assert Pow2(51) == QUIET by { Pow52(); Pow2Add(51, 1); Pow2One(); }
    OrXorPow2(x, 51);
  }

  function Negated(x: F64): (r: F64)
    ensures Code(r) == Code(x) && SignOf(r) == 1 - SignOf(x)
    ensures Val(r) == 0 - Val(x)
  {
    NegatedValue(x);
    Xor(x, P63)
  }

  lemma NegatedValue(x: F64)
    ensures Xor(x, P63) == if x / P63 % 2 == 1 then x - P63 else x + P63
  {
    hide Or, Xor, Pow2;
    Pow2Values();
    OrXorPow2(x, 63);
  }

  /** r is the IEEE 754 sum of a and b, rounded to nearest, ties to even. */
  ghost predicate IsSum(a: F64, b: F64, r: F64) {
    if IsNan(a) then r == Quiet(a)
    else if IsNan(b) then r == Quiet(b)
    else if IsInf(a) && IsInf(b) && SignOf(a) != SignOf(b) then r == 0x7FF8_0000_0000_0000
    else if IsInf(a) then r == a
    else if IsInf(b) then r == b
    else
      var s := Val(a) + Val(b);
      && RoundsTo(Abs(s), 0, Code(r))
      && (SignOf(r) == 1 <==> s < 0 || (s == 0 && SignOf(a) == 1 && SignOf(b) == 1))
  }

  lemma RoundsToExact(u: nat)
    requires u <= INF
    ensures RoundsTo(Mag(u), 0, u)
  {
    hide Pow2, Mag;
    Pow2Zero();
    if u > 0 { AtLeastMag(Mag(u), 0, u, u); }
    AtMostMag(Mag(u), 0, u);
  }

  lemma MagZero(u: nat)
    ensures Mag(u) == 0 <==> u == 0
  {
    MagMono(0, u);
    MagSmall(0);
  }

  method AddF64(a: F64, b: F64) returns (r: F64)
    ensures IsSum(a, b, r)
  {
    hide RoundsTo, Mag, Quiet;
    MagZero(Code(a));
    MagZero(Code(b));
    if IsNan(a) { return Quiet(a); }
    if IsNan(b) { return Quiet(b); }
    if ExpOf(a) == 2047 {
      if ExpOf(b) == 2047 && SignOf(a) != SignOf(b) { return DEFAULT_NAN; }
      return a;
    }
    if ExpOf(b) == 2047 { return b; }
    if ExpOf(a) == 0 && FracOf(a) == 0 {
      if ExpOf(b) == 0 && FracOf(b) == 0 {
        RoundsToExact(0);
        return if SignOf(a) == 1 && SignOf(b) == 1 then P63 else 0;
      }
      RoundsToExact(Code(b));
      return b;
    }
    if ExpOf(b) == 0 && FracOf(b) == 0 {
      RoundsToExact(Code(a));
      return a;
    }
    r := AddNonzero(a, b);
  }

  method SubF64(a: F64, b: F64) returns (r: F64)
    ensures IsSum(a, Negated(b), r)
  {
    r := AddF64(a, Negated(b));
  }

  /** The sum is unique: the specification leaves no choice. */
  lemma SumUnique(a: F64, b: F64, r: F64, q: F64)
    requires IsSum(a, b, r) && IsSum(a, b, q)
    ensures r == q
  {
    hide RoundsTo, Mag, Quiet;
    if Finite(a) && Finite(b) {
      RoundsToUnique(Abs(Val(a) + Val(b)), 0, Code(r), Code(q));
    }
  }

  /** Addition commutes, except for which of two NaNs is passed on. */
  lemma SumCommutes(a: F64, b: F64, r: F64)
    requires IsSum(a, b, r) && !(IsNan(a) && IsNan(b))
    ensures IsSum(b, a, r)
  {
    hide RoundsTo, Mag, Quiet;
  }

  /** No finite double is closer to the exact sum. */
  lemma SumNearest(a: F64, b: F64, r: F64, z: F64)
    requires Finite(a) && Finite(b) && IsSum(a, b, r) && Finite(r) && Finite(z)
    ensures Distance(Mag(Code(r)), Abs(Val(a) + Val(b))) <= Distance(Mag(Code(z)), Abs(Val(a) + Val(b)))
  {
    hide RoundsTo, Mag, Quiet;
    Pow2Zero();
    RoundsToNearest(Abs(Val(a) + Val(b)), 0, Code(r), Code(z));
  }
}
