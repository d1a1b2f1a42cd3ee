/** Comparing doubles and making them from 64-bit integers. */
module SoftConvert {
  import opened Bits
  import opened FloatSpec
  import opened SoftFloat

  // ---- comparison ---------------------------------------------------------

  function SignOfInt(x: int): int { if x < 0 then -1 else if x == 0 then 0 else 1 }

  /** The sign of a - b, zeros equal and infinities beyond every finite double; with a
      NaN, the answer the caller chose. */
  method CmpF64(a: F64, b: F64, nanResult: int) returns (r: int)
    ensures IsNan(a) || IsNan(b) ==> r == nanResult
    ensures !IsNan(a) && !IsNan(b) ==> r == SignOfInt(Val(a) - Val(b))
  {
    hide Mag;
    if IsNan(a) || IsNan(b) { return nanResult; }
    MagSmall(0);
    CodesOrdered(Code(a), Code(b));
    CodesOrdered(0, Code(a));
    CodesOrdered(0, Code(b));
    if Code(a) == 0 && Code(b) == 0 { return 0; }
    if SignOf(a) != SignOf(b) { return if SignOf(a) != 0 then -1 else 1; }
    if Code(a) == Code(b) { return 0; }
    if SignOf(a) != 0 {
      return if Code(a) > Code(b) then -1 else 1;
    } else {
      return if Code(a) > Code(b) then 1 else -1;
    }
  }

  lemma CodesOrdered(u: nat, v: nat)
    ensures (u < v <==> Mag(u) < Mag(v)) && (u == v <==> Mag(u) == Mag(v))
  {
    if u <= v { MagMono(u, v); } else { MagMono(v, u); }
  }

  // ---- integers -----------------------------------------------------------

  /** One integer unit, in units of 2^-1074. */
  function Unit(): nat { Pow2(1074) }

  function Pack(sign: nat, exp: nat, frac: nat): (r: F64)
    requires sign <= 1 && exp < 2047 && frac < P52
    ensures SignOf(r) == sign && Code(r) == exp * P52 + frac
  {
    sign * P63 + exp * P52 + frac
  }

  /** The double nearest to the integer, ties to even, with its sign; +0 for zero. */
  method FloatFromInt(a: int) returns (r: F64)
    requires 0 - P63 <= a < P63
    ensures SignOf(r) == (if a < 0 then 1 else 0) && RoundsTo(Times(Abs(a), Unit()), 0, Code(r))
  {
    hide Mag, Pow2, RoundsTo, Unit, CodeOf, PackRounded, Msb, Times;
    if a == 0 {
      ZeroRounds();
      return 0;
    }
    var sign := if a < 0 then 1 else 0;
    MsbWord(Abs(a));
    var exp := Msb(Abs(a)) + 1023;
    var frac := RoundedBits(Abs(a));
    r := PackRounded(sign, exp, frac);
  }

  /** Pack, after a carry into the next exponent if rounding made one. */
  function PackRounded(sign: nat, exp: nat, frac: nat): (r: F64)
    requires sign <= 1 && 1 <= exp < 2046 && P52 <= frac <= P53
    ensures SignOf(r) == sign && Code(r) == CodeOf(exp, frac)
  {
    if frac >= P53 then Pack(sign, exp + 1, frac / 2 % P52) else Pack(sign, exp, frac % P52)
  }

  /** The significand: shifted up, or shifted down and rounded. */
  method RoundedBits(mag: nat) returns (frac: nat)
    requires 0 < mag && Msb(mag) <= 63
    ensures P52 <= frac <= P53 && RoundsTo(Times(mag, Unit()), 0, CodeOf(Msb(mag) + 1023, frac))
  {
    hide Mag, Pow2, RoundsTo, Unit, CodeOf;
    var msb := Msb(mag);
    if msb > 52 {
      var p := Pow2(msb - 52);
      var dropped, half := mag % p, Pow2(msb - 53);
      HalfIs(msb - 52);
      LongRounds(mag, msb, p);
      frac := Quot(mag, p);
      if dropped > half || (dropped == half && frac % 2 == 1) { frac := frac + 1; }
    } else {
      ShortRounds(mag, msb);
      frac := Times(mag, Pow2(52 - msb));
    }
  }

  lemma ZeroRounds()
    ensures RoundsTo(Times(0, Unit()), 0, 0)
  {
    RoundsToItself(0);
  }

  lemma MsbWord(x: nat)
    requires 0 < x <= P63
    ensures Msb(x) <= 63
  {
    Pow2Zero();
    Pow2Values();
    hide Pow2;
    MsbBetween(x, 0, 64);
  }

  lemma HalfIs(k: nat)
    requires k > 0
    ensures Pow2(k) == 2 * Pow2(k - 1)
  {
  }

  /** More than 53 bits: the dropped ones decide. */
  lemma LongRounds(mag: nat, msb: nat, p: nat)
    requires mag > 0 && msb == Msb(mag) && 52 < msb <= 63 && p == Pow2(msb - 52)
    ensures P52 <= mag / p < P53 && P52 <= Rounded(mag, p) <= P53
      && RoundsTo(Times(mag, Unit()), 0, CodeOf(msb + 1023, Rounded(mag, p)))
  {
    hide Mag, Pow2, RoundsTo;
    Pow52();
    Pow2Add(52, msb - 52);
    Pow2Add(53, msb - 52);
    TopBits(mag, p);
    Pow2Add(1074, msb - 52);
    Assoc(mag, Pow2(1074), p);
    Pow2Zero();
    SignificandRounds(mag, p, msb + 1023, mag * Pow2(1074), 0);
  }

  lemma TopBits(x: nat, p: nat)
    requires p > 0 && P52 * p <= x < P53 * p
    ensures P52 <= x / p < P53
  {
    var q := x / p;
    assert x == q * p + x % p;
    if q < P52 { MulLess(q + 1, P52, p); }
    if q >= P53 { MulLess(P53, q, p); }
  }

  /** At most 53 bits: exact. */
  lemma ShortRounds(mag: nat, msb: nat)
    requires mag > 0 && msb == Msb(mag) <= 52
    ensures P52 <= mag * Pow2(52 - msb) < P53
      && RoundsTo(Times(mag, Unit()), 0, CodeOf(msb + 1023, mag * Pow2(52 - msb)))
  {
    hide Mag, Pow2, RoundsTo, Rounded, CodeOf;
    var p := Pow2(52 - msb);
    Pow52();
    Pow2Add(msb, 52 - msb);
    Pow2Add(msb + 1, 52 - msb);
    MulLess(Pow2(msb), mag, p);
    MulLessStrict(mag, Pow2(msb + 1), p);
    Pow2Add(52 - msb, msb + 1022);
    ShortRoundsAt(mag, p, msb);
  }

  lemma ShortRoundsAt(mag: nat, p: nat, msb: nat)
    requires P52 <= mag * p < P53 && p * Pow2(msb + 1022) == Pow2(1074)
    ensures RoundsTo(Times(mag, Unit()), 0, CodeOf(msb + 1023, mag * p))
  {
    hide Mag, Pow2, RoundsTo, Rounded, CodeOf;
    Assoc(mag, p, Pow2(msb + 1022));
    Pow2Zero();
    Exactly(mag * p);
    SignificandRounds(mag * p, 1, msb + 1023, mag * Pow2(1074), 0);
  }

  lemma Exactly(n: nat)
    ensures n / 1 == n && Rounded(n, 1) == n
  {
  }
}
