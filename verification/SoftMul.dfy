/** Software double multiplication. */
module SoftMul {
  import opened Bits
  import opened FloatSpec
  import opened Sticky
  import opened SoftFloat

  const MIN_EXP: nat := 1074

  // ---- what the significand product is worth ------------------------------

  lemma ProductRange(f: nat, g: nat)
    requires P52 <= f < P53 && P52 <= g < P53
    ensures Pow2(104) <= f * g < Pow2(106)
  {
    Pow52();
    Pow2Add(52, 52);
    Pow2Add(53, 53);
    MulLess(P52, f, P52);
    MulLess(P52, g, f);
    MulLess(f, P53, P53);
    MulLessStrict(g, P53, f);
  }

  lemma ProductValue(f: nat, e: int, v: nat, g: nat, h: int, w: nat)
    requires Stands(f, e, v) && Stands(g, h, w)
    ensures e + h + 126 >= 0 && v * w * Pow2(128) == f * g * Pow2(e + h + 126)
  {
    hide Pow2;
    Pow2Add(64, 64);
    Pow2Add(e + 63, h + 63);
    FourProduct(v, w, Pow2(64), Pow2(64));
    FourProduct(f, g, Pow2(e + 63), Pow2(h + 63));
  }

  lemma FourProduct(x: nat, y: nat, p: nat, q: nat)
    ensures x * y * (p * q) == (x * p) * (y * q)
  {
    assert x * y * (p * q) == x * (y * p) * q;
    assert x * (y * p) == (x * p) * y;
  }

  /** v * 2^j == p * 2^k whenever both sides agree at a common scale. */
  lemma Rescale(v: nat, p: nat, a: nat, b: nat, j: nat, k: nat)
    requires v * Pow2(a) == p * Pow2(b) && a + k == b + j
    ensures v * Pow2(j) == p * Pow2(k)
  {
    hide Pow2;
    Pow2Add(a, k);
    Pow2Add(b, j);
    Pow2Add(a, j);
    Pow2Add(a, k);
    CommonScale(v, p, Pow2(a), Pow2(b), Pow2(j), Pow2(k));
  }

  lemma CommonScale(v: nat, p: nat, a: nat, b: nat, j: nat, k: nat)
    requires a > 0 && v * a == p * b && a * k == b * j
    ensures v * j == p * k
  {
    assert v * j * a == v * a * j;
    assert p * b * j == p * (b * j);
    assert p * (a * k) == p * k * a;
    Compare(v * j, p * k, a);
  }

  /** Round bit and sticky bit decide rounding. */
  lemma RoundBitDecides(p: nat, m: nat)
    requires m > 0
    ensures p / m % 2 == 1 && (p % m != 0 || p / (2 * m) % 2 == 1) <==> RoundUp(p, 2 * m)
  {
    var q, r := p / m, p % m;
    assert p == q * m + r;
    assert (q / 2) * (2 * m) + (q % 2 * m + r) == p;
    DivModUnique(p, 2 * m, q / 2, q % 2 * m + r);
  }

  // ---- products below the normal range are rounded twice ------------------

  /** u is p/m rounded to nearest, ties to even. */
  predicate Nearest(p: nat, m: nat, u: nat) {
    && (u > 0 ==> 2 * p > (2 * u - 1) * m || (2 * p == (2 * u - 1) * m && u % 2 == 0))
    && (2 * p < (2 * u + 1) * m || (2 * p == (2 * u + 1) * m && u % 2 == 0))
  }

  lemma MagLow(u: nat)
    requires u <= P53
    ensures Mag(u) == u
  {
    Pow2Zero();
    if u <= P52 { MagSmall(u); } else { MagNormal(1, u); }
  }

  lemma SubnormalNearest(v: nat, k: nat, p: nat, s: nat, u: nat)
    requires v * Pow2(s) == p * Pow2(k) && u < P53 && Nearest(p, Pow2(s), u)
    ensures RoundsTo(v, k, u)
  {
    hide Mag, Pow2, Nearest;
    MagLow(u);
    MagLow(u + 1);
    Below2(v, k, p, s, u);
    if u > 0 {
      MagLow(u - 1);
      Above2(v, k, p, s, u);
    }
  }

  lemma Above2(v: nat, k: nat, p: nat, s: nat, u: nat)
    requires v * Pow2(s) == p * Pow2(k) && 0 < u < P53 && Nearest(p, Pow2(s), u) && Mag(u - 1) == u - 1 && Mag(u) == u
    ensures Above(v, k, u)
  {
    hide Mag, Pow2;
    CrossScale(v, p, 2 * u - 1, Pow2(s), Pow2(k));
  }

  lemma Below2(v: nat, k: nat, p: nat, s: nat, u: nat)
    requires v * Pow2(s) == p * Pow2(k) && u < P53 && Nearest(p, Pow2(s), u) && Mag(u) == u && Mag(u + 1) == u + 1
    ensures Below(v, k, u)
  {
    hide Mag, Pow2;
    CrossScale(v, p, 2 * u + 1, Pow2(s), Pow2(k));
  }

  lemma CrossScale(v: nat, p: nat, c: nat, m: nat, s: nat)
    requires m > 0 && s > 0 && v * m == p * s
    ensures 2 * v < c * s <==> 2 * p < c * m
    ensures 2 * v == c * s <==> 2 * p == c * m
  {
    assert 2 * v * m == 2 * p * s;
    assert c * s * m == c * m * s;
    Compare(2 * v, c * s, m);
    Compare(2 * p, c * m, s);
  }

  /** The product p is rounded to p/m and the result truncated by c.  When does that
      agree with rounding p/(m*c) once? */
  predicate RoundsOnce(p: nat, m: nat, c: nat)
    requires m > 0 && c > 0
  {
    var w := Times(m, c);
    var q, r := p / w, p % w;
    2 * r < w || (2 * r == w && q % 2 == 0) || 2 * r >= 2 * w - m
  }

  lemma TwiceRounded(p: nat, m: nat, c: nat)
    requires m > 0 && c > 0 && c % 2 == 0
    ensures Nearest(p, Times(m, c), Quot(Rounded(p, m), c) + if RoundsOnce(p, m, c) then 0 else 1)
  {
    hide Nearest, Rounded, RoundsOnce;
    var q, r := p / m, p % m;
    var q1, r1 := q / c, q % c;
    SplitRemainder(p, m, c, q, r, q1, r1);
    TruncatedRounded(p, m, c, q, r, q1, r1);
    OnceMeans(p, m, c, q1, r1 * m + r);
    var top := r1 == c - 1 && 2 * r >= m;
    if top { TopQuarter(r1, r, m, c); } else { NotTop(r1, r, m, c); }
    Settle(p, m * c, m, q1, r1 * m + r, top);
  }

  lemma Settle(p: nat, w: nat, m: nat, q: nat, r: nat, top: bool)
    requires p == q * w + r && r < w
    requires if top then 2 * r >= 2 * w - m && 2 * r > w else 2 * r < 2 * w - m
    ensures Nearest(p, w, q + (if top then 1 else 0)
      + if 2 * r < w || (2 * r == w && q % 2 == 0) || 2 * r >= 2 * w - m then 0 else 1)
  {
    hide Nearest;
    if top { NearestAbove(p, w, q, r); } else { NearestChoice(p, w, q, r); }
  }

  lemma OnceMeans(p: nat, m: nat, c: nat, q: nat, r: nat)
    requires m > 0 && c > 0 && m * c > 0 && q == p / (m * c) && r == p % (m * c)
    ensures RoundsOnce(p, m, c) <==> 2 * r < m * c || (2 * r == m * c && q % 2 == 0) || 2 * r >= 2 * (m * c) - m
  {
  }

  lemma TruncatedRounded(p: nat, m: nat, c: nat, q: nat, r: nat, q1: nat, r1: nat)
    requires m > 0 && c > 0 && c % 2 == 0
    requires q == p / m && r == p % m && q1 == q / c && r1 == q % c && q == q1 * c + r1
    ensures Rounded(p, m) / c == q1 + if r1 == c - 1 && 2 * r >= m then 1 else 0
  {
    hide Rounded, RoundUp;
    var inc := RoundedBy(p, m, q, r);
    EvenMultiple(q1, c);
    Parity(q, q1 * c, r1);
    Truncate(q, c, q1, r1, inc);
  }

  lemma RoundedBy(p: nat, m: nat, q: nat, r: nat) returns (inc: nat)
    requires m > 0 && q == p / m && r == p % m
    ensures Rounded(p, m) == q + inc && inc <= 1
    ensures inc == 1 <==> 2 * r > m || (2 * r == m && q % 2 == 1)
  {
    inc := if RoundUp(p, m) then 1 else 0;
  }

  lemma Truncate(q: nat, c: nat, q1: nat, r1: nat, inc: nat)
    requires q == q1 * c + r1 && r1 < c && inc <= 1
    ensures (q + inc) / c == q1 + if r1 == c - 1 && inc == 1 then 1 else 0
  {
    if r1 == c - 1 && inc == 1 {
      assert (q1 + 1) * c == q + 1;
      DivModUnique(q + 1, c, q1 + 1, 0);
    } else {
      DivModUnique(q + inc, c, q1, r1 + inc);
    }
  }

  lemma SplitRemainder(p: nat, m: nat, c: nat, q: nat, r: nat, q1: nat, r1: nat)
    requires m > 0 && c > 0 && q == p / m && r == p % m && q1 == q / c && r1 == q % c
    ensures m * c > 0 && p / (m * c) == q1 && p % (m * c) == r1 * m + r && p == q1 * (m * c) + (r1 * m + r)
    ensures q == q1 * c + r1
  {
    MulSpread(q1, c, r1, m);
    BelowProduct(r1, r, m, c);
    DivModUnique(p, m * c, q1, r1 * m + r);
  }

  lemma TopQuarter(r1: nat, r: nat, m: nat, c: nat)
    requires c >= 2 && r1 == c - 1 && 2 * r >= m && r < m
    ensures 2 * (r1 * m + r) >= 2 * (m * c) - m && 2 * (r1 * m + r) > m * c && r1 * m + r < m * c
  {
    assert r1 * m == m * c - m;
    MulLess(2, c, m);
  }

  lemma NotTop(r1: nat, r: nat, m: nat, c: nat)
    requires c >= 2 && r1 < c && r < m && (r1 < c - 1 || 2 * r < m)
    ensures 2 * (r1 * m + r) < 2 * (m * c) - m && r1 * m + r < m * c
  {
    MulLess(r1 + 1, c, m);
    assert (r1 + 1) * m == r1 * m + m;
    if r1 < c - 1 {
      MulLess(r1 + 2, c, m);
      assert (r1 + 2) * m == r1 * m + 2 * m;
    }
  }

  lemma NearestAbove(p: nat, w: nat, q: nat, r: nat)
    requires w > 0 && p == q * w + r && r < w && 2 * r > w
    ensures Nearest(p, w, q + 1)
  {
    OddMultiples(q, w);
  }

  lemma OddMultiples(q: int, w: int)
    ensures (2 * q - 1) * w == 2 * (q * w) - w && (2 * q + 1) * w == 2 * (q * w) + w
      && (2 * q + 3) * w == 2 * (q * w) + 3 * w
  {
  }

  lemma NearestChoice(p: nat, w: nat, q: nat, r: nat)
    requires w > 0 && p == q * w + r && r < w
    ensures Nearest(p, w, q + if 2 * r < w || (2 * r == w && q % 2 == 0) then 0 else 1)
  {
    OddMultiples(q, w);
  }

  // ---- the whole multiplication -------------------------------------------

  /** How far the packed code falls short of the correctly rounded one. */
  function Shortfall(p: nat, shift: nat, exp: int): nat {
    if exp >= 1 || RoundsOnce(p, Pow2(shift), Pow2(1 - exp)) then 0 else 1
  }

  lemma ProductRounds(p: nat, shift: nat, exp: int, v: nat)
    requires P52 <= p / Pow2(shift) < P53
    requires exp - shift + 1201 >= 0 && v * Pow2(128) == p * Pow2(exp - shift + 1201)
    ensures RoundsTo(v, MIN_EXP, Target(exp, Rounded(p, Pow2(shift))) + Shortfall(p, shift, exp))
  {
    hide Pow2, RoundsTo, Rounded, RoundsOnce;
    if exp >= 1 {
      Rescale(v, p, 128, exp - shift + 1201, shift, exp - 1 + MIN_EXP);
      Pow2Add(exp - 1, MIN_EXP);
      SignificandRounds(p, Pow2(shift), exp, v, MIN_EXP);
    } else {
      SmallProductRounds(p, shift, exp, v);
    }
  }

  lemma SmallProductRounds(p: nat, shift: nat, exp: int, v: nat)
    requires P52 <= p / Pow2(shift) < P53 && exp <= 0
    requires exp - shift + 1201 >= 0 && v * Pow2(128) == p * Pow2(exp - shift + 1201)
    ensures RoundsTo(v, MIN_EXP, Target(exp, Rounded(p, Pow2(shift))) + Shortfall(p, shift, exp))
  {
    hide Pow2, RoundsTo, RoundsOnce, Nearest;
    var m, c := Pow2(shift), Pow2(1 - exp);
    Rescale(v, p, 128, exp - shift + 1201, shift + 1 - exp, MIN_EXP);
    Pow2Add(shift, 1 - exp);
    assert c == 2 * Pow2(0 - exp) by { Pow2Add(1, 0 - exp); Pow2One(); }
    TwiceRounded(p, m, c);
    var u := Quot(Rounded(p, m), c) + Shortfall(p, shift, exp);
    HalfBound(Rounded(p, m), c);
    SubnormalNearest(v, MIN_EXP, p, shift + 1 - exp, u);
  }

  lemma HalfBound(x: nat, c: nat)
    requires c >= 2 && x <= P53
    ensures 0 <= x / c <= P52
  {
    var q := Quot(x, c);
    assert x == q * c + x % c;
    MulLess(2, c, q);
  }

  predicate Nonzero(a: F64) { 0 < Code(a) < INF }

  /** The significand product of two nonzero doubles. */
  function Product(a: F64, b: F64): (p: nat)
    requires Nonzero(a) && Nonzero(b)
    ensures Pow2(104) <= p < Pow2(106) && 104 <= Msb(p) <= 105
  {
    ProductBounds(a, b);
    Times(Unpacked(Code(a)).1, Unpacked(Code(b)).1)
  }

  lemma ProductBounds(a: F64, b: F64)
    requires Nonzero(a) && Nonzero(b)
    ensures var p := Unpacked(Code(a)).1 * Unpacked(Code(b)).1; Pow2(104) <= p < Pow2(106) && 104 <= Msb(p) <= 105
  {
    hide Pow2, Msb, Unpacked, Mag;
    UnpackedValue(Code(a));
    UnpackedValue(Code(b));
    ProductRange(Unpacked(Code(a)).1, Unpacked(Code(b)).1);
    MsbBetween(Unpacked(Code(a)).1 * Unpacked(Code(b)).1, 104, 106);
  }

  lemma ProductShift(p: nat)
    requires Pow2(104) <= p < Pow2(106)
    ensures 52 <= Msb(p) - 52 <= 53 && P52 <= p / Pow2(Msb(p) - 52) < P53
  {
    hide Pow2, Msb;
    MsbBetween(p, 104, 106);
    var m := Msb(p);
    Pow52();
    Pow2Add(52, m - 52);
    Pow2Add(53, m - 52);
    DivBetween(p, P52, P53, Pow2(m - 52));
  }

  lemma DivBetween(p: nat, lo: nat, hi: nat, m: nat)
    requires m > 0 && lo * m <= p < hi * m
    ensures lo <= p / m < hi
  {
    var q := p / m;
    assert p == q * m + p % m;
    Order(lo, q + 1, m);
    Order(q, hi, m);
    assert (q + 1) * m == q * m + m;
  }

  /** The shift that brings its top bit to position 52, and the exponent after it. */
  function Shift(a: F64, b: F64): nat
    requires Nonzero(a) && Nonzero(b)
  {
    Msb(Product(a, b)) - 52
  }

  function FinalExp(a: F64, b: F64): int
    requires Nonzero(a) && Nonzero(b)
  {
    Unpacked(Code(a)).0 + Unpacked(Code(b)).0 - 1023 + Shift(a, b) - 52
  }

  /** The condition on the operands under which the product is rounded once. */
  predicate Precise(a: F64, b: F64)
    requires Nonzero(a) && Nonzero(b)
  {
    FinalExp(a, b) >= 1 || RoundsOnce(Product(a, b), Pow2(Shift(a, b)), Pow2(1 - FinalExp(a, b)))
  }

  lemma ProductScale(a: F64, b: F64, shift: nat, exp: int)
    requires Nonzero(a) && Nonzero(b)
    requires exp == Unpacked(Code(a)).0 + Unpacked(Code(b)).0 - 1023 + shift - 52
    ensures exp - shift + 1201 >= 0
    ensures Mag(Code(a)) * Mag(Code(b)) * Pow2(128) == Product(a, b) * Pow2(exp - shift + 1201)
  {
    hide Pow2, Unpacked, Mag;
    UnpackedStands(Code(a));
    UnpackedStands(Code(b));
    var x, y := Unpacked(Code(a)), Unpacked(Code(b));
    ProductValue(x.1, x.0, Mag(Code(a)), y.1, y.0, Mag(Code(b)));
  }

  method MulNonzero(a: F64, b: F64) returns (r: F64)
    requires Nonzero(a) && Nonzero(b)
    ensures SignOf(r) == (SignOf(a) + SignOf(b)) % 2
    ensures RoundsTo(Mag(Code(a)) * Mag(Code(b)), MIN_EXP, Code(r) + if Precise(a, b) then 0 else 1)
  {
    hide Pow2, Msb, Unpacked, Mag, RoundsTo, RoundsOnce, Target, And;
    var (aExp, aFrac) := Unpacked(Code(a));
    var (bExp, bFrac) := Unpacked(Code(b));
    var product := aFrac * bFrac;
    assert product == Product(a, b);
    ProductShift(product);
    var exp := aExp + bExp - 1023;
    var msb := Msb(product);
    var shift := msb - 52;
    var sticky := And(product, Pow2(shift - 1) - 1) != 0;
    var round := product / Pow2(shift - 1) % 2;
    var frac := product / Pow2(shift);
    BitsDecide(product, shift);
    ghost var e := exp + shift - 52;
    ghost var m := Rounded(product, Pow2(shift));
    if round != 0 && (sticky || frac % 2 != 0) {
      frac := frac + 1;
      if frac == P53 {
        CarryTarget(e);
        frac, exp := P52, exp + 1;
      }
    }
    exp := exp + shift - 52;
    assert Target(exp, frac) == Target(e, m);
    r := Assemble((SignOf(a) + SignOf(b)) % 2, exp, frac);
    ProductScale(a, b, shift, e);
    ProductRounds(product, shift, e, Mag(Code(a)) * Mag(Code(b)));
  }

  lemma BitsDecide(p: nat, shift: nat)
    requires shift >= 1
    ensures p / Pow2(shift - 1) % 2 != 0 && (And(p, Pow2(shift - 1) - 1) != 0 || p / Pow2(shift) % 2 != 0)
      <==> RoundUp(p, Pow2(shift))
  {
    hide And, Pow2;
    AndMask(p, shift - 1);
    Pow2Add(1, shift - 1);
    Pow2One();
    RoundBitDecides(p, Pow2(shift - 1));
  }

  /** r is the IEEE 754 product of a and b, rounded to nearest, ties to even. */
  ghost predicate IsProduct(a: F64, b: F64, r: F64) {
    if IsNan(a) then r == Quiet(a)
    else if IsNan(b) then r == Quiet(b)
    else if (IsInf(a) && IsZero(b)) || (IsZero(a) && IsInf(b)) then r == 0x7FF8_0000_0000_0000
    else
      && SignOf(r) == (SignOf(a) + SignOf(b)) % 2
      && if IsInf(a) || IsInf(b) then IsInf(r) else RoundsTo(Mag(Code(a)) * Mag(Code(b)), MIN_EXP, Code(r))
  }

  /** The product is the correctly rounded one, for NaNs, infinities and zeros too,
      exactly unless a product below the normal range is rounded a second time by
      truncation; then it is the next double towards zero. */
  method MulF64(a: F64, b: F64) returns (r: F64)
    ensures IsProduct(a, b, r) <==> (Nonzero(a) && Nonzero(b) ==> Precise(a, b))
    ensures !IsProduct(a, b, r) ==> r + 1 < P64 && IsProduct(a, b, r + 1)
  {
    hide Pow2, RoundsTo, Mag, Quiet, Precise;
    var sign := (SignOf(a) + SignOf(b)) % 2;
    if IsNan(a) { return Quiet(a); }
    if IsNan(b) { return Quiet(b); }
    if ExpOf(a) == 2047 {
      if ExpOf(b) == 0 && FracOf(b) == 0 { return DEFAULT_NAN; }
      return sign * P63 + INF;
    }
    if ExpOf(b) == 2047 {
      if ExpOf(a) == 0 && FracOf(a) == 0 { return DEFAULT_NAN; }
      return sign * P63 + INF;
    }
    if (ExpOf(a) == 0 && FracOf(a) == 0) || (ExpOf(b) == 0 && FracOf(b) == 0) {
      ZeroProduct(Code(a), Code(b));
      return sign * P63;
    }
    r := MulNonzero(a, b);
    if !Precise(a, b) { NextUp(a, b, r); }
  }

  lemma ZeroProduct(u: nat, w: nat)
    requires u == 0 || w == 0
    ensures RoundsTo(Mag(u) * Mag(w), MIN_EXP, 0)
  {
    hide Pow2;
    MagSmall(0);
    assert Mag(u) * Mag(w) == 0;
    AtMostMag(0, MIN_EXP, 0);
  }

  lemma NextUp(a: F64, b: F64, r: F64)
    requires Nonzero(a) && Nonzero(b) && SignOf(r) == (SignOf(a) + SignOf(b)) % 2
    requires RoundsTo(Mag(Code(a)) * Mag(Code(b)), MIN_EXP, Code(r) + 1)
    ensures Code(r) < INF && r + 1 < P64 && IsProduct(a, b, r + 1) && !IsProduct(a, b, r)
  {
    var v := Mag(Code(a)) * Mag(Code(b));
    hide RoundsTo, Mag, Quiet;
    RoundsToBound(v, Code(r) + 1);
    CodeNext(r);
    OnlyOneRounding(v, Code(r));
  }

  lemma RoundsToBound(v: nat, u: nat)
    requires RoundsTo(v, MIN_EXP, u)
    ensures u <= INF
  {
  }

  lemma CodeNext(r: F64)
    requires Code(r) < INF
    ensures r + 1 < P64 && Code(r + 1) == Code(r) + 1 && SignOf(r + 1) == SignOf(r)
  {
    DivModUnique(r + 1, P63, r / P63, r % P63 + 1);
  }

  lemma OnlyOneRounding(v: nat, u: nat)
    requires RoundsTo(v, MIN_EXP, u + 1)
    ensures !RoundsTo(v, MIN_EXP, u)
  {
    hide RoundsTo;
    if RoundsTo(v, MIN_EXP, u) { RoundsToUnique(v, MIN_EXP, u, u + 1); }
  }

  lemma ProductUnique(a: F64, b: F64, r: F64, q: F64)
    requires IsProduct(a, b, r) && IsProduct(a, b, q)
    ensures r == q
  {
    hide RoundsTo, Mag, Quiet, Pow2;
    if Finite(a) && Finite(b) {
      RoundsToUnique(Mag(Code(a)) * Mag(Code(b)), MIN_EXP, Code(r), Code(q));
    }
  }

  /** Three quarters of the least double: it should round to the least double, and the
      second rounding takes it to zero. */
  lemma LeastTimesThreeQuarters()
    ensures !Precise(1, 0x3FE8_0000_0000_0000)
    ensures IsProduct(1, 0x3FE8_0000_0000_0000, 1)
  {
    var b: F64 := 0x3FE8_0000_0000_0000;
    assert Code(1) == 1 && Code(b) == b && Code(b) / P52 == 1022 && Code(b) % P52 == 0x8_0000_0000_0000;
    assert Unpacked(1) == (-51, P52) by { Pow52(); assert Msb(1) == 0; }
    var f := 0x18_0000_0000_0000;
    assert Unpacked(b) == (1022, f);
    hide Pow2, Msb, Mag, Unpacked;
    ConcreteProduct(f);
    assert Product(1, b) == P52 * f && Shift(1, b) == 52 && FinalExp(1, b) == -52;
    ConcreteRounding(b, f);
  }

  lemma ConcreteProduct(f: nat)
    requires f == 0x18_0000_0000_0000
    ensures P52 * f > 0 && Msb(P52 * f) == 104
    ensures !RoundsOnce(P52 * f, Pow2(52), Pow2(53))
  {
    hide Pow2, Msb;
    Pow52();
    Pow2Add(52, 52);
    Pow2Add(53, 52);
    MsbBetween(P52 * f, 104, 105);
    DivModUnique(P52 * f, P52 * P53, 0, P52 * f);
  }

  lemma ConcreteRounding(b: F64, f: nat)
    requires b == 0x3FE8_0000_0000_0000 && f == 0x18_0000_0000_0000
    ensures IsProduct(1, b, 1)
  {
    hide Pow2;
    assert Mag(b) == f * Pow2(1021) by { DivModUnique(b, P52, 1022, f - P52); }
    MagSmall(1);
    MagSmall(0);
    MagSmall(2);
    Pow52();
    Pow2Add(53, 1021);
    assert Pow2(MIN_EXP) == P53 * Pow2(1021);
  }
}
