/** IEEE 754 double precision as integers.  A finite magnitude is an integer
    multiple of 2^-1074, so Mag gives it as that integer; magnitude codes (the bit
    pattern without its sign) are ordered like the magnitudes they stand for. */
module FloatSpec {
  import opened Bits

  const P52: nat := 0x10_0000_0000_0000
  const P53: nat := 0x20_0000_0000_0000
  const P63: nat := 0x8000_0000_0000_0000
  const P64: nat := 0x1_0000_0000_0000_0000
  const INF: nat := 2047 * P52

  type F64 = x: nat | x < P64

  function SignOf(x: F64): nat { x / P63 }
  function Code(x: F64): nat { x % P63 }
  function ExpOf(x: F64): nat { Code(x) / P52 }
  function FracOf(x: F64): nat { x % P52 }

  predicate IsNan(x: F64) { Code(x) > INF }
  predicate IsInf(x: F64) { Code(x) == INF }
  predicate Finite(x: F64) { Code(x) < INF }
  predicate IsZero(x: F64) { Code(x) == 0 }

  /** The magnitude of a code, in units of 2^-1074.  At INF it continues past the
      largest finite magnitude, which is where overflow is decided. */
  function Mag(u: nat): nat {
    var e, f := u / P52, u % P52;
    if e == 0 then f else (P52 + f) * Pow2(e - 1)
  }

  function Val(x: F64): int { if SignOf(x) == 0 then Mag(Code(x)) else 0 - Mag(Code(x)) }

  lemma MagNormal(e: nat, m: nat)
    requires e >= 1 && P52 <= m <= P53
    ensures Mag((e - 1) * P52 + m) == m * Pow2(e - 1)
  {
    if m < P53 {
      DivModUnique((e - 1) * P52 + m, P52, e, m - P52);
    } else {
      DivModUnique((e - 1) * P52 + m, P52, e + 1, 0);
      assert Pow2(e) == 2 * Pow2(e - 1);
    }
  }

  lemma MagSmall(u: nat)
    requires u <= P52
    ensures Mag(u) == u
  {
    assert Pow2(0) == 1;
  }

  lemma MagStep(u: nat)
    ensures Mag(u) < Mag(u + 1)
  {
    var e, f := u / P52, u % P52;
    if u < P52 {
      MagSmall(u);
      MagSmall(u + 1);
    } else {
      MagNormal(e, P52 + f);
      MagNormal(e, P52 + f + 1);
      assert u == (e - 1) * P52 + (P52 + f);
      assert (P52 + f + 1) * Pow2(e - 1) == (P52 + f) * Pow2(e - 1) + Pow2(e - 1);
    }
  }

  lemma {:induction false} MagMono(u: nat, v: nat)
    requires u <= v
    ensures Mag(u) <= Mag(v) && (u < v ==> Mag(u) < Mag(v))
    decreases v - u
  {
    if u < v {
      MagMono(u, v - 1);
      MagStep(v - 1);
    }
  }

  // ---- correct rounding ---------------------------------------------------

  /** u is the code of n / 2^k rounded to nearest, ties to even: n / 2^k lies
      between the midpoints around u, on one of them only if u is even. */
  ghost predicate RoundsTo(n: nat, k: nat, u: nat) {
    && u <= INF
    && (u > 0 ==> Above(n, k, u))
    && (u < INF ==> Below(n, k, u))
  }

  ghost predicate Above(n: nat, k: nat, u: nat)
    requires u > 0
  {
    var mid := (Mag(u - 1) + Mag(u)) * Pow2(k);
    2 * n > mid || (2 * n == mid && u % 2 == 0)
  }

  ghost predicate Below(n: nat, k: nat, u: nat) {
    var mid := (Mag(u) + Mag(u + 1)) * Pow2(k);
    2 * n < mid || (2 * n == mid && u % 2 == 0)
  }

  function Distance(x: nat, y: nat): nat { if x >= y then x - y else y - x }

  /** What correct rounding means: no finite double is nearer, and another one is
      equally near only when the chosen one is even. */
  lemma RoundsToNearest(n: nat, k: nat, u: nat, z: nat)
    requires RoundsTo(n, k, u) && u < INF && z < INF
    ensures Distance(Mag(u) * Pow2(k), n) <= Distance(Mag(z) * Pow2(k), n)
    ensures z != u && Distance(Mag(u) * Pow2(k), n) == Distance(Mag(z) * Pow2(k), n) ==> u % 2 == 0
  {
    hide Mag, Pow2;
    var p := Pow2(k);
    if z < u {
      MagMono(z, u - 1);
      MagStep(u - 1);
      Scale(Mag(z), Mag(u - 1), p);
      Scale(Mag(u - 1), Mag(u), p);
      MulLessStrict(Mag(z), Mag(u), p);
      Nearer(n, Mag(z) * p, Mag(u - 1) * p, Mag(u) * p);
    } else if z > u {
      MagMono(u + 1, z);
      MagStep(u);
      Scale(Mag(u + 1), Mag(z), p);
      Scale(Mag(u), Mag(u + 1), p);
      MulLessStrict(Mag(u), Mag(z), p);
      Nearer(n, Mag(u) * p, Mag(u + 1) * p, Mag(z) * p);
    }
  }

  /** Against the midpoint of the outer two of a <= b <= c and its neighbour. */
  lemma Nearer(n: nat, a: nat, b: nat, c: nat)
    requires a <= b <= c && a < c
    ensures 2 * n >= b + c ==> Distance(c, n) <= Distance(a, n)
    ensures 2 * n > b + c ==> Distance(c, n) < Distance(a, n)
    ensures 2 * n <= a + b ==> Distance(a, n) <= Distance(c, n)
    ensures 2 * n < a + b ==> Distance(a, n) < Distance(c, n)
  {
  }

  lemma Scale(x: nat, y: nat, p: nat)
    requires x <= y
    ensures x * p <= y * p && (x + y) * p == x * p + y * p
  {
  }

  /** Rounding is a function: a number rounds to one code only. */
  lemma RoundsToUnique(n: nat, k: nat, u: nat, v: nat)
    requires RoundsTo(n, k, u) && RoundsTo(n, k, v)
    ensures u == v
  {
    if u < v { RoundsToOrder(n, k, u, v); }
    if v < u { RoundsToOrder(n, k, v, u); }
  }

  lemma RoundsToOrder(n: nat, k: nat, u: nat, v: nat)
    requires u < v
    ensures !(Below(n, k, u) && Above(n, k, v))
  {
    hide Mag, Pow2;
    MagMono(u, v - 1);
    MagMono(u + 1, v);
    MulLess(Mag(u) + Mag(u + 1), Mag(v - 1) + Mag(v), Pow2(k));
    if u + 1 < v { MulLessStrict(Mag(u) + Mag(u + 1), Mag(v - 1) + Mag(v), Pow2(k)); }
  }

  lemma MulLess(x: nat, y: nat, p: nat)
    requires x <= y
    ensures x * p <= y * p
  {
  }

  lemma MulLessStrict(x: nat, y: nat, p: nat)
    requires x < y && p > 0
    ensures x * p < y * p
  {
  }

  /** Overflow: past the midpoint above the largest finite double, and only then. */
  lemma OverflowThreshold(n: nat, k: nat)
    ensures RoundsTo(n, k, INF) <==> n >= (2 * P53 - 1) * Pow2(2044) * Pow2(k)
  {
    hide Pow2;
    MagNormal(2046, P53);
    MagNormal(2046, P53 - 1);
    Pow2Add(2044, 1);
    Pow2One();
    var p, q := Pow2(2044), Pow2(k);
    assert Mag(INF) == P53 * (2 * p) && Mag(INF - 1) == (P53 - 1) * (2 * p);
    hide Mag;
    assert Mag(INF - 1) + Mag(INF) == 2 * ((2 * P53 - 1) * p);
    TwoOut((2 * P53 - 1) * p, q);
  }

  lemma TwoOut(x: int, q: int)
    ensures 2 * x * q == 2 * (x * q)
  {
  }

  // ---- rounding a significand ---------------------------------------------

  /** n / m to the nearest integer, halves to even. */
  predicate RoundUp(n: nat, m: nat)
    requires m > 0
  {
    2 * (n % m) > m || (2 * (n % m) == m && n / m % 2 == 1)
  }

  function Rounded(n: nat, m: nat): nat
    requires m > 0
  {
    n / m + if RoundUp(n, m) then 1 else 0
  }

  /** The code of significand m (53 bits, or 2^53 after a carry) at exponent e. */
  function CodeOf(e: nat, m: nat): nat
    requires e >= 1
  {
    if (e - 1) * P52 + m >= INF then INF else (e - 1) * P52 + m
  }

  lemma AtLeastMag(v: nat, k: nat, u: nat, w: nat)
    requires 0 < u <= w && v >= Mag(w) * Pow2(k)
    ensures Above(v, k, u)
  {
    hide Mag, Pow2;
    MagMono(u, w);
    MagStep(u - 1);
    MulLess(Mag(u), Mag(w), Pow2(k));
    MulLessStrict(Mag(u - 1), Mag(u), Pow2(k));
    Scale(Mag(u - 1), Mag(u), Pow2(k));
  }

  lemma AtMostMag(v: nat, k: nat, u: nat)
    requires v <= Mag(u) * Pow2(k)
    ensures Below(v, k, u)
  {
    hide Mag, Pow2;
    MagStep(u);
    MulLessStrict(Mag(u), Mag(u + 1), Pow2(k));
    Scale(Mag(u), Mag(u + 1), Pow2(k));
  }

  /** n scaled by 2^(e - 1) / m rounds to the code its top 53 bits give. */
  lemma SignificandRounds(n: nat, m: nat, e: nat, v: nat, k: nat)
    requires m > 0 && e >= 1 && P52 <= n / m < P53 && v * m == n * (Pow2(e - 1) * Pow2(k))
    ensures RoundsTo(v, k, CodeOf(e, Rounded(n, m)))
  {
    hide Mag, Pow2, Above, Below;
    var q, r, s := n / m, n % m, Pow2(e - 1) * Pow2(k);
    var u := (e - 1) * P52 + q;
    Between(n, q, r, m, s, v);
    MagNormal(e, q);
    MagNormal(e, q + 1);
    Products(q, Pow2(e - 1), Pow2(k));
    AtLeastMag(v, k, if u < INF then u else INF, u);
    if RoundUp(n, m) {
      HalfwayUp(v, k, u, q, s, e);
      AtMostMag(v, k, u + 1);
    } else {
      HalfwayDown(v, k, u, q, s, e);
    }
  }

  lemma Products(q: nat, a: nat, b: nat)
    ensures q * (a * b) == q * a * b && (q + 1) * (a * b) == (q + 1) * a * b
    ensures (q * a + (q + 1) * a) * b == (2 * q + 1) * (a * b)
  {
    assert q * a + (q + 1) * a == (2 * q + 1) * a;
  }

  lemma HalfwayUp(v: nat, k: nat, u: nat, q: nat, s: nat, e: nat)
    requires e >= 1 && u == (e - 1) * P52 + q && (Mag(u) + Mag(u + 1)) * Pow2(k) == (2 * q + 1) * s
    requires 2 * v > (2 * q + 1) * s || (2 * v == (2 * q + 1) * s && q % 2 == 1)
    ensures Above(v, k, u + 1)
  {
    hide Mag, Pow2;
    CodeParity(e, q);
  }

  lemma HalfwayDown(v: nat, k: nat, u: nat, q: nat, s: nat, e: nat)
    requires e >= 1 && u == (e - 1) * P52 + q && (Mag(u) + Mag(u + 1)) * Pow2(k) == (2 * q + 1) * s
    requires 2 * v < (2 * q + 1) * s || (2 * v == (2 * q + 1) * s && q % 2 == 0)
    ensures Below(v, k, u)
  {
    hide Mag, Pow2;
    CodeParity(e, q);
  }

  lemma CodeParity(e: nat, q: nat)
    requires e >= 1
    ensures ((e - 1) * P52 + q) % 2 == q % 2
  {
    assert (e - 1) * P52 == 2 * ((e - 1) * (P52 / 2));
  }

  lemma Between(n: nat, q: nat, r: nat, m: nat, s: nat, v: nat)
    requires m > 0 && s > 0 && n == q * m + r && r < m && v * m == n * s
    ensures q * s <= v < (q + 1) * s
    ensures 2 * v < (2 * q + 1) * s <==> 2 * r < m
    ensures 2 * v == (2 * q + 1) * s <==> 2 * r == m
  {
    BetweenScaled(n, q, r, m, s, v);
    BetweenUnscaled(q * s, v, (q + 1) * s, (2 * q + 1) * s, m, r, s);
  }

  lemma BetweenScaled(n: nat, q: nat, r: nat, m: nat, s: nat, v: nat)
    requires m > 0 && s > 0 && n == q * m + r && r < m && v * m == n * s
    ensures q * s * m <= v * m < (q + 1) * s * m
    ensures 2 * (v * m) < (2 * q + 1) * s * m <==> 2 * r < m
    ensures 2 * (v * m) == (2 * q + 1) * s * m <==> 2 * r == m
  {
    Expand(q, r, m, s);
    Compare(r, m, s);
    Compare(2 * r, m, s);
    BetweenAt(v * m, q * s * m, r * s, m * s);
  }

  lemma BetweenUnscaled(lo: nat, v: nat, hi: nat, mid: nat, m: nat, r: nat, s: nat)
    requires m > 0 && lo * m <= v * m < hi * m
    requires 2 * (v * m) < mid * m <==> 2 * r < m
    requires 2 * (v * m) == mid * m <==> 2 * r == m
    ensures lo <= v < hi
    ensures 2 * v < mid <==> 2 * r < m
    ensures 2 * v == mid <==> 2 * r == m
  {
    Compare(v, lo, m);
    Compare(v, hi, m);
    Compare(2 * v, mid, m);
  }

  lemma BetweenAt(x: nat, base: nat, y: nat, z: nat)
    requires x == base + y && y < z
    ensures base <= x < base + z
    ensures 2 * x < 2 * base + z <==> 2 * y < z
    ensures 2 * x == 2 * base + z <==> 2 * y == z
  {
  }

  lemma Expand(q: nat, r: nat, m: nat, s: nat)
    ensures (q * m + r) * s == q * s * m + r * s
    ensures (q + 1) * s * m == q * s * m + m * s
    ensures (2 * q + 1) * s * m == 2 * (q * s * m) + m * s
  {
    assert q * m * s == q * s * m;
    assert (q + 1) * s == q * s + s;
    assert (2 * q + 1) * s == 2 * (q * s) + s;
  }

  lemma Compare(x: nat, y: nat, m: nat)
    requires m > 0
    ensures x * m < y * m <==> x < y
    ensures x * m == y * m <==> x == y
  {
  }
}
