/** Shifting right with a sticky bit: the lowest bit of the result is forced to one
    when anything was shifted out.  That is rounding to odd, and it loses nothing
    later rounding needs. */
module Sticky {
  import opened Bits

  function JamBy(x: nat, m: nat): nat
    requires m > 0
  {
    if x % m == 0 || x / m % 2 == 1 then x / m else x / m + 1
  }

  /** Comparisons with multiples of g survive. */
  ghost predicate Tracks(r: nat, n: nat, m: nat, g: nat)
    requires m > 0
  {
    forall c: nat {:trigger Bar(g, c)} ::
      (r < Bar(g, c) <==> n < Bar(g, c) * m) && (r == Bar(g, c) <==> n == Bar(g, c) * m)
  }

  function Bar(g: nat, c: nat): nat { g * c }

  lemma JamTracks(n: nat, m: nat)
    requires m > 0
    ensures Tracks(JamBy(n, m), n, m, 2)
  {
    forall c: nat
      ensures JamBy(n, m) < Bar(2, c) <==> n < Bar(2, c) * m
      ensures JamBy(n, m) == Bar(2, c) <==> n == Bar(2, c) * m
    {
      JamCompares(n, m, Bar(2, c), c);
    }
  }

  lemma JamCompares(n: nat, m: nat, b: nat, c: nat)
    requires m > 0 && b == 2 * c
    ensures JamBy(n, m) < b <==> n < b * m
    ensures JamBy(n, m) == b <==> n == b * m
  {
    var q, r := n / m, n % m;
    assert n == q * m + r;
    Order(q, b, m);
    Order(q + 1, b, m);
    assert (q + 1) * m == q * m + m;
  }

  lemma Order(x: int, y: int, m: nat)
    requires m > 0
    ensures x * m < y * m <==> x < y
    ensures x * m == y * m <==> x == y
  {
  }

  lemma TracksCoarser(r: nat, n: nat, m: nat)
    requires m > 0 && Tracks(r, n, m, 2)
    ensures Tracks(r, n, m, 4)
  {
    forall c: nat
      ensures r < Bar(4, c) <==> n < Bar(4, c) * m
      ensures r == Bar(4, c) <==> n == Bar(4, c) * m
    {
      assert Bar(4, c) == Bar(2, 2 * c);
    }
  }

  lemma TracksDoubled(r: nat, n: nat, m: nat)
    requires m > 0 && Tracks(r, n, 2 * m, 2)
    ensures Tracks(2 * r, n, m, 4)
  {
    forall c: nat
      ensures 2 * r < Bar(4, c) <==> n < Bar(4, c) * m
      ensures 2 * r == Bar(4, c) <==> n == Bar(4, c) * m
    {
      assert Bar(4, c) == 2 * Bar(2, c);
      assert Bar(4, c) * m == Bar(2, c) * (2 * m);
    }
  }

  lemma ExactTracks(r: nat, n: nat, m: nat)
    requires m > 0 && n == r * m
    ensures Tracks(r, n, m, 4)
  {
    forall c: nat
      ensures r < Bar(4, c) <==> n < Bar(4, c) * m
      ensures r == Bar(4, c) <==> n == Bar(4, c) * m
    {
      Order(r, Bar(4, c), m);
    }
  }

  // ---- sums, differences, scaling -----------------------------------------

  lemma JamSum(a: nat, b: nat, m: nat)
    requires m > 0 && a % 2 == 0
    ensures a + JamBy(b, m) == JamBy(a * m + b, m)
  {
    var q, r := b / m, b % m;
    assert (a + q) * m + r == a * m + b;
    DivModUnique(a * m + b, m, a + q, r);
  }

  lemma JamDifference(a: nat, b: nat, m: nat)
    requires m > 0 && a % 2 == 0 && b <= a * m
    ensures JamBy(b, m) <= a && a - JamBy(b, m) == JamBy(a * m - b, m)
  {
    var q, r := Quot(b, m), b % m;
    Complement(a, b, m, q, r);
  }

  /** Quotient and remainder of a * m - b. */
  lemma Complement(a: nat, b: nat, m: nat, q: nat, r: nat)
    requires m > 0 && b <= a * m && b == q * m + r && r < m
    ensures if r == 0 then q <= a && (a * m - b) / m == a - q && (a * m - b) % m == 0
      else q + 1 <= a && (a * m - b) / m == a - q - 1 && (a * m - b) % m == m - r
  {
    MinusMultiple(a, q, m);
    Order(q, a, m);
    if r == 0 {
      DivModUnique(a * m - b, m, a - q, 0);
    } else {
      Order(q + 1, a + 1, m);
      Order(q, a, m);
      DivModUnique(a * m - b, m, a - q - 1, m - r);
    }
  }

  lemma MinusMultiple(a: int, q: int, m: int)
    ensures (a - q) * m == a * m - q * m && (a - q - 1) * m == a * m - q * m - m && (q + 1) * m == q * m + m
  {
  }

  lemma JamScaled(x: nat, m: nat, t: nat)
    requires m > 0 && t > 0
    ensures t * m > 0 && JamBy(x * t, t * m) == JamBy(x, m)
  {
    var q, r := x / m, x % m;
    assert x * t == q * (t * m) + r * t;
    assert r * t < t * m;
    DivModUnique(x * t, t * m, q, r * t);
  }

  lemma JamTwice(x: nat, m: nat, k: nat)
    requires m > 0 && k > 0 && k % 2 == 0
    ensures m * k > 0 && JamBy(JamBy(x, m), k) == JamBy(x, m * k)
  {
    var q, r := x / m, x % m;
    var q1, r1 := q / k, q % k;
    DivTwice(x, m, k, q, r, q1, r1);
    EvenMultiple(q1, k);
    Parity(q, q1 * k, r1);
    var j := JamBy(x, m);
    if j == q + 1 {
      DivModUnique(j, k, q1, r1 + 1);
    }
  }

  lemma Parity(q: nat, e: nat, r: nat)
    requires q == e + r && e % 2 == 0
    ensures q % 2 == r % 2
  {
  }

  lemma DivTwice(x: nat, m: nat, k: nat, q: nat, r: nat, q1: nat, r1: nat)
    requires m > 0 && k > 0
    requires q == x / m && r == x % m && q1 == q / k && r1 == q % k
    ensures m * k > 0 && x / (m * k) == q1
    ensures x % (m * k) == 0 <==> r1 == 0 && r == 0
    ensures q == q1 * k + r1
  {
    MulSpread(q1, k, r1, m);
    BelowProduct(r1, r, m, k);
    DivModUnique(x, m * k, q1, r1 * m + r);
  }

  lemma EvenMultiple(q: nat, k: nat)
    requires k % 2 == 0
    ensures q * k % 2 == 0
  {
    assert q * k == 2 * (q * (k / 2));
  }
}
