/** Machine words as natural numbers: powers of two, single bits, and the
    bitwise operators defined bit by bit, with the facts that turn masks,
    shifts and disjoint ORs into division, remainder and addition. */
module Bits {

  function Pow2(n: nat): (p: nat)
    ensures p >= 1
  {
    if n == 0 then 1 else 2 * Pow2(n - 1)
  }

  lemma {:induction false} Pow2Add(a: nat, b: nat)
    ensures Pow2(a + b) == Pow2(a) * Pow2(b)
  {
    if a > 0 {
      Pow2Add(a - 1, b);
      assert Pow2(a + b) == 2 * Pow2(a - 1 + b);
    }
  }

  lemma {:induction false} Pow2Mono(a: nat, b: nat)
    requires a <= b
    ensures Pow2(a) <= Pow2(b)
  {
    if a < b { Pow2Mono(a, b - 1); }
  }

  lemma Pow2Zero()
    ensures Pow2(0) == 1
  {
  }

  lemma Pow2One()
    ensures Pow2(1) == 2
  {
  }

  lemma Pow2Values()
    ensures Pow2(8) == 0x100 && Pow2(16) == 0x1_0000 && Pow2(32) == 0x1_0000_0000
    ensures Pow2(63) == 0x8000_0000_0000_0000 && Pow2(64) == 0x1_0000_0000_0000_0000
  {
    Pow2Eight();
    hide Pow2;
    Pow2Add(8, 8);
    Pow2Add(16, 16);
    Pow2Add(32, 32);
    Pow2Add(1, 63);
    Pow2One();
  }

  lemma Pow2Eight()
    ensures Pow2(4) == 16 && Pow2(8) == 0x100
  {
    assert Pow2(4) == 16;
    Pow2Add(4, 4);
  }

  predicate Bit(x: nat, i: nat) {
    if i == 0 then x % 2 == 1 else Bit(x / 2, i - 1)
  }

  function BitVal(b: bool): (v: nat)
    ensures v <= 1
  {
    if b then 1 else 0
  }

  function And(x: nat, y: nat): nat {
    if x == 0 || y == 0 then 0
    else BitVal(x % 2 == 1 && y % 2 == 1) + 2 * And(x / 2, y / 2)
  }

  function Or(x: nat, y: nat): nat {
    if x == 0 then y else if y == 0 then x
    else BitVal(x % 2 == 1 || y % 2 == 1) + 2 * Or(x / 2, y / 2)
  }

  function Xor(x: nat, y: nat): nat {
    if x == 0 then y else if y == 0 then x
    else BitVal((x % 2 == 1) != (y % 2 == 1)) + 2 * Xor(x / 2, y / 2)
  }

  // ---- single bits -------------------------------------------------------

  lemma {:induction false} BitZero(i: nat)
    ensures !Bit(0, i)
  {
    if i > 0 { BitZero(i - 1); }
  }

  lemma {:induction false} BitAnd(x: nat, y: nat, i: nat)
    ensures Bit(And(x, y), i) <==> Bit(x, i) && Bit(y, i)
    decreases i
  {
    if x == 0 || y == 0 {
      BitZero(i);
    } else if i > 0 {
      var z := And(x / 2, y / 2);
      assert And(x, y) == BitVal(x % 2 == 1 && y % 2 == 1) + 2 * z;
      hide And;
      BitAnd(x / 2, y / 2, i - 1);
      assert And(x, y) / 2 == z;
    }
  }

  lemma {:induction false} BitOr(x: nat, y: nat, i: nat)
    ensures Bit(Or(x, y), i) <==> Bit(x, i) || Bit(y, i)
    decreases i
  {
    if x == 0 || y == 0 {
      BitZero(i);
    } else if i > 0 {
      var z := Or(x / 2, y / 2);
      assert Or(x, y) == BitVal(x % 2 == 1 || y % 2 == 1) + 2 * z;
      hide Or;
      BitOr(x / 2, y / 2, i - 1);
      assert Or(x, y) / 2 == z;
    }
  }

  lemma {:induction false} BitXor(x: nat, y: nat, i: nat)
    ensures Bit(Xor(x, y), i) <==> (Bit(x, i) != Bit(y, i))
    decreases i
  {
    if x == 0 || y == 0 {
      BitZero(i);
    } else if i > 0 {
      var z := Xor(x / 2, y / 2);
      assert Xor(x, y) == BitVal((x % 2 == 1) != (y % 2 == 1)) + 2 * z;
      hide Xor;
      BitXor(x / 2, y / 2, i - 1);
      assert Xor(x, y) / 2 == z;
    }
  }

  lemma {:induction false} BitPow2(k: nat, i: nat)
    ensures Bit(Pow2(k), i) <==> i == k
  {
    if k == 0 {
      if i > 0 { BitZero(i - 1); }
    } else if i > 0 {
      BitPow2(k - 1, i - 1);
    }
  }

  // Complement within a width of w bits.
  function Not(x: nat, w: nat): nat
    requires x < Pow2(w)
  {
    Pow2(w) - 1 - x
  }

  lemma {:induction false} BitNot(x: nat, w: nat, i: nat)
    requires x < Pow2(w) && i < w
    ensures Bit(Not(x, w), i) <==> !Bit(x, i)
  {
    assert x / 2 < Pow2(w - 1);
    assert Not(x, w) == 2 * Not(x / 2, w - 1) + (1 - x % 2);
    if i > 0 { BitNot(x / 2, w - 1, i - 1); }
  }

  // ---- masks and disjoint ORs --------------------------------------------

  lemma AndZero(x: nat)
    ensures And(0, x) == 0 && And(x, 0) == 0
  {
  }

  lemma {:induction false} AndMask(x: nat, k: nat)
    ensures And(x, Pow2(k) - 1) == x % Pow2(k)
  {
    hide And;
    if x == 0 {
      AndZero(Pow2(k) - 1);
      DivModUnique(0, Pow2(k), 0, 0);
    } else if k == 0 {
      AndZero(x);
    } else {
      var p := Pow2(k - 1);
      assert Pow2(k) == 2 * p;
      hide Pow2;
      AndMask(x / 2, k - 1);
      ModDouble(x, p);
      AndOddMask(x, p);
    }
  }

  lemma AndOddMask(x: nat, p: nat)
    requires x > 0 && p > 0
    ensures And(x, 2 * p - 1) == x % 2 + 2 * And(x / 2, p - 1)
  {
    assert (2 * p - 1) / 2 == p - 1;
  }

  lemma ModDouble(x: nat, m: nat)
    requires m > 0
    ensures x % (2 * m) == 2 * ((x / 2) % m) + x % 2
  {
    var q, r := (x / 2) / m, (x / 2) % m;
    assert x / 2 == q * m + r;
    var t := 2 * r + x % 2;
    assert x == q * (2 * m) + t;
    DivModUnique(x, 2 * m, q, t);
  }

  lemma DivModUnique(x: int, m: int, q: int, r: int)
    requires m > 0 && x == q * m + r && 0 <= r < m
    ensures x / m == q && x % m == r
  {
    var q', r' := x / m, x % m;
    assert (q - q') * m == r' - r;
    MulAwayFromZero(q - q', m);
  }

  lemma MulAwayFromZero(k: int, m: int)
    requires m > 0
    ensures k >= 1 ==> k * m >= m
    ensures k <= -1 ==> k * m <= -m
  {
  }

  lemma {:induction false} OrDisjoint(x: nat, y: nat, k: nat)
    requires x % Pow2(k) == 0 && y < Pow2(k)
    ensures Or(x, y) == x + y
  {
    if x == 0 || y == 0 {
    } else {
      ModDouble(x, Pow2(k - 1));
      OrDisjoint(x / 2, y / 2, k - 1);
    }
  }

  lemma MulSpread(q: int, c: int, r: int, m: int)
    ensures (q * c + r) * m == q * (m * c) + r * m
  {
    assert (q * c + r) * m == q * c * m + r * m;
    assert q * c * m == q * (m * c);
  }

  lemma BelowProduct(q: nat, r: nat, m: nat, c: nat)
    requires q < c && r < m
    ensures q * m + r < m * c
  {
    assert q * m <= (c - 1) * m;
    assert (c - 1) * m + m == m * c;
  }

  lemma DivModCompose(x: nat, m: nat, c: nat)
    requires m > 0 && c > 0
    ensures m * c > 0 && x % (m * c) == x / m % c * m + x % m
  {
    var q, r := x / m, x % m;
    var q1, r1 := q / c, q % c;
    MulSpread(q1, c, r1, m);
    BelowProduct(r1, r, m, c);
    DivModUnique(x, m * c, q1, r1 * m + r);
  }

  /** Low a + c bits as the c bits above position a and the a bits below it. */
  lemma ModSplit(x: nat, a: nat, c: nat)
    ensures x % Pow2(a + c) == x / Pow2(a) % Pow2(c) * Pow2(a) + x % Pow2(a)
  {
    hide Pow2;
    Pow2Add(a, c);
    DivModCompose(x, Pow2(a), Pow2(c));
  }

  lemma {:induction false} OrBound(x: nat, y: nat, k: nat)
    requires x < Pow2(k) && y < Pow2(k)
    ensures Or(x, y) < Pow2(k)
  {
    if k > 0 && x > 0 && y > 0 { OrBound(x / 2, y / 2, k - 1); }
  }

  lemma {:induction false} AndBound(x: nat, y: nat)
    ensures And(x, y) <= x
  {
    if x > 0 && y > 0 { AndBound(x / 2, y / 2); }
  }

  lemma {:induction false} Pow2Less(a: nat, b: nat)
    requires a < b
    ensures Pow2(a) < Pow2(b)
  {
    if a + 1 < b { Pow2Less(a, b - 1); }
  }

  lemma {:induction false} OrSymmetric(x: nat, y: nat)
    ensures Or(x, y) == Or(y, x)
  {
    if x > 0 && y > 0 { OrSymmetric(x / 2, y / 2); }
  }

  lemma MulDivExact(q: int, m: int)
    requires m > 0
    ensures q * m / m == q && q * m % m == 0
  {
    DivModUnique(q * m, m, q, 0);
  }

  /** Setting and flipping one bit, as arithmetic. */
  lemma {:induction false} OrXorPow2(x: nat, k: nat)
    ensures Or(x, Pow2(k)) == if x / Pow2(k) % 2 == 1 then x else x + Pow2(k)
    ensures Xor(x, Pow2(k)) == if x / Pow2(k) % 2 == 1 then x - Pow2(k) else x + Pow2(k)
  {
    if x == 0 {
      DivModUnique(0, Pow2(k), 0, 0);
    } else if k > 0 {
      OrXorPow2(x / 2, k - 1);
      HalveBoth(x, Pow2(k - 1));
      OrXorDouble(x, Pow2(k - 1));
    }
  }

  lemma OrXorDouble(x: nat, p: nat)
    requires x > 0 && p > 0
    ensures Or(x, 2 * p) == x % 2 + 2 * Or(x / 2, p) && Xor(x, 2 * p) == x % 2 + 2 * Xor(x / 2, p)
  {
  }

  lemma HalveBoth(x: nat, p: nat)
    requires p > 0
    ensures x / 2 / p == x / (2 * p)
  {
    var h := x / 2;
    assert h == h / p * p + h % p;
    DivModUnique(x, 2 * p, h / p, 2 * (h % p) + x % 2);
  }

  /** A product of naturals is a natural. */
  function Times(x: nat, y: nat): (r: nat)
    ensures r == x * y
  {
    x * y
  }

  /** Quotients of naturals are naturals, no larger than the dividend. */
  function Quot(x: nat, m: nat): (q: nat)
    requires m > 0
    ensures q == x / m && q <= x
  {
    QuotientBound(x, x / m, m, x % m);
    x / m
  }

  lemma QuotientBound(x: nat, q: int, m: nat, r: nat)
    requires x == q * m + r && r < m
    ensures 0 <= q <= x
  {
    MulSigns(q, m);
  }

  lemma MulSigns(q: int, p: nat)
    requires p > 0
    ensures if q >= 0 then q * p >= q else q * p <= 0 - p
  {
    if q >= 0 { MulMonotone(1, p, q); } else { MulMonotone(1, 0 - q, p); }
  }

  lemma MulMonotone(x: nat, y: nat, p: nat)
    requires x <= y
    ensures x * p <= y * p
  {
  }

  lemma PowerDivides(a: nat, b: nat)
    requires a <= b
    ensures Pow2(b) % Pow2(a) == 0
  {
    hide Pow2;
    Pow2Add(a, b - a);
    DivModUnique(Pow2(b), Pow2(a), Pow2(b - a), 0);
  }

  lemma Multiple(x: nat, a: nat, b: nat)
    requires a > 0 && b > 0 && x % a == 0 && a % b == 0
    ensures x % b == 0
  {
    var q, r := x / a, a / b;
    assert x == q * a && a == r * b;
    assert x == (q * r) * b;
    DivModUnique(x, b, q * r, 0);
  }
}
