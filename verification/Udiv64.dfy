/** The boot loader's 64-bit division helpers for 32-bit code: align the divisor,
    then subtract and shift. */
module Udiv64 {
  import opened Bits

  const B: nat := 0x1_0000_0000_0000_0000

  type Word = x: nat | x < B

  /** The divisor moved up k places, next to its quotient bit. */
  ghost predicate Aligned(d: Word, den: nat, qbit: nat, k: nat) {
    den == d * Pow2(k) && qbit == Pow2(k)
  }

  lemma AlignUp(d: Word, den: nat, qbit: nat, k: nat)
    requires d > 0 && Aligned(d, den, qbit, k) && den < B / 2
    ensures Aligned(d, 2 * den, 2 * qbit, k + 1) && 2 * qbit < B
  {
    assert d * Pow2(k) >= Pow2(k);
  }

  lemma AlignDown(d: Word, den: nat, qbit: nat, k: nat)
    requires Aligned(d, den, qbit, k) && k > 0
    ensures Aligned(d, den / 2, qbit / 2, k - 1) && den / 2 * 2 == den
  {
    assert den == 2 * (d * Pow2(k - 1));
  }

  lemma QuotientStep(n: nat, num: nat, d: nat, quot: nat, den: nat, qbit: nat, k: nat)
    requires n == num + quot * d && den == d * Pow2(k) && qbit == Pow2(k) && den <= num
    ensures n == (num - den) + (quot + qbit) * d
  {
    assert (quot + qbit) * d == quot * d + qbit * d;
  }

  method AlignDivisor(num: Word, d: Word) returns (den: Word, qbit: Word, ghost k: nat)
    requires d > 0
    ensures Aligned(d, den, qbit, k) && num < 2 * den
  {
    den, qbit, k := d, 1, 0;
    while den < B / 2 && den < num
      invariant Aligned(d, den, qbit, k)
      decreases B - den
    {
      AlignUp(d, den, qbit, k);
      den, qbit, k := 2 * den, 2 * qbit, k + 1;
    }
  }

  /** Quotient; a zero divisor gives zero. */
  method UDiv(n: Word, d: Word) returns (quot: Word)
    ensures d == 0 ==> quot == 0
    ensures d > 0 ==> quot == n / d
  {
    quot := 0;
    if d == 0 { return; }
    var num: Word := n;
    ghost var k: nat;
    var den: Word, qbit: Word;
    den, qbit, k := AlignDivisor(num, d);
    while qbit != 0
      invariant n == num + quot * d && quot <= n
      invariant if qbit != 0 then Aligned(d, den, qbit, k) && num < 2 * den else num < d
      decreases qbit
    {
      if den <= num {
        QuotientStep(n, num, d, quot, den, qbit, k);
        NoMore(quot + qbit, d, n);
        num, quot := num - den, quot + qbit;
      }
      if k > 0 { AlignDown(d, den, qbit, k); } else { assert Pow2(0) == 1; }
      den, qbit := den / 2, qbit / 2;
      k := if k > 0 then k - 1 else 0;
    }
    DivisionLaw(n, d, quot, num);
  }

  lemma NoMore(q: nat, d: nat, n: nat)
    requires d > 0 && q * d <= n
    ensures q <= n
  {
    assert q * d >= q;
  }

  /** Remainder; a zero divisor gives zero. */
  method UMod(n: Word, d: Word) returns (num: Word)
    ensures d == 0 ==> num == 0
    ensures d > 0 ==> num == n % d
  {
    if d == 0 { return 0; }
    num := n;
    ghost var k: nat;
    var den: Word, qbit: Word;
    den, qbit, k := AlignDivisor(num, d);
    ghost var quot: nat := 0;
    while qbit != 0
      invariant n == num + quot * d
      invariant if qbit != 0 then Aligned(d, den, qbit, k) && num < 2 * den else num < d
      decreases qbit
    {
      if den <= num {
        QuotientStep(n, num, d, quot, den, qbit, k);
        num, quot := num - den, quot + qbit;
      }
      if k > 0 { AlignDown(d, den, qbit, k); } else { assert Pow2(0) == 1; }
      den, qbit := den / 2, qbit / 2;
      k := if k > 0 then k - 1 else 0;
    }
    DivisionLaw(n, d, quot, num);
  }

  lemma DivisionLaw(n: nat, d: nat, q: nat, r: nat)
    requires d > 0 && n == q * d + r && r < d
    ensures q == n / d && r == n % d
  {
    DivModUnique(n, d, q, r);
  }
}
