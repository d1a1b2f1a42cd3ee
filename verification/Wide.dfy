/** 128-bit integers as two 64-bit words: the compiler runtime's arithmetic, each
    routine shown to compute what it is for on the numbers the words denote. */
module Wide {
  import opened Bits

  const B: nat := 0x1_0000_0000_0000_0000
  const HALF: nat := 0x1_0000_0000
  const M: nat := B * B

  type Word = x: nat | x < B

  datatype Words = Words(lo: Word, hi: Word)

  const ZERO: Words := Words(0, 0)
  const ONE: Words := Words(1, 0)
  const I128_MAX: Words := Words(B - 1, 0x7fff_ffff_ffff_ffff)
  const I128_MIN_ABS: Words := Words(0, 0x8000_0000_0000_0000)

  function Value(w: Words): (v: nat)
    ensures v < M
  {
    BelowProduct(w.hi, w.lo, B, B);
    w.hi * B + w.lo
  }

  /** Words are determined by their value. */
  lemma ValueSplit(w: Words)
    ensures Value(w) / B == w.hi && Value(w) % B == w.lo
  {
    DivModUnique(Value(w), B, w.hi, w.lo);
  }

  function OfValue(v: nat): (w: Words)
    requires v < M
    ensures Value(w) == v
  {
    assert v / B < B by { DivBelow(v, B, B); }
    assert v == v / B * B + v % B;
    Words(v % B, v / B)
  }

  lemma DivBelow(x: nat, m: nat, c: nat)
    requires m > 0 && x < m * c
    ensures x / m < c
  {
    MulMono(x / m, c, m);
    assert x / m * m <= x;
  }

  lemma MulMono(a: int, b: int, m: nat)
    ensures a >= b ==> a * m >= b * m
  {
  }

  // ---- comparison, addition, subtraction ----------------------------------

  predicate Less(a: Words, b: Words) {
    a.hi < b.hi || (a.hi == b.hi && a.lo < b.lo)
  }

  lemma LessIsLess(a: Words, b: Words)
    ensures Less(a, b) <==> Value(a) < Value(b)
  {
  }

  predicate IsNegative(w: Words) { w.hi / Pow2(63) != 0 }

  /** A sum or difference of two words, brought back into a word. */
  function Wrap(x: int): Word
    requires 0 <= x + B && x < 2 * B
  {
    if x < 0 then x + B else if x >= B then x - B else x
  }

  function WrappingAdd(a: Words, b: Words): (r: Words)
    ensures Value(r) == (Value(a) + Value(b)) % M
  {
    var carry := if a.lo + b.lo >= B then 1 else 0;
    var r := Words(Wrap(a.lo + b.lo), Wrap(Wrap(a.hi + b.hi) + carry));
    assert Value(r) == Value(a) + Value(b) || Value(r) == Value(a) + Value(b) - M;
    DivModUnique(Value(a) + Value(b), M, if Value(r) == Value(a) + Value(b) then 0 else 1, Value(r));
    r
  }

  function WrappingSub(a: Words, b: Words): (r: Words)
    ensures Value(r) == (Value(a) - Value(b)) % M
  {
    var borrow := if a.lo < b.lo then 1 else 0;
    var r := Words(Wrap(a.lo - b.lo), Wrap(Wrap(a.hi - b.hi) - borrow));
    assert Value(r) == Value(a) - Value(b) || Value(r) == Value(a) - Value(b) + M;
    DivModUnique(Value(a) - Value(b), M, if Value(r) == Value(a) - Value(b) then 0 else -1, Value(r));
    r
  }

  function Complement(w: Words): (r: Words)
    ensures Value(r) == M - 1 - Value(w)
  {
    Words(B - 1 - w.lo, B - 1 - w.hi)
  }

  function WrappingNeg(w: Words): (r: Words)
    ensures Value(r) == (0 - Value(w)) % M
  {
    var r := WrappingAdd(Complement(w), ONE);
    DivModUnique(0 - Value(w), M, if Value(w) == 0 then 0 else -1, if Value(w) == 0 then 0 else M - Value(w));
    DivModUnique(M - Value(w), M, if Value(w) == 0 then 1 else 0, if Value(w) == 0 then 0 else M - Value(w));
    r
  }

  // ---- shifts -------------------------------------------------------------

  function ShlWord(x: Word, n: nat): Word { x * Pow2(n) % B }

  function DivWord(x: Word, m: nat): Word
    requires m > 0
  {
    DivNoMore(x, m);
    x / m
  }

  function ShrWord(x: Word, n: nat): Word { DivWord(x, Pow2(n)) }

  lemma DivNoMore(x: nat, m: nat)
    requires m > 0
    ensures x / m <= x
  {
    assert x == x / m * m + x % m;
    MulMono(m, 1, x / m);
  }

  function OrWord(x: Word, y: Word): Word {
    Pow2Values();
    OrBound(x, y, 64);
    Or(x, y)
  }

  function Shl(v: Words, shift: nat): Words {
    if shift == 0 then v
    else if shift < 64 then Words(ShlWord(v.lo, shift), OrWord(ShlWord(v.hi, shift), ShrWord(v.lo, 64 - shift)))
    else if shift < 128 then Words(0, ShlWord(v.lo, shift - 64))
    else ZERO
  }

  function Lshr(v: Words, shift: nat): Words {
    if shift == 0 then v
    else if shift < 64 then Words(OrWord(ShrWord(v.lo, shift), ShlWord(v.hi, 64 - shift)), ShrWord(v.hi, shift))
    else if shift < 128 then Words(ShrWord(v.hi, shift - 64), 0)
    else ZERO
  }

  /** Multiplying a word by p, when p * q is the word size. */
  lemma ShiftedWord(x: nat, p: nat, q: nat)
    requires p > 0 && q > 0 && p * q == B
    ensures x * p / B == x / q && x * p % B == x % q * p && x % q * p < B
  {
    var h, l := x / q, x % q;
    assert x == h * q + l;
    MulSpread(h, q, l, p);
    BelowProduct(l, 0, p, q);
    DivModUnique(x * p, B, h, l * p);
  }

  /** A high part that is a multiple of p, over a low part below p. */
  lemma OrHighLow(a: nat, k: nat, b: nat)
    requires b < Pow2(k)
    ensures Or(a * Pow2(k), b) == a * Pow2(k) + b == Or(b, a * Pow2(k))
  {
    hide Pow2, Or;
    MulDivExact(a, Pow2(k));
    OrDisjoint(a * Pow2(k), b, k);
    OrSymmetric(a * Pow2(k), b);
  }

  lemma WordPow(s: nat)
    requires s <= 64
    ensures Pow2(s) * Pow2(64 - s) == B == Pow2(64)
  {
    hide Pow2;
    Pow2Add(s, 64 - s);
    Pow2Values();
  }

  lemma ShlShort(v: Words, s: nat)
    requires 0 < s < 64
    ensures Value(Shl(v, s)) == Value(v) * Pow2(s) % M
  {
    hide Pow2, Or;
    var x, y, p, q := v.lo, v.hi, Pow2(s), Pow2(64 - s);
    WordPow(s);
    ShiftedWord(x, p, q);
    ShiftedWord(y, p, q);
    DivBelow(x, q, p);
    OrHighLow(y % q, s, x / q);
    var r := Shl(v, s);
    assert r == Words(x % q * p, y % q * p + x / q);
    ShlShortValue(x, y, p, q, Value(r));
  }

  lemma ShlShortValue(x: nat, y: nat, p: nat, q: nat, r: nat)
    requires p > 0 && q > 0 && p * q == B && r < M && r == (y % q * p + x / q) * B + x % q * p
    requires x * p / B == x / q && x * p % B == x % q * p && y * p / B == y / q && y * p % B == y % q * p
    ensures r == (y * B + x) * p % M
  {
    assert x * p == x / q * B + x % q * p && y * p == y / q * B + y % q * p;
    assert (y * B + x) * p == y * p * B + x * p;
    assert (y * B + x) * p == y / q * M + r;
    DivModUnique((y * B + x) * p, M, y / q, r);
  }

  lemma ShlLong(v: Words, s: nat)
    requires 64 <= s < 128
    ensures Value(Shl(v, s)) == Value(v) * Pow2(s) % M
  {
    hide Pow2;
    var x, y, p, q := v.lo, v.hi, Pow2(s - 64), Pow2(128 - s);
    WordPow(s - 64);
    Pow2Add(64, s - 64);
    ShiftedWord(x, p, q);
    assert Shl(v, s) == Words(0, x % q * p);
    ShlLongValue(x, y, p, q);
  }

  lemma ShlLongValue(x: nat, y: nat, p: nat, q: nat)
    requires p > 0 && q > 0 && x * p / B == x / q && x * p % B == x % q * p && x % q * p < B
    ensures x % q * p * B == (y * B + x) * (B * p) % M
  {
    assert x * p == x / q * B + x % q * p;
    assert (y * B + x) * (B * p) == y * p * M + x * p * B;
    assert (y * B + x) * (B * p) == (y * p + x / q) * M + x % q * p * B;
    DivModUnique((y * B + x) * (B * p), M, y * p + x / q, x % q * p * B);
  }

  lemma ShlFar(v: nat, s: nat)
    requires 128 <= s
    ensures v * Pow2(s) % M == 0
  {
    hide Pow2;
    Pow2Add(64, 64);
    Pow2Values();
    Pow2Add(128, s - 128);
    assert v * Pow2(s) == v * Pow2(s - 128) * M;
    MulDivExact(v * Pow2(s - 128), M);
  }

  /** Left shift is multiplication by a power of two, modulo 2^128, for every
      shift count. */
  lemma ShlCorrect(v: Words, s: nat)
    ensures Value(Shl(v, s)) == Value(v) * Pow2(s) % M
  {
    if s == 0 {
      assert Pow2(0) == 1;
      DivModUnique(Value(v), M, 0, Value(v));
    } else if s < 64 {
      ShlShort(v, s);
    } else if s < 128 {
      ShlLong(v, s);
    } else {
      ShlFar(Value(v), s);
    }
  }

  lemma LshrShort(v: Words, s: nat)
    requires 0 < s < 64
    ensures Value(Lshr(v, s)) == Value(v) / Pow2(s)
  {
    hide Pow2, Or;
    var x, y, p, q := v.lo, v.hi, Pow2(s), Pow2(64 - s);
    WordPow(s);
    ShiftedWord(y, q, p);
    DivBelow(x, p, q);
    OrHighLow(y % p, 64 - s, x / p);
    var r := Lshr(v, s);
    assert r == Words(y % p * q + x / p, y / p);
    LshrShortValue(x, y, p, q, Value(r));
  }

  lemma LshrShortValue(x: nat, y: nat, p: nat, q: nat, r: nat)
    requires p > 0 && q > 0 && p * q == B && r == y / p * B + (y % p * q + x / p)
    ensures r == (y * B + x) / p
  {
    assert y == y / p * p + y % p && x == x / p * p + x % p;
    assert y * B == y / p * B * p + y % p * q * p by {
      assert y * B == (y / p * p + y % p) * B;
      assert y % p * B == y % p * q * p;
    }
    assert y * B + x == r * p + x % p;
    DivModUnique(y * B + x, p, r, x % p);
  }

  lemma LshrLong(v: Words, s: nat)
    requires 64 <= s
    ensures Value(Lshr(v, s)) == Value(v) / Pow2(s)
  {
    hide Pow2;
    var p := Pow2(s - 64);
    Pow2Add(64, s - 64);
    Pow2Values();
    DivDiv(Value(v), B, p);
    ValueSplit(v);
    if s >= 128 {
      Pow2Mono(64, s - 64);
      DivModUnique(v.hi, p, 0, v.hi);
    }
  }

  lemma DivDiv(x: int, a: nat, b: nat)
    requires a > 0 && b > 0
    ensures a * b > 0 && x / (a * b) == x / a / b
  {
    var q, r := x / a, x % a;
    var q1, r1 := q / b, q % b;
    MulSpread(q1, b, r1, a);
    BelowProduct(r1, r, a, b);
    DivModUnique(x, a * b, q1, r1 * a + r);
  }

  /** Logical right shift is division, for every shift count. */
  lemma LshrCorrect(v: Words, s: nat)
    ensures Value(Lshr(v, s)) == Value(v) / Pow2(s)
  {
    if s == 0 {
      assert Pow2(0) == 1;
    } else if s < 64 {
      LshrShort(v, s);
    } else {
      LshrLong(v, s);
    }
  }

  // ---- signed values ------------------------------------------------------

  /** Two's complement. */
  function Signed(w: Words): int {
    if w.hi >= B / 2 then Value(w) - M else Value(w)
  }

  function OfSigned(v: int): (w: Words)
    requires 0 <= v + M / 2 && v < M / 2
    ensures Signed(w) == v
  {
    if v >= 0 then OfValue(v) else OfValue(v + M)
  }

  lemma NegativeTest(w: Words)
    ensures IsNegative(w) <==> w.hi >= B / 2
    ensures IsNegative(w) <==> Signed(w) < 0
  {
    hide Pow2;
    Pow2Values();
  }

  function SignedWord(x: Word): int { if x >= B / 2 then x - B else x }

  /** (x as i64) >> n, back as a word. */
  function SarWord(x: Word, n: nat): Word { SignedWord(x) / Pow2(n) % B }

  function Ashr(v: Words, shift: nat): Words {
    var fill := if IsNegative(v) then B - 1 else 0;
    if shift == 0 then v
    else if shift < 64 then Words(OrWord(ShrWord(v.lo, shift), ShlWord(v.hi, 64 - shift)), SarWord(v.hi, shift))
    else if shift < 128 then Words(SarWord(v.hi, shift - 64), fill)
    else Words(fill, fill)
  }

  lemma SignedParts(w: Words)
    ensures Signed(w) == SignedWord(w.hi) * B + w.lo
  {
  }

  lemma FloorDivRange(y: int, p: nat, m: nat)
    requires p > 0 && 0 <= y + m && y < m
    ensures 0 <= y / p + m && y / p < m && (y < 0 <==> y / p < 0)
  {
    var q, r := y / p, y % p;
    assert y == q * p + r && y < (q + 1) * p;
    Magnify(q, p);
    Magnify(q + 1, p);
  }

  lemma Magnify(k: int, p: nat)
    requires p > 0
    ensures k >= 0 ==> k * p >= k
    ensures k <= 0 ==> k * p <= k
  {
  }

  lemma SarSigned(x: Word, n: nat)
    ensures SignedWord(SarWord(x, n)) == SignedWord(x) / Pow2(n)
    ensures SarWord(x, n) == if x >= B / 2 then SignedWord(x) / Pow2(n) + B else SignedWord(x) / Pow2(n)
  {
    hide Pow2;
    var z := SignedWord(x) / Pow2(n);
    FloorDivRange(SignedWord(x), Pow2(n), B / 2);
    DivModUnique(z, B, if z < 0 then -1 else 0, if z < 0 then z + B else z);
  }

  lemma AshrShort(v: Words, s: nat)
    requires 0 < s < 64
    ensures Signed(Ashr(v, s)) == Signed(v) / Pow2(s)
  {
    hide Pow2, Or, SarWord, SignedWord, Signed, IsNegative;
    var x, y, p, q := v.lo, v.hi, Pow2(s), Pow2(64 - s);
    WordPow(s);
    ShiftedWord(y, q, p);
    DivBelow(x, p, q);
    OrHighLow(y % p, 64 - s, x / p);
    SarSigned(y, s);
    SignedParts(v);
    SignedParts(Ashr(v, s));
    SameRemainder(y, p, q);
    AshrShortValue(x, SignedWord(y), p, q);
  }

  lemma SameRemainder(y: Word, p: nat, q: nat)
    requires p > 0 && p * q == B
    ensures y % p == SignedWord(y) % p
  {
    if y >= B / 2 {
      assert y - B == (y / p - q) * p + y % p;
      DivModUnique(y - B, p, y / p - q, y % p);
    }
  }

  lemma AshrShortValue(x: nat, y: int, p: nat, q: nat)
    requires p > 0 && q > 0 && p * q == B
    ensures y / p * B + (y % p * q + x / p) == (y * B + x) / p
  {
    var r := y / p * B + (y % p * q + x / p);
    assert y == y / p * p + y % p && x == x / p * p + x % p;
    assert y * B == y / p * B * p + y % p * q * p by {
      assert y * B == (y / p * p + y % p) * B;
      assert y % p * B == y % p * q * p;
    }
    assert y * B + x == r * p + x % p;
    DivModUnique(y * B + x, p, r, x % p);
  }

  lemma AshrLong(v: Words, s: nat)
    requires 64 <= s < 128
    ensures Signed(Ashr(v, s)) == Signed(v) / Pow2(s)
  {
    hide Pow2, SarWord;
    SarSigned(v.hi, s - 64);
    NegativeTest(v);
    SignedParts(v);
    Pow2Add(64, s - 64);
    Pow2Values();
    DivModUnique(Signed(v), B, SignedWord(v.hi), v.lo);
    DivDiv(Signed(v), B, Pow2(s - 64));
    FloorDivRange(SignedWord(v.hi), Pow2(s - 64), B / 2);
  }

  lemma AshrFar(v: Words, s: nat)
    requires 128 <= s
    ensures Signed(Ashr(v, s)) == Signed(v) / Pow2(s)
  {
    hide Pow2;
    NegativeTest(v);
    Pow2Mono(128, s);
    Pow2Add(64, 64);
    Pow2Values();
    var z := Signed(v);
    DivModUnique(z, Pow2(s), if z < 0 then -1 else 0, if z < 0 then z + Pow2(s) else z);
  }

  /** Arithmetic right shift rounds the signed value toward minus infinity, for
      every shift count. */
  lemma AshrCorrect(v: Words, s: nat)
    ensures Signed(Ashr(v, s)) == Signed(v) / Pow2(s)
  {
    if s == 0 {
      assert Pow2(0) == 1;
    } else if s < 64 {
      AshrShort(v, s);
    } else if s < 128 {
      AshrLong(v, s);
    } else {
      AshrFar(v, s);
    }
  }

  // ---- multiplication -----------------------------------------------------

  function Low32(x: Word): Word { x % HALF }

  function MulW(a: nat, b: nat): Word { a * b % B }

  function AddW(a: nat, b: nat): Word { (a + b) % B }

  /** 64 by 64 to 128 bits from four 32-bit products. */
  function MulWide(a: Word, b: Word): Words {
    Combine(MulW(Low32(a), Low32(b)), MulW(a / HALF, Low32(b)), MulW(b / HALF, Low32(a)), MulW(a / HALF, b / HALF))
  }

  function Combine(ll: Word, hl: Word, lh: Word, hh: Word): Words {
    var t1 := AddW(ll / HALF, hl);
    var lo1 := AddW(ll % HALF, t1 % HALF * HALF);
    var t3 := AddW(lo1 / HALF, lh);
    var lo2 := AddW(lo1 % HALF, t3 % HALF * HALF);
    Words(lo2, AddW(AddW(t1 / HALF, t3 / HALF), hh))
  }

  lemma SmallProduct(x: nat, y: nat)
    requires x < HALF && y < HALF
    ensures x * y <= (HALF - 1) * (HALF - 1) && MulW(x, y) == x * y
  {
    MulMono(HALF - 1, x, y);
    MulMono(HALF - 1, y, HALF - 1);
    NoWrap(x * y);
  }

  lemma NoWrap(x: nat)
    requires x < B
    ensures x % B == x
  {
  }

  lemma JoinHalves(lo: nat, hi: nat)
    requires lo < HALF && hi < HALF
    ensures AddW(lo, hi * HALF) == lo + hi * HALF
    ensures (lo + hi * HALF) / HALF == hi && (lo + hi * HALF) % HALF == lo
  {
    NoWrap(lo + hi * HALF);
    DivModUnique(lo + hi * HALF, HALF, hi, lo);
  }

  lemma CombineValue(ll: Word, hl: Word, lh: Word, hh: Word)
    requires ll <= (HALF - 1) * (HALF - 1) && hl <= (HALF - 1) * (HALF - 1) && lh <= (HALF - 1) * (HALF - 1)
    requires hh * B + (hl + lh) * HALF + ll < M
    ensures Value(Combine(ll, hl, lh, hh)) == hh * B + (hl + lh) * HALF + ll
  {
    hide AddW;
    var q0, r0 := ll / HALF, ll % HALF;
    var t1 := q0 + hl;
    AddExact(q0, hl);
    var q1, r1 := t1 / HALF, t1 % HALF;
    JoinHalves(r0, r1);
    var t3 := r1 + lh;
    AddExact(r1, lh);
    var q3, r3 := t3 / HALF, t3 % HALF;
    JoinHalves(r0, r3);
    assert (q1 + q3 + hh) * B + (r0 + r3 * HALF) == hh * B + (hl + lh) * HALF + ll;
    AddExact(q1, q3);
    AddExact(q1 + q3, hh);
  }

  lemma AddExact(x: nat, y: nat)
    requires x + y < B
    ensures AddW(x, y) == x + y
  {
    NoWrap(x + y);
  }

  lemma Schoolbook(a: nat, b: nat, al: nat, ah: nat, bl: nat, bh: nat)
    requires a == ah * HALF + al && b == bh * HALF + bl
    ensures a * b == ah * bh * B + (ah * bl + bh * al) * HALF + al * bl
  {
    assert a * b == (ah * HALF + al) * (bh * HALF + bl);
    assert (ah * HALF + al) * (bh * HALF + bl) == ah * HALF * (bh * HALF) + ah * HALF * bl + al * (bh * HALF) + al * bl;
    assert ah * HALF * (bh * HALF) == ah * bh * B;
  }

  lemma WordProductFits(a: Word, b: Word)
    ensures a * b < M
  {
    MulMono(B - 1, a, b);
    MulMono(B - 1, b, B - 1);
  }

  /** The wide product is exact. */
  lemma MulWideCorrect(a: Word, b: Word)
    ensures Value(MulWide(a, b)) == a * b
  {
    hide Combine, MulW;
    var al, ah, bl, bh := a % HALF, a / HALF, b % HALF, b / HALF;
    SmallProduct(al, bl);
    SmallProduct(ah, bl);
    SmallProduct(bh, al);
    SmallProduct(ah, bh);
    Schoolbook(a, b, al, ah, bl, bh);
    WordProductFits(a, b);
    CombineValue(al * bl, ah * bl, bh * al, ah * bh);
  }

  function MulWords(a: Words, b: Words): Words {
    var product := MulWide(a.lo, b.lo);
    Words(product.lo, AddW(AddW(product.hi, MulW(a.hi, b.lo)), MulW(a.lo, b.hi)))
  }

  lemma CrossProduct(ah: nat, al: nat, bh: nat, bl: nat)
    ensures (ah * B + al) * (bh * B + bl) == ah * bh * M + (ah * bl + al * bh) * B + al * bl
  {
    assert (ah * B + al) * (bh * B + bl) == ah * B * (bh * B) + ah * B * bl + al * (bh * B) + al * bl;
    assert ah * B * (bh * B) == ah * bh * M;
  }

  lemma TruncatedValue(hh: nat, mid: nat, p: Words)
    ensures (hh * M + mid * B + Value(p)) % M == (p.hi + mid) % B * B + p.lo
  {
    var cross := p.hi + mid;
    assert cross == cross / B * B + cross % B;
    DivModUnique(hh * M + mid * B + Value(p), M, hh + cross / B, cross % B * B + p.lo);
  }

  lemma ProductModulo(ah: nat, al: nat, bh: nat, bl: nat, p: Words)
    requires Value(p) == al * bl
    ensures (ah * B + al) * (bh * B + bl) % M == (p.hi + Times(ah, bl) + Times(al, bh)) % B * B + p.lo
  {
    hide Value;
    CrossProduct(ah, al, bh, bl);
    TruncatedValue(Times(ah, bh), Times(ah, bl) + Times(al, bh), p);
  }

  /** Truncated product: the true product modulo 2^128. */
  lemma MulWordsCorrect(a: Words, b: Words)
    ensures Value(MulWords(a, b)) == Value(a) * Value(b) % M
  {
    hide MulWide, AddW, MulW, Value;
    MulWideCorrect(a.lo, b.lo);
    var p := MulWide(a.lo, b.lo);
    ProductModulo(a.hi, a.lo, b.hi, b.lo, p);
    HighSum(p.hi, Times(a.hi, b.lo), Times(a.lo, b.hi), a.hi, b.lo, a.lo, b.hi);
    WordsValue(a);
    WordsValue(b);
    WordsValue(MulWords(a, b));
  }

  lemma WordsValue(w: Words)
    ensures Value(w) == w.hi * B + w.lo
  {
  }

  lemma HighSum(x: nat, yz: nat, uv: nat, y: nat, z: nat, u: nat, v: nat)
    requires yz == y * z && uv == u * v
    ensures AddW(AddW(x, MulW(y, z)), MulW(u, v)) == (x + yz + uv) % B
  {
    assert MulW(y, z) == yz % B && MulW(u, v) == uv % B;
    hide MulW;
    SumModulo(x, yz, uv);
  }

  lemma SumModulo(x: nat, y: nat, z: nat)
    ensures ((x + y % B) % B + z % B) % B == (x + y + z) % B
  {
    var p, q := y / B, z / B;
    assert y == B * p + y % B && z == B * q + z % B;
  }

  // ---- division -----------------------------------------------------------

  function BitAt(w: Words, bit: nat): nat
    requires bit < 128
  {
    if bit < 64 then ShrWord(w.lo, bit) % 2 else ShrWord(w.hi, bit - 64) % 2
  }

  lemma BitAtValue(w: Words, bit: nat)
    requires bit < 128
    ensures BitAt(w, bit) == Value(w) / Pow2(bit) % 2
  {
    hide Pow2;
    ValueSplit(w);
    if bit < 64 {
      LowWordBit(w, bit);
    } else {
      Pow2Add(64, bit - 64);
      Pow2Values();
      DivDiv(Value(w), B, Pow2(bit - 64));
    }
  }

  lemma LowBits(hi: nat, lo: nat, p: nat, h: nat)
    requires p > 0 && 2 * h * p == B
    ensures (hi * B + lo) / p % 2 == lo / p % 2
  {
    var q, r := lo / p, lo % p;
    assert hi * B == 2 * (hi * h) * p;
    assert hi * B + lo == (2 * (hi * h) + q) * p + r;
    DivModUnique(hi * B + lo, p, 2 * (hi * h) + q, r);
    assert (2 * (hi * h) + q) % 2 == q % 2;
  }

  lemma LowWordBit(w: Words, bit: nat)
    requires bit < 64
    ensures w.lo / Pow2(bit) % 2 == Value(w) / Pow2(bit) % 2
  {
    hide Pow2;
    WordPow(bit);
    Pow2One();
    Pow2Add(1, 63 - bit);
    assert 2 * Pow2(63 - bit) * Pow2(bit) == B;
    LowBits(w.hi, w.lo, Pow2(bit), Pow2(63 - bit));
  }

  function Double(x: Word): Word { x * 2 % B }

  /** remainder << 1 with one numerator bit brought in. */
  function ShiftIn(r: Words, b: nat): Words
    requires b < 2
  {
    Words(OrWord(Double(r.lo), b), OrWord(Double(r.hi), ShrWord(r.lo, 63)))
  }

  lemma ShiftInValue(r: Words, b: nat)
    requires b < 2 && 2 * Value(r) + b < M
    ensures Value(ShiftIn(r, b)) == 2 * Value(r) + b
  {
    hide Or, Pow2;
    Pow2Values();
    Pow2One();
    var h, l := r.lo / Pow2(63), r.lo % Pow2(63);
    assert r.lo == h * Pow2(63) + l && h < 2;
    DivModUnique(r.lo * 2, B, h, 2 * l);
    DivModUnique(r.hi * 2, B, 0, r.hi * 2);
    OrHighLow(l, 1, b);
    OrHighLow(r.hi, 1, h);
  }

  function WithBit(w: Words, bit: nat): Words
    requires bit < 128
  {
    Pow2Below(if bit < 64 then bit else bit - 64);
    if bit < 64 then w.(lo := OrWord(w.lo, Pow2(bit))) else w.(hi := OrWord(w.hi, Pow2(bit - 64)))
  }

  lemma Pow2Below(k: nat)
    requires k < 64
    ensures Pow2(k) < B
  {
    Pow2Values();
    Pow2Mono(k, 63);
  }

  lemma WithBitValue(w: Words, bit: nat)
    requires bit < 128 && Value(w) % Pow2(bit + 1) == 0
    ensures Value(WithBit(w, bit)) == Value(w) + Pow2(bit)
  {
    hide Or, Pow2, Value;
    ValueParts(w);
    if bit < 64 {
      Pow2Below(bit);
      WordPow(bit + 1);
      LowPart(w, Pow2(bit + 1), Pow2(63 - bit));
      MultipleOr(w.lo, bit);
      ValueParts(w.(lo := w.lo + Pow2(bit)));
    } else {
      Pow2Below(bit - 64);
      Pow2Add(64, bit + 1 - 64);
      Pow2Add(64, bit - 64);
      Pow2Values();
      HighPart(w, Pow2(bit + 1 - 64));
      MultipleOr(w.hi, bit - 64);
      ValueParts(w.(hi := w.hi + Pow2(bit - 64)));
    }
  }

  lemma ValueParts(w: Words)
    ensures Value(w) == w.hi * B + w.lo
  {
  }

  lemma MultipleOr(x: Word, k: nat)
    requires k < 64 && x % Pow2(k + 1) == 0
    ensures Pow2(k) < B && OrWord(x, Pow2(k)) == x + Pow2(k)
  {
    hide Or;
    Pow2Below(k);
    OrDisjoint(x, Pow2(k), k + 1);
  }

  lemma LowPart(w: Words, p: nat, q: nat)
    requires p > 0 && p * q == B && Value(w) % p == 0
    ensures w.lo % p == 0
  {
    assert w.hi * B == w.hi * q * p;
    var v := Value(w) / p;
    assert w.lo == (v - w.hi * q) * p;
    MulDivExact(v - w.hi * q, p);
  }

  lemma HighPart(w: Words, p: nat)
    requires p > 0 && Value(w) % (B * p) == 0
    ensures w.hi % p == 0
  {
    var v := Value(w) / (B * p);
    assert Value(w) == v * (B * p);
    assert Value(w) == v * p * B;
    DivModUnique(Value(w), B, v * p, 0);
    ValueSplit(w);
    MulDivExact(v, p);
  }

  /** After the bits above position bit: q holds the quotient so far, k, in place,
      and r is the remainder of the numerator's top bits. */
  ghost predicate Dividing(n: nat, d: nat, bit: nat, q: nat, r: nat, k: nat) {
    q == k * Pow2(bit) && n / Pow2(bit) == k * d + r && r < d
  }

  /** The next bit shifted in, the divisor not yet compared. */
  ghost predicate Shifted(n: nat, d: nat, bit: nat, q: nat, r: nat, k: nat) {
    q == 2 * k * Pow2(bit) && n / Pow2(bit) == 2 * k * d + r && r < 2 * d
  }

  /** The shifted remainder never leaves 128 bits, even for divisors above 2^127:
      it is at most the numerator's top bits. */
  lemma NextBit(n: nat, d: nat, bit: nat, q: nat, r: nat, k: nat, b: nat)
    requires n < M && bit > 0 && Dividing(n, d, bit, q, r, k) && b == n / Pow2(bit - 1) % 2
    ensures 2 * r + b < M && Shifted(n, d, bit - 1, q, 2 * r + b, k)
  {
    hide Pow2;
    var p := Pow2(bit - 1);
    Pow2One();
    Pow2Add(bit - 1, 1);
    DivDiv(n, p, 2);
    DivNoMore(n, p);
    assert 2 * k * p == k * (p * 2);
    assert 2 * (k * d) == 2 * k * d;
    assert k * d >= 0;
  }

  method UDivMod(n: Words, d: Words) returns (q: Words, r: Words)
    requires Value(d) != 0
    ensures Value(n) == Value(q) * Value(d) + Value(r) && Value(r) < Value(d)
  {
    hide Value, Pow2, ShiftIn, WithBit, BitAt, WrappingSub, Less, Dividing, Shifted;
    LessIsLess(n, d);
    if Less(n, d) {
      ZeroValue();
      return ZERO, n;
    }
    q, r := ZERO, ZERO;
    var bit := 128;
    ghost var k: nat := 0;
    DivisionStarts(Value(n), Value(d));
    while bit != 0
      invariant 0 <= bit <= 128 && Dividing(Value(n), Value(d), bit, Value(q), Value(r), k)
    {
      bit := bit - 1;
      BitAtValue(n, bit);
      var b := BitAt(n, bit);
      NextBit(Value(n), Value(d), bit + 1, Value(q), Value(r), k, b);
      ShiftInValue(r, b);
      r := ShiftIn(r, b);
      LessIsLess(r, d);
      if !Less(r, d) {
        SubtractDivisor(Value(n), Value(d), bit, q, Value(r), k);
        SmallDifference(r, d);
        r := WrappingSub(r, d);
        q := WithBit(q, bit);
        k := 2 * k + 1;
      } else {
        KeepRemainder(Value(n), Value(d), bit, Value(q), Value(r), k);
        k := 2 * k;
      }
    }
    DivisionEnds(Value(n), Value(d), Value(q), Value(r), k);
  }

  lemma ZeroValue()
    ensures Value(ZERO) == 0
  {
  }

  lemma DivisionStarts(n: nat, d: nat)
    requires n < M && d > 0
    ensures Dividing(n, d, 128, Value(ZERO), Value(ZERO), 0)
  {
    hide Pow2;
    Pow2Add(64, 64);
    Pow2Values();
  }

  lemma DivisionEnds(n: nat, d: nat, q: nat, r: nat, k: nat)
    requires Dividing(n, d, 0, q, r, k)
    ensures n == q * d + r && r < d
  {
    Pow2One();
    assert Pow2(0) == 1;
  }

  lemma SubtractDivisor(n: nat, d: nat, bit: nat, q: Words, r: nat, k: nat)
    requires bit < 128 && d <= r && Shifted(n, d, bit, Value(q), r, k)
    ensures Dividing(n, d, bit, Value(WithBit(q, bit)), r - d, 2 * k + 1)
  {
    hide Pow2, WithBit, Value;
    Pow2One();
    Pow2Add(bit, 1);
    var p := Pow2(bit);
    Doubled(k, p);
    Doubled(k, d);
    MulDivExact(k, 2 * p);
    WithBitValue(q, bit);
  }

  lemma Doubled(k: nat, p: nat)
    ensures 2 * k * p == k * (2 * p) && (2 * k + 1) * p == 2 * k * p + p
  {
  }

  lemma KeepRemainder(n: nat, d: nat, bit: nat, q: nat, r: nat, k: nat)
    requires r < d && Shifted(n, d, bit, q, r, k)
    ensures Dividing(n, d, bit, q, r, 2 * k)
  {
  }

  lemma SmallDifference(a: Words, b: Words)
    requires Value(b) <= Value(a)
    ensures Value(WrappingSub(a, b)) == Value(a) - Value(b)
  {
    DivModUnique(Value(a) - Value(b), M, 0, Value(a) - Value(b));
  }

  // ---- signed operations --------------------------------------------------

  type Int128 = v: int | 0 <= v + M / 2 && v < M / 2

  function Abs(x: int): nat { if x < 0 then -x else x }

  function AbsWords(v: Int128): (w: Words)
    ensures Value(w) == Abs(v)
  {
    var bits := OfSigned(v);
    NegativeTest(bits);
    if IsNegative(bits) then
      DivModUnique(0 - Value(bits), M, -1, M - Value(bits));
      WrappingNeg(bits)
    else bits
  }

  /** Words read back as a signed number. */
  function ToInt128(w: Words): Int128 { Signed(w) }

  /** x reduced into the signed 128-bit range. */
  function WrapSigned(x: int): Int128 {
    var r := x % M;
    if r >= M / 2 then r - M else r
  }

  lemma SignedIsWrapped(w: Words, x: int)
    requires Value(w) == x % M
    ensures ToInt128(w) == WrapSigned(x)
  {
  }

  function Negate(neg: bool, w: Words): Words { if neg then WrappingNeg(w) else w }

  lemma NegateValue(neg: bool, w: Words, x: int)
    requires Value(w) == x % M
    ensures Value(Negate(neg, w)) == (if neg then -x else x) % M
  {
    if neg {
      NegMod(x);
    }
  }

  lemma NegMod(x: int)
    ensures (0 - x % M) % M == (-x) % M
  {
    var q, r := x / M, x % M;
    assert x == q * M + r;
    var r' := if r == 0 then 0 else M - r;
    DivModUnique(0 - r, M, if r == 0 then 0 else -1, r');
    DivModUnique(-x, M, if r == 0 then -q else -q - 1, r');
  }

  /** The product wraps correctly, and overflow is flagged exactly when the true
      product is not a 128-bit signed number. */
  method SignedMulOverflow(a: Int128, b: Int128) returns (result: Int128, overflow: bool)
    ensures result == WrapSigned(a * b)
    ensures overflow <==> !(0 <= a * b + M / 2 && a * b < M / 2)
  {
    hide Value, MulWords;
    var neg := (a < 0) != (b < 0);
    var x, y := AbsWords(a), AbsWords(b);
    var product := MulWords(x, y);
    MulWordsCorrect(x, y);
    ProductSign(a, b);
    if x == ZERO || y == ZERO {
      ZeroFactor(a, b, x, y);
      overflow := false;
    } else {
      var limit := if neg then I128_MIN_ABS else I128_MAX;
      NonZeroFactor(a, x);
      var maxFactor, rest := UDivMod(limit, x);
      LessIsLess(maxFactor, y);
      overflow := Less(maxFactor, y);
      LimitValue(neg);
      FactorTooBig(Value(limit), Abs(a), Abs(b), Value(maxFactor), Value(rest));
      SignedRange(a, b);
    }
    NegateValue(neg, product, Abs(a) * Abs(b));
    SignedIsWrapped(Negate(neg, product), a * b);
    result := ToInt128(Negate(neg, product));
  }

  lemma ProductSign(a: int, b: int)
    ensures a * b == if (a < 0) != (b < 0) then -(Abs(a) * Abs(b)) else Abs(a) * Abs(b)
  {
  }

  lemma ZeroFactor(a: Int128, b: Int128, x: Words, y: Words)
    requires Value(x) == Abs(a) && Value(y) == Abs(b) && (x == ZERO || y == ZERO)
    ensures a * b == 0
  {
  }

  lemma NonZeroFactor(a: Int128, x: Words)
    requires Value(x) == Abs(a) && x != ZERO
    ensures Value(x) != 0
  {
    ValueSplit(x);
  }

  lemma LimitValue(neg: bool)
    ensures Value(if neg then I128_MIN_ABS else I128_MAX) == if neg then M / 2 else M / 2 - 1
  {
  }

  lemma FactorTooBig(limit: nat, x: nat, y: nat, q: nat, r: nat)
    requires limit == q * x + r && r < x
    ensures y > q <==> x * y > limit
  {
    MulMono(y, q + 1, x);
    MulMono(q, y, x);
    assert (q + 1) * x == q * x + x;
  }

  lemma SignedRange(a: Int128, b: Int128)
    ensures 0 <= a * b + M / 2 && a * b < M / 2 <==>
            Abs(a) * Abs(b) <= if (a < 0) != (b < 0) then M / 2 else M / 2 - 1
  {
    ProductSign(a, b);
    assert Abs(a) * Abs(b) >= 0;
  }

  /** Truncated division; only the most negative number divided by -1 wraps. */
  method SignedDivMod(a: Int128, b: Int128) returns (q: Int128, r: Int128)
    requires b != 0
    ensures Abs(r) < Abs(b) && (r != 0 ==> (r < 0 <==> a < 0))
    ensures exists t :: a == t * b + r && q == WrapSigned(t)
    ensures !(a == 0 - M / 2 && b == -1) ==> a == q * b + r
  {
    hide Value;
    var x, y := AbsWords(a), AbsWords(b);
    var uq, ur := UDivMod(x, y);
    ghost var neg := (a < 0) != (b < 0);
    ghost var t := if neg then 0 - Value(uq) else Value(uq);
    SignedQuotient(a, b, Value(uq), Value(ur));
    InRange(uq, Value(uq));
    InRange(ur, Value(ur));
    NegateValue(a < 0, ur, Value(ur));
    NegateValue(neg, uq, Value(uq));
    ghost var s := if a < 0 then 0 - Value(ur) else Value(ur);
    SignedIsWrapped(Negate(a < 0, ur), s);
    SignedIsWrapped(Negate(neg, uq), t);
    WrapNothing(s);
    r := ToInt128(Negate(a < 0, ur));
    q := ToInt128(Negate((a < 0) != (b < 0), uq));
    assert a == t * b + r && q == WrapSigned(t);
    if !(a == 0 - M / 2 && b == -1) {
      QuotientInRange(a, b, Value(uq), Value(ur));
      WrapNothing(t);
    }
  }

  lemma InRange(w: Words, v: nat)
    requires v == Value(w)
    ensures v % M == v
  {
    DivModUnique(v, M, 0, v);
  }

  lemma SignedQuotient(a: Int128, b: Int128, q: nat, r: nat)
    requires b != 0 && Abs(a) == q * Abs(b) + r && r < Abs(b)
    ensures a == (if (a < 0) != (b < 0) then 0 - q else q) * b + (if a < 0 then 0 - r else r)
    ensures r < M / 2
  {
  }

  lemma QuotientInRange(a: Int128, b: Int128, q: nat, r: nat)
    requires b != 0 && Abs(a) == q * Abs(b) + r && r < Abs(b) && !(a == 0 - M / 2 && b == -1)
    ensures 0 <= (if (a < 0) != (b < 0) then 0 - q else q) + M / 2
    ensures (if (a < 0) != (b < 0) then 0 - q else q) < M / 2
  {
    Magnify(q, Abs(b));
    if Abs(b) >= 2 {
      MulMono(Abs(b), 2, q);
    }
  }

  lemma WrapNothing(x: int)
    requires 0 <= x + M / 2 && x < M / 2
    ensures WrapSigned(x) == x
  {
    DivModUnique(x, M, if x < 0 then -1 else 0, if x < 0 then x + M else x);
  }
}
