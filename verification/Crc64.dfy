/** The manifest checksum: CRC-64, least significant bit first, by bits and by table. */
module Crc64 {
  import opened Bits

  const POLY: nat := 0x42F0_E1EB_A9EA_3693
  const ALL_ONES: nat := 0xFFFF_FFFF_FFFF_FFFF

  // ---- exclusive or -------------------------------------------------------

  lemma XorHalf(a: nat, b: nat)
    ensures Xor(a, b) / 2 == Xor(a / 2, b / 2) && Xor(a, b) % 2 == (a % 2 + b % 2) % 2
  {
  }

  lemma {:induction false} XorCommutes(a: nat, b: nat)
    ensures Xor(a, b) == Xor(b, a)
  {
    if a != 0 && b != 0 { XorCommutes(a / 2, b / 2); }
  }

  lemma {:induction false} XorAssociates(a: nat, b: nat, c: nat)
    ensures Xor(Xor(a, b), c) == Xor(a, Xor(b, c))
    decreases a + b + c
  {
    if a != 0 && b != 0 && c != 0 {
      XorHalf(a, b);
      XorHalf(b, c);
      XorHalf(Xor(a, b), c);
      XorHalf(a, Xor(b, c));
      XorAssociates(a / 2, b / 2, c / 2);
    }
  }

  lemma {:induction false} XorSelf(a: nat)
    ensures Xor(a, a) == 0
  {
    if a != 0 { XorSelf(a / 2); }
  }

  /** Two masked values: the mask cancels. */
  lemma XorCancels(a: nat, b: nat, m: nat)
    ensures Xor(Xor(a, m), Xor(b, m)) == Xor(a, b)
    ensures Xor(Xor(a, m), b) == Xor(Xor(a, b), m)
  {
    hide Xor;
    XorCommutes(b, m);
    XorAssociates(a, m, Xor(m, b));
    XorAssociates(m, m, b);
    XorSelf(m);
    ZeroXor(b);
    XorAssociates(a, m, b);
    XorAssociates(a, b, m);
  }

  lemma ZeroXor(b: nat)
    ensures Xor(0, b) == b && Xor(b, 0) == b
  {
  }

  /** High and low parts. */
  lemma {:induction false} XorParts(y: nat, r: nat, k: nat)
    requires r < Pow2(k)
    ensures Xor(r, Times(y, Pow2(k))) == Times(y, Pow2(k)) + r
    decreases k
  {
    if k == 0 || r == 0 || y == 0 {
      assert k == 0 ==> r == 0;
    } else {
      var p := Pow2(k - 1);
      assert Pow2(k) == 2 * p;
      var z := Times(y, p);
      TimesDouble(y, p);
      hide Pow2;
      XorParts(y, r / 2, k - 1);
      XorHalf(r, 2 * z);
    }
  }

  // ---- shifting the register ----------------------------------------------

  /** One shift of the register. */
  function Step(c: nat): nat { if c % 2 == 1 then Xor(c / 2, POLY) else c / 2 }

  function Steps(c: nat, k: nat): nat
    decreases k
  {
    if k == 0 then c else Steps(Step(c), k - 1)
  }

  /** Shifting is linear. */
  lemma StepLinear(a: nat, b: nat)
    ensures Step(Xor(a, b)) == Xor(Step(a), Step(b))
  {
    XorHalf(a, b);
    hide Xor;
    XorCancels(a / 2, b / 2, POLY);
    XorCancels(b / 2, a / 2, POLY);
    XorCommutes(a / 2, Xor(b / 2, POLY));
    XorCommutes(b / 2, a / 2);
  }

  lemma {:induction false} StepsLinear(a: nat, b: nat, k: nat)
    ensures Steps(Xor(a, b), k) == Xor(Steps(a, k), Steps(b, k))
    decreases k
  {
    hide Step, Xor;
    if k > 0 {
      StepLinear(a, b);
      StepsLinear(Step(a), Step(b), k - 1);
    }
  }

  lemma TimesDouble(y: nat, p: nat)
    ensures Times(y, 2 * p) == 2 * Times(y, p)
  {
    assert y * (2 * p) == 2 * (y * p);
  }

  lemma {:induction false} StepsShift(y: nat, k: nat)
    ensures Steps(Times(y, Pow2(k)), k) == y
  {
    if k == 0 {
      assert Pow2(0) == 1;
    } else {
      var p := Pow2(k - 1);
      assert Pow2(k) == 2 * p;
      hide Pow2, Xor, Times;
      TimesDouble(y, p);
      assert Step(2 * Times(y, p)) == Times(y, p);
      StepsShift(y, k - 1);
    }
  }

  /** Eight shifts: a table entry for the low byte, and the rest moved down. */
  lemma EightSteps(x: nat)
    ensures Steps(x, 8) == Xor(Steps(x % 256, 8), x / 256)
  {
    hide Steps, Xor, Pow2;
    Pow2Eight();
    var y, r := x / 256, x % 256;
    XorParts(y, r, 8);
    assert x == Times(y, Pow2(8)) + r;
    StepsLinear(r, Times(y, Pow2(8)), 8);
    StepsShift(y, 8);
  }

  lemma XorByteHigh(c: nat, b: nat)
    requires b < 256
    ensures Xor(c, b) / 256 == c / 256
  {
    hide Pow2;
    Pow2Eight();
    XorShifted(c, b, 8);
    DivModUnique(b, 256, 0, b);
    ZeroXor(c / 256);
  }

  lemma {:induction false} XorShifted(a: nat, b: nat, k: nat)
    ensures Quot(Xor(a, b), Pow2(k)) == Xor(Quot(a, Pow2(k)), Quot(b, Pow2(k)))
  {
    if k == 0 {
      assert Pow2(0) == 1;
    } else {
      var p := Pow2(k - 1);
      assert Pow2(k) == 2 * p;
      hide Pow2;
      XorHalf(a, b);
      HalveBoth(a, p);
      HalveBoth(b, p);
      HalveBoth(Xor(a, b), p);
      XorShifted(a / 2, b / 2, k - 1);
    }
  }

  // ---- checksums ----------------------------------------------------------

  /** Feed k message bits, least significant first. */
  function FeedBits(c: nat, b: nat, k: nat): nat
    decreases k
  {
    if k == 0 then c else FeedBits(Step(Xor(c, b % 2)), b / 2, k - 1)
  }

  /** Feeding the bits one by one is xoring them in and shifting. */
  lemma {:induction false} FeedBitsIsSteps(c: nat, b: nat, k: nat)
    requires b < Pow2(k)
    ensures FeedBits(c, b, k) == Steps(Xor(c, b), k)
    decreases k
  {
    if k == 0 {
      ZeroXor(c);
    } else {
      var bit, rest := b % 2, b / 2;
      hide Pow2, Step;
      Pow2Half(b, k);
      FeedBitsIsSteps(Step(Xor(c, bit)), rest, k - 1);
      BitThenRest(c, bit, rest);
    }
  }

  lemma Pow2Half(b: nat, k: nat)
    requires k > 0 && b < Pow2(k)
    ensures b / 2 < Pow2(k - 1)
  {
  }

  lemma BitThenRest(c: nat, bit: nat, rest: nat)
    requires bit < 2
    ensures Xor(Step(Xor(c, bit)), rest) == Step(Xor(c, 2 * rest + bit))
  {
    assert Xor(bit, 2 * rest) == 2 * rest + bit;
    assert Step(2 * rest) == rest;
    hide Xor, Step;
    XorAssociates(c, bit, 2 * rest);
    StepLinear(Xor(c, bit), 2 * rest);
  }

  predicate Bytes(data: seq<nat>) {
    forall i {:trigger data[i]} :: 0 <= i < |data| ==> data[i] < 256
  }

  /** The register after the data, bit by bit. */
  function BitRegister(data: seq<nat>, k: nat): nat
    requires k <= |data|
  {
    if k == 0 then ALL_ONES else FeedBits(BitRegister(data, k - 1), data[k - 1], 8)
  }

  function BitCrc(data: seq<nat>): nat { Xor(BitRegister(data, |data|), ALL_ONES) }

  /** The table has every byte's eight shifts. */
  ghost predicate IsTable(table: seq<nat>) {
    |table| == 256 && forall i {:trigger table[i]} :: 0 <= i < 256 ==> table[i] == Steps(i, 8)
  }

  method InitTable() returns (table: seq<nat>)
    ensures IsTable(table)
  {
    table := [];
    for i := 0 to 256
      invariant |table| == i && forall j {:trigger table[j]} :: 0 <= j < i ==> table[j] == Steps(j, 8)
    {
      var crc := i;
      for n := 0 to 8
        invariant Steps(crc, 8 - n) == Steps(i, 8)
      {
        if crc % 2 == 1 {
          crc := Xor(crc / 2, POLY);
        } else {
          crc := crc / 2;
        }
      }
      table := table + [crc];
    }
  }

  /** The table-driven loop computes the bit-at-a-time checksum. */
  method TableCrc(data: seq<nat>, table: seq<nat>) returns (crc: nat)
    requires Bytes(data) && IsTable(table)
    ensures crc == BitCrc(data)
  {
    hide Steps, Xor, IsTable, Pow2;
    crc := ALL_ONES;
    for i := 0 to |data|
      invariant crc == BitRegister(data, i)
    {
      TableStep(crc, data[i], table);
      crc := Xor(table[Xor(crc, data[i]) % 256], crc / 256);
    }
    crc := Xor(crc, ALL_ONES);
  }

  lemma TableStep(crc: nat, b: nat, table: seq<nat>)
    requires b < 256 && IsTable(table)
    ensures |table| == 256 && Xor(table[Xor(crc, b) % 256], crc / 256) == FeedBits(crc, b, 8)
  {
    hide Steps, Xor, Pow2, FeedBits;
    Pow2Eight();
    FeedBitsIsSteps(crc, b, 8);
    EightSteps(Xor(crc, b));
    XorByteHigh(crc, b);
  }
}
