/** The slot allocator's bitmap: one bit per slot in 64-bit words. */
module CapBitmap {
  import opened Bits

  const WORD: nat := 64

  ghost predicate Bitmap(b: seq<nat>, occ: seq<bool>) {
    && |b| == (|occ| + 63) / 64
    && (forall w {:trigger b[w]} :: 0 <= w < |b| ==> b[w] < Pow2(WORD))
    && (forall i {:trigger BitOf(b, i)} :: 0 <= i < 64 * |b| ==> (BitOf(b, i) <==> i < |occ| && occ[i]))
  }

  predicate BitOf(b: seq<nat>, i: nat)
    requires i < 64 * |b|
  {
    Bit(b[i / 64], i % 64)
  }

  lemma {:induction false} AndPow2(w: nat, k: nat)
    ensures And(w, Pow2(k)) == if Bit(w, k) then Pow2(k) else 0
  {
    if k == 0 {
      if w > 0 { assert And(w / 2, 0) == 0; }
    } else if w == 0 {
      BitZero(k);
    } else {
      AndPow2(w / 2, k - 1);
    }
  }

  function SetBit(b: seq<nat>, i: nat): (r: seq<nat>)
    requires i < 64 * |b|
    ensures |r| == |b|
  {
    b[i / 64 := Or(b[i / 64], Pow2(i % 64))]
  }

  function ClearBit(b: seq<nat>, i: nat): (r: seq<nat>)
    requires i < 64 * |b|
    ensures |r| == |b|
  {
    Pow2Less(i % 64, WORD);
    b[i / 64 := And(b[i / 64], Not(Pow2(i % 64), WORD))]
  }

  lemma SetBitOf(b: seq<nat>, i: nat, j: nat)
    requires i < 64 * |b| && j < 64 * |b|
    ensures BitOf(SetBit(b, i), j) <==> i == j || BitOf(b, j)
  {
    if j / 64 == i / 64 {
      BitOr(b[i / 64], Pow2(i % 64), j % 64);
      BitPow2(i % 64, j % 64);
    }
  }

  lemma ClearBitOf(b: seq<nat>, i: nat, j: nat)
    requires i < 64 * |b| && j < 64 * |b|
    ensures BitOf(ClearBit(b, i), j) <==> i != j && BitOf(b, j)
  {
    if j / 64 == i / 64 {
      Pow2Less(i % 64, WORD);
      BitAnd(b[i / 64], Not(Pow2(i % 64), WORD), j % 64);
      BitNot(Pow2(i % 64), WORD, j % 64);
      BitPow2(i % 64, j % 64);
    }
  }

  lemma SetBitmap(b: seq<nat>, occ: seq<bool>, i: nat)
    requires Bitmap(b, occ) && i < |occ|
    ensures Bitmap(SetBit(b, i), occ[i := true])
  {
    Pow2Less(i % 64, WORD);
    OrBound(b[i / 64], Pow2(i % 64), WORD);
    forall j | 0 <= j < 64 * |b|
      ensures BitOf(SetBit(b, i), j) <==> j < |occ| && occ[i := true][j]
    {
      assert BitOf(b, j) <==> j < |occ| && occ[j];
      SetBitOf(b, i, j);
    }
  }

  lemma ClearBitmap(b: seq<nat>, occ: seq<bool>, i: nat)
    requires Bitmap(b, occ) && i < |occ|
    ensures Bitmap(ClearBit(b, i), occ[i := false])
  {
    Pow2Less(i % 64, WORD);
    AndBound(b[i / 64], Not(Pow2(i % 64), WORD));
    forall j | 0 <= j < 64 * |b|
      ensures BitOf(ClearBit(b, i), j) <==> j < |occ| && occ[i := false][j]
    {
      assert BitOf(b, j) <==> j < |occ| && occ[j];
      ClearBitOf(b, i, j);
    }
  }

  /** The kernel's test of one bit. */
  lemma TestBit(b: seq<nat>, occ: seq<bool>, i: nat)
    requires Bitmap(b, occ) && i < |occ|
    ensures i < 64 * |b|
    ensures And(b[i / 64], Pow2(i % 64)) == 0 <==> !occ[i]
  {
    AndPow2(b[i / 64], i % 64);
    assert BitOf(b, i) <==> occ[i];
  }

  // ---- counting -----------------------------------------------------------

  function CountOnes(w: nat): nat {
    if w == 0 then 0 else w % 2 + CountOnes(w / 2)
  }

  /** Bits of the whole bitmap set below position n. */
  ghost function SetBelow(b: seq<nat>, n: nat): set<nat>
    requires n <= 64 * |b|
  {
    set i | 0 <= i < n && BitOf(b, i)
  }

  lemma {:induction false} OnesInWord(b: seq<nat>, w: nat, k: nat, n: nat)
    requires n < |b| && w < Pow2(k) && k <= 64
    requires forall i {:trigger Bit(w, i)} :: 0 <= i < k ==> (Bit(w, i) <==> Bit(b[n], 64 - k + i))
    ensures |SetBelow(b, 64 * (n + 1))| == |SetBelow(b, 64 * n + 64 - k)| + CountOnes(w)
    decreases k
  {
    if k > 0 {
      var p := 64 * n + 64 - k;
      assert p / 64 == n && p % 64 == 64 - k;
      assert BitOf(b, p) <==> Bit(w, 0);
      OneBitMore(b, p, w % 2 == 1);
      hide SetBelow;
      forall i | 0 <= i < k - 1
        ensures Bit(w / 2, i) <==> Bit(b[n], 64 - (k - 1) + i)
      {
        assert Bit(w, i + 1) <==> Bit(b[n], 64 - k + (i + 1));
      }
      OnesInWord(b, w / 2, k - 1, n);
    }
  }

  lemma OneBitMore(b: seq<nat>, p: nat, on: bool)
    requires p < 64 * |b| && (BitOf(b, p) <==> on)
    ensures |SetBelow(b, p + 1)| == |SetBelow(b, p)| + BitVal(on)
  {
    assert SetBelow(b, p + 1) == if on then SetBelow(b, p) + {p} else SetBelow(b, p);
  }

  lemma WordOnes(b: seq<nat>, n: nat)
    requires n < |b| && b[n] < Pow2(WORD)
    ensures |SetBelow(b, 64 * (n + 1))| == |SetBelow(b, 64 * n)| + CountOnes(b[n])
  {
    OnesInWord(b, b[n], 64, n);
  }
}
