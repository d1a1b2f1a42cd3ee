/** What the manifest's checksum catches: every change of one byte, except one that switches
    the check off. */
module ManifestGuard {
  import opened Bits
  import opened Crc64
  import opened Manifest

  // ---- differences never vanish from the register --------------------------

  lemma {:induction false} XorZero(a: nat, b: nat)
    ensures Xor(a, b) == 0 <==> a == b
  {
    if a != 0 && b != 0 {
      XorHalf(a, b);
      XorZero(a / 2, b / 2);
    }
  }

  lemma TopBit()
    ensures Pow2(62) <= POLY < Pow2(63) && Pow2(63) == 2 * Pow2(62) && Pow2(62) > 256
  {
    hide Pow2;
    Pow2Values();
    assert Pow2(63) == 2 * Pow2(62) by { Pow2Double(62); }
    assert Pow2(64) == 2 * Pow2(63) by { Pow2Double(63); }
  }

  lemma Pow2Double(k: nat)
    ensures Pow2(k + 1) == 2 * Pow2(k)
  {
  }

  /** The polynomial has bit 62, so a shift loses nothing of a difference below 2^63. */
  lemma StepKeepsDifference(d: nat)
    requires 0 < d < Pow2(63)
    ensures 0 < Step(d) < Pow2(63)
  {
    hide Pow2, Xor;
    TopBit();
    if d % 2 == 1 {
      XorZero(d / 2, POLY);
      XorBound(d / 2, POLY, 63);
    }
  }

  lemma {:induction false} StepsKeepDifference(d: nat, k: nat)
    requires 0 < d < Pow2(63)
    ensures 0 < Steps(d, k) < Pow2(63)
    decreases k
  {
    hide Pow2, Step;
    if k > 0 {
      StepKeepsDifference(d);
      StepsKeepDifference(Step(d), k - 1);
    }
  }

  /** How two registers differ after a byte each. */
  lemma ByteDifference(c: nat, e: nat, x: nat, y: nat)
    requires x < 256 && y < 256
    ensures Xor(FeedBits(c, x, 8), FeedBits(e, y, 8)) == Steps(Xor(Xor(c, e), Xor(x, y)), 8)
  {
    hide Pow2, Xor, Steps, FeedBits;
    Pow2Eight();
    FeedBitsIsSteps(c, x, 8);
    FeedBitsIsSteps(e, y, 8);
    StepsLinear(Xor(c, x), Xor(e, y), 8);
    XorAssociates(c, x, Xor(e, y));
    XorAssociates(x, e, y);
    XorCommutes(x, e);
    XorAssociates(e, x, y);
    XorAssociates(c, e, Xor(x, y));
  }

  ghost predicate OneDiffers(a: seq<nat>, b: seq<nat>, i: nat) {
    && |a| == |b| && i < |a| && a[i] != b[i] && Bytes(a) && Bytes(b)
    && forall j {:trigger a[j]} {:trigger b[j]} :: 0 <= j < |a| && j != i ==> a[j] == b[j]
  }

  lemma {:induction false} RegistersDiffer(a: seq<nat>, b: seq<nat>, i: nat, k: nat)
    requires OneDiffers(a, b, i) && k <= |a|
    ensures k <= i ==> BitRegister(a, k) == BitRegister(b, k)
    ensures k > i ==> 0 < Xor(BitRegister(a, k), BitRegister(b, k)) < Pow2(63)
    decreases k
  {
    hide Pow2, Xor, FeedBits, Steps;
    if k > 0 {
      RegistersDiffer(a, b, i, k - 1);
      var c, e, x, y := BitRegister(a, k - 1), BitRegister(b, k - 1), a[k - 1], b[k - 1];
      if k > i {
        ByteDifference(c, e, x, y);
        NewDifference(c, e, x, y);
        StepsKeepDifference(Xor(Xor(c, e), Xor(x, y)), 8);
      }
    }
  }

  /** Equal registers and different bytes, or different registers and equal bytes. */
  lemma NewDifference(c: nat, e: nat, x: nat, y: nat)
    requires x < 256 && y < 256
    requires (c == e && x != y) || (x == y && 0 < Xor(c, e) < Pow2(63))
    ensures 0 < Xor(Xor(c, e), Xor(x, y)) < Pow2(63)
  {
    hide Pow2, Xor;
    TopBit();
    XorZero(c, e);
    XorZero(x, y);
    ZeroXor(Xor(c, e));
    ZeroXor(Xor(x, y));
    Pow2Eight();
    XorBound(x, y, 8);
  }

  /** Data that differ in one byte have different checksums. */
  lemma ChecksumsDiffer(a: seq<nat>, b: seq<nat>, i: nat)
    requires OneDiffers(a, b, i)
    ensures BitCrc(a) != BitCrc(b)
  {
    hide Pow2, Xor, BitRegister;
    RegistersDiffer(a, b, i, |a|);
    var c, e := BitRegister(a, |a|), BitRegister(b, |b|);
    XorCancels(c, e, ALL_ONES);
    XorZero(Xor(c, ALL_ONES), Xor(e, ALL_ONES));
  }

  // ---- fields of a changed manifest ---------------------------------------

  lemma {:induction false} ValuesDiffer(s: seq<nat>, t: seq<nat>)
    requires |s| == |t| && Bytes(s) && Bytes(t) && Value(s) == Value(t)
    ensures s == t
  {
    ValueRoundTrip(s);
    ValueRoundTrip(t);
  }

  lemma ReadChanged(s: seq<nat>, i: nat, b: nat, off: nat, k: nat)
    requires off + k <= |s| && i < |s| && Bytes(s) && b < 256
    ensures i < off || i >= off + k ==> Read(s[i := b], off, k) == Read(s, off, k)
    ensures off <= i < off + k && b != s[i] ==> Read(s[i := b], off, k) != Read(s, off, k)
  {
    hide Value;
    var t := s[i := b];
    var x, y := s[off..off + k], t[off..off + k];
    if i < off || i >= off + k {
      assert x == y;
    } else if b != s[i] {
      assert x[i - off] == s[i] && y[i - off] == b;
      if Value(x) == Value(y) { ValuesDiffer(x, y); }
    }
  }

  lemma LowBit(s: seq<nat>, off: nat)
    requires off + 4 <= |s|
    ensures Read(s, off, 4) % 2 == s[off] % 2
  {
    var x := s[off..off + 4];
    assert Value(x) == x[0] + 256 * Value(x[1..]);
  }

  /** A manifest whose checksum is not that of its bytes is refused. */
  lemma WrongChecksumRefused(s: seq<nat>)
    requires |s| >= 40 && 40 <= Read(s, 12, 4) <= |s| && s[16] % 2 == 1
    requires BitCrc((s[..32] + Zeros(8) + s[40..])[..Read(s, 12, 4)]) != Read(s, 32, 8)
    ensures !HeaderOk(s)
  {
    hide BitCrc, Read;
    LowBit(s, 16);
  }

  lemma ZeroedChange(s: seq<nat>, i: nat, b: nat, n: nat)
    requires 40 <= n <= |s| && i < n && Bytes(s) && b < 256 && b != s[i]
    ensures 32 <= i < 40 ==> Zeroed(s[i := b])[..n] == Zeroed(s)[..n]
    ensures i < 32 || i >= 40 ==> OneDiffers(Zeroed(s)[..n], Zeroed(s[i := b])[..n], i)
  {
    var t := s[i := b];
    if 32 <= i < 40 {
      assert t[..32] == s[..32] && t[40..] == s[40..];
    }
  }

  // ---- the guard ----------------------------------------------------------

  /** A manifest that passes with its checksum no longer passes after any one of its bytes is
      changed, unless the change is to the size field or switches the check off. */
  lemma OneByteRefused(s: seq<nat>, i: nat, b: nat)
    requires HeaderOk(s) && Bytes(s) && s[16] % 2 == 1 && i < Read(s, 12, 4) && b < 256 && b != s[i]
    requires !(12 <= i < 16) && (i == 16 ==> b % 2 == 1)
    ensures !HeaderOk(s[i := b])
  {
    hide BitCrc, Read, Zeroed;
    var t, n := s[i := b], Read(s, 12, 4);
    LowBit(s, 16);
    LowBit(t, 16);
    ReadChanged(s, i, b, 12, 4);
    ReadChanged(s, i, b, 32, 8);
    ZeroedChange(s, i, b, n);
    if i < 32 || i >= 40 { ChecksumsDiffer(Zeroed(s)[..n], Zeroed(t)[..n], i); }
  }

  /** Clearing the flag: the same fields, and no checksum looked at. */
  lemma FlagCleared(s: seq<nat>, b: nat)
    requires HeaderOk(s) && Bytes(s) && b < 256 && b % 2 == 0
    ensures HeaderOk(s[16 := b])
  {
    hide BitCrc, Read, Zeroed;
    LowBit(s[16 := b], 16);
    ReadChanged(s, 16, b, 0, 8);
    ReadChanged(s, 16, b, 8, 2);
    ReadChanged(s, 16, b, 10, 2);
    ReadChanged(s, 16, b, 12, 4);
    ReadChanged(s, 16, b, 22, 2);
    ReadChanged(s, 16, b, 24, 8);
  }

  /** The size field of a manifest with nothing after it cannot be changed either. */
  lemma SizeRefused(s: seq<nat>, i: nat, b: nat)
    requires HeaderOk(s) && Bytes(s) && b < 256 && 12 <= i < 16 && b != s[i]
    requires Read(s, 12, 4) == |s| == 40 + 160 * Read(s, 22, 2) && Read(s, 24, 8) == 40 && Read(s, 10, 2) == 40
    ensures !HeaderOk(s[i := b])
  {
    hide BitCrc, Read, Zeroed;
    ReadChanged(s, i, b, 10, 2);
    ReadChanged(s, i, b, 12, 4);
    ReadChanged(s, i, b, 22, 2);
    ReadChanged(s, i, b, 24, 8);
  }

  lemma BuiltFields(parts: seq<Part>)
    requires CountFits(|parts|)
    ensures
      var s := ManifestBytes(parts);
      && HeaderOk(s) && Bytes(s) && |s| == 40 + 160 * |parts| && Read(s, 12, 4) == |s| && s[16] == 1
      && Read(s, 10, 2) == 40 && Read(s, 22, 2) == |parts| && Read(s, 24, 8) == 40
  {
    hide LE, Read, HeaderFront, BitCrc, HeaderOk;
    var s, n, table := ManifestBytes(parts), |parts|, EntryTable(parts);
    var crc := BitCrc(HeaderBytes(n, 0) + table);
    ManifestIsBytes(parts);
    BuiltIsValid(parts, []);
    assert s + [] == s;
    HeaderSplits(n, crc);
    assert s == HeaderFront(n) + (LE(crc, 8) + table);
    FrontReads(n, LE(crc, 8) + table);
    BackReads(n, LE(crc, 8) + table);
    FlagByte(s);
  }

  lemma FlagByte(s: seq<nat>)
    requires |s| >= 20 && Bytes(s) && Read(s, 16, 4) == 1
    ensures s[16] == 1
  {
    var x := s[16..20];
    assert Value(x) == x[0] + 256 * Value(x[1..]);
  }

  /** Exactly which one-byte changes of a built manifest the loader still takes: none, but for
      clearing the flag that asks for the check. */
  lemma BuiltGuarded(parts: seq<Part>, i: nat, b: nat)
    requires CountFits(|parts|) && i < |ManifestBytes(parts)| && b < 256
    ensures
      var s := ManifestBytes(parts);
      HeaderOk(s[i := b]) <==> b == s[i] || (i == 16 && b % 2 == 0)
  {
    hide HeaderOk, ManifestBytes, Read;
    var s := ManifestBytes(parts);
    BuiltFields(parts);
    if b == s[i] {
      assert s[i := b] == s;
    } else if i == 16 && b % 2 == 0 {
      FlagCleared(s, b);
    } else if 12 <= i < 16 {
      SizeRefused(s, i, b);
    } else {
      OneByteRefused(s, i, b);
    }
  }
}
