/** The boot manifest: what the image tool writes and what the loader reads back. */
module Manifest {
  import opened Bits
  import opened Crc64
  import opened CrcTable

  const MAGIC: nat := 0x5341_4C54_594D_414E
  const VERSION: nat := 1
  const HEADER_SIZE: nat := 40
  const ENTRY_SIZE: nat := 160
  const MAX_EXTENTS: nat := 8
  const SECTOR: nat := 512
  const KERNEL: nat := 1
  const INITRD: nat := 2
  const STAGE3: nat := 3

  function Zeros(n: nat): (s: seq<nat>)
    ensures |s| == n && Bytes(s)
  {
    seq(n, _ => 0)
  }

  // ---- little-endian fields -----------------------------------------------

  function Pow256(k: nat): (p: nat)
    ensures p > 0
  {
    if k == 0 then 1 else 256 * Pow256(k - 1)
  }

  function LE(n: nat, k: nat): (s: seq<nat>)
    ensures |s| == k && Bytes(s)
  {
    if k == 0 then [] else [n % 256] + LE(n / 256, k - 1)
  }

  function Value(s: seq<nat>): nat {
    if s == [] then 0 else s[0] + 256 * Value(s[1..])
  }

  lemma {:induction false} LERoundTrip(n: nat, k: nat)
    requires n < Pow256(k)
    ensures Value(LE(n, k)) == n
  {
    if k > 0 {
      LERoundTrip(n / 256, k - 1);
      assert LE(n, k)[1..] == LE(n / 256, k - 1);
    }
  }

  lemma Pow256Values()
    ensures Pow256(2) == 0x1_0000 && Pow256(4) == 0x1_0000_0000 && Pow256(8) == 0x1_0000_0000_0000_0000
  {
    assert Pow256(2) == 0x1_0000;
    assert Pow256(4) == 0x1_0000 * Pow256(2);
    assert Pow256(6) == 0x1_0000 * Pow256(4);
    assert Pow256(8) == 0x1_0000 * Pow256(6);
  }

  /** The little-endian number of k bytes at an offset. */
  function Read(s: seq<nat>, off: nat, k: nat): nat
    requires off + k <= |s|
  {
    Value(s[off..off + k])
  }

  lemma ReadWritten(front: seq<nat>, n: nat, k: nat, back: seq<nat>)
    requires n < Pow256(k)
    ensures Read(front + LE(n, k) + back, |front|, k) == n
  {
    LERoundTrip(n, k);
    assert (front + LE(n, k) + back)[|front|..|front| + k] == LE(n, k);
  }

  // ---- entries ------------------------------------------------------------

  /** What the tool records of one component. */
  datatype Part = Part(kind: nat, id: nat, size: nat, align: nat, lba: nat, sectors: nat)

  predicate PartFits(p: Part) {
    && p.kind < 0x1_0000 && p.id < 0x1_0000_0000 && p.size < 0x1_0000_0000_0000_0000
      && p.align < 0x1_0000_0000_0000_0000
    && p.lba < 0x1_0000_0000_0000_0000 && p.sectors < 0x1_0000_0000
  }

  function EntryBytes(p: Part): (s: seq<nat>)
    ensures |s| == ENTRY_SIZE
  {
    LE(p.kind, 2) + LE(0, 2) + LE(p.id, 4) + LE(p.size, 8) + LE(p.align, 8) + LE(1, 4) + LE(0, 4)
    + LE(p.lba, 8) + LE(p.sectors, 4) + LE(0, 4) + Zeros(112)
  }

  /** The fields of an entry at an offset, as the loader reads them. */
  datatype Extent = Extent(lba: nat, sectors: nat)
  datatype Entry = Entry(kind: nat, size: nat, count: nat, extents: seq<Extent>)

  function ReadExtents(s: seq<nat>, off: nat, k: nat): (e: seq<Extent>)
    requires off + 16 * k <= |s|
    ensures |e| == k
  {
    seq(k, i requires 0 <= i < k => Extent(Read(s, off + 16 * i, 8), Read(s, off + 16 * i + 8, 4)))
  }

  function ReadEntry(s: seq<nat>, off: nat): Entry
    requires off + ENTRY_SIZE <= |s|
  {
    Entry(Read(s, off, 2), Read(s, off + 8, 8), Read(s, off + 24, 4), ReadExtents(s, off + 32, MAX_EXTENTS))
  }

  lemma EntryReadsBack(p: Part)
    requires PartFits(p)
    ensures
      var e := ReadEntry(EntryBytes(p), 0);
      e.kind == p.kind && e.size == p.size && e.count == 1 && e.extents[0] == Extent(p.lba, p.sectors)
  {
    hide LE, Zeros, Read;
    Pow256Values();
    var s := EntryBytes(p);
    var a := LE(0, 2) + LE(p.id, 4) + LE(p.size, 8) + LE(p.align, 8) + LE(1, 4) + LE(0, 4) + LE(p.lba, 8)
      + LE(p.sectors, 4) + LE(0, 4) + Zeros(112);
    assert s == [] + LE(p.kind, 2) + a;
    ReadWritten([], p.kind, 2, a);
    var b := LE(p.kind, 2) + LE(0, 2) + LE(p.id, 4);
    var c := LE(p.align, 8) + LE(1, 4) + LE(0, 4) + LE(p.lba, 8)
      + LE(p.sectors, 4) + LE(0, 4) + Zeros(112);
    assert s == b + LE(p.size, 8) + c;
    ReadWritten(b, p.size, 8, c);
    EntryTail(p, s, b);
  }

  lemma EntryTail(p: Part, s: seq<nat>, b: seq<nat>)
    requires PartFits(p) && s == EntryBytes(p) && b == LE(p.kind, 2) + LE(0, 2) + LE(p.id, 4)
    ensures Read(s, 24, 4) == 1 && Read(s, 32, 8) == p.lba && Read(s, 40, 4) == p.sectors
  {
    hide LE, Zeros, Read;
    Pow256Values();
    var d := b + LE(p.size, 8) + LE(p.align, 8);
    var e := LE(0, 4) + LE(p.lba, 8) + LE(p.sectors, 4) + LE(0, 4) + Zeros(112);
    assert s == d + LE(1, 4) + e;
    ReadWritten(d, 1, 4, e);
    var f := d + LE(1, 4) + LE(0, 4);
    assert s == f + LE(p.lba, 8) + (LE(p.sectors, 4) + LE(0, 4) + Zeros(112));
    ReadWritten(f, p.lba, 8, LE(p.sectors, 4) + LE(0, 4) + Zeros(112));
    assert s == (f + LE(p.lba, 8)) + LE(p.sectors, 4) + (LE(0, 4) + Zeros(112));
    ReadWritten(f + LE(p.lba, 8), p.sectors, 4, LE(0, 4) + Zeros(112));
  }

  // ---- the manifest -------------------------------------------------------

  function EntryTable(parts: seq<Part>): (s: seq<nat>)
    ensures |s| == ENTRY_SIZE * |parts|
  {
    if parts == [] then [] else EntryTable(parts[..|parts| - 1]) + EntryBytes(parts[|parts| - 1])
  }

  function HeaderBytes(count: nat, checksum: nat): (s: seq<nat>)
    ensures |s| == HEADER_SIZE
  {
    LE(MAGIC, 8) + LE(VERSION, 2) + LE(HEADER_SIZE, 2) + LE(HEADER_SIZE + ENTRY_SIZE * count, 4) + LE(1, 4)
    + LE(1, 2) + LE(count, 2) + LE(HEADER_SIZE, 8) + LE(checksum, 8)
  }

  function ManifestBytes(parts: seq<Part>): seq<nat> {
    var crc := BitCrc(HeaderBytes(|parts|, 0) + EntryTable(parts));
    HeaderBytes(|parts|, crc) + EntryTable(parts)
  }

  // ---- validation ---------------------------------------------------------

  function Zeroed(s: seq<nat>): (z: seq<nat>)
    requires |s| >= HEADER_SIZE
    ensures |z| == |s|
  {
    s[..32] + Zeros(8) + s[40..]
  }

  /** The loader's check of a buffer that starts with a manifest. */
  predicate HeaderOk(s: seq<nat>) {
    && |s| >= HEADER_SIZE
    && Read(s, 0, 8) == MAGIC && Read(s, 8, 2) == VERSION
    && var headerSize, size, count, off := Read(s, 10, 2), Read(s, 12, 4), Read(s, 22, 2), Read(s, 24, 8);
    && headerSize >= HEADER_SIZE && headerSize <= size <= |s|
    && (count > 0 ==> headerSize <= off <= size && off + count * ENTRY_SIZE <= size)
    && (Read(s, 16, 4) % 2 == 1 ==> BitCrc(Zeroed(s)[..size]) == Read(s, 32, 8))
  }

  lemma {:induction false} ValueRoundTrip(s: seq<nat>)
    requires Bytes(s)
    ensures LE(Value(s), |s|) == s
  {
    if s != [] {
      var n := Value(s);
      ByteFirst(s[0], Value(s[1..]));
      hide Value;
      ValueRoundTrip(s[1..]);
      LENext(n, |s|);
      assert LE(n, |s|) == [s[0]] + s[1..] == s;
    }
  }

  lemma ByteFirst(b: nat, rest: nat)
    requires b < 256
    ensures (b + 256 * rest) % 256 == b && (b + 256 * rest) / 256 == rest
  {
  }

  /** Store k bytes of n at an offset. */
  method WriteLE(buffer: array<nat>, off: nat, n: nat, k: nat)
    requires off + k <= buffer.Length
    modifies buffer
    ensures buffer[..] == old(buffer[..off]) + LE(n, k) + old(buffer[off + k..])
  {
    hide LE;
    var rest := n;
    ghost var all, was := LE(n, k), buffer[..];
    for i := 0 to k
      invariant all[i..] == LE(rest, k - i) && buffer[..] == was[..off] + all[..i] + was[off + i..]
    {
      LENext(rest, k - i);
      Advance(all, i);
      buffer[off + i] := rest % 256;
      Overwritten(was, off, all, i);
      rest := rest / 256;
    }
  }

  lemma Overwritten(was: seq<nat>, off: nat, all: seq<nat>, i: nat)
    requires off + |all| <= |was| && i < |all|
    ensures (was[..off] + all[..i] + was[off + i..])[off + i :=
      all[i]] == was[..off] + all[..i + 1] + was[off + i + 1..]
  {
  }

  lemma LENext(n: nat, k: nat)
    requires k > 0
    ensures LE(n, k)[0] == n % 256 && LE(n, k)[1..] == LE(n / 256, k - 1)
  {
  }

  lemma Advance(s: seq<nat>, i: nat)
    requires i < |s|
    ensures s[i..][0] == s[i] && s[i..][1..] == s[i + 1..] && s[..i + 1] == s[..i] + [s[i]]
  {
  }

  /** Check a manifest.  The checksum field is zeroed while the checksum is computed and
      restored afterwards. */
  method HeaderValid(buffer: array<nat>) returns (ok: bool)
    requires Bytes(buffer[..])
    modifies buffer
    ensures buffer[..] == old(buffer[..])
    ensures ok <==> HeaderOk(buffer[..])
  {
    hide BitCrc;
    ghost var s := buffer[..];
    if buffer.Length < HEADER_SIZE { return false; }
    if Read(buffer[..], 0, 8) != MAGIC { return false; }
    if Read(buffer[..], 8, 2) != VERSION { return false; }
    var headerSize, size := Read(buffer[..], 10, 2), Read(buffer[..], 12, 4);
    if headerSize < HEADER_SIZE { return false; }
    if size < headerSize { return false; }
    if size > buffer.Length { return false; }
    var count, off := Read(buffer[..], 22, 2), Read(buffer[..], 24, 8);
    if count > 0 {
      if off < headerSize { return false; }
      if off > size { return false; }
      if off + count * ENTRY_SIZE > size { return false; }
    }
    if Read(buffer[..], 16, 4) % 2 == 1 {
      var saved, computed := ZeroedCrc(buffer, size);
      if computed != saved { return false; }
    }
    return true;
  }

  method ZeroedCrc(buffer: array<nat>, size: nat) returns (saved: nat, computed: nat)
    requires Bytes(buffer[..]) && HEADER_SIZE <= size <= buffer.Length
    modifies buffer
    ensures buffer[..] == old(buffer[..])
    ensures saved == Read(buffer[..], 32, 8) && computed == BitCrc(Zeroed(buffer[..])[..size])
  {
    hide IsTable, BitCrc, LE, Value;
    ghost var s := buffer[..];
    saved := Read(buffer[..], 32, 8);
    WriteLE(buffer, 32, 0, 8);
    ZeroField();
    assert buffer[..] == Zeroed(s);
    assert Bytes(Zeroed(s)[..size]);
    LoaderTable();
    computed := TableCrc(buffer[..][..size], LOADER_TABLE);
    WriteLE(buffer, 32, saved, 8);
    ValueRoundTrip(s[32..40]);
    assert s == s[..32] + s[32..40] + s[40..];
    assert Zeroed(s)[..32] == s[..32] && Zeroed(s)[40..] == s[40..];
  }

  lemma ZeroField()
    ensures LE(0, 8) == Zeros(8)
  {
    ZeroFields(8);
  }

  lemma {:induction false} ZeroFields(k: nat)
    ensures LE(0, k) == Zeros(k)
  {
    if k > 0 {
      ZeroFields(k - 1);
      assert Zeros(k) == [0] + Zeros(k - 1);
    }
  }

  // ---- written manifests are valid ----------------------------------------

  /** The header up to its checksum. */
  function HeaderFront(count: nat): (s: seq<nat>)
    ensures |s| == 32
  {
    LE(MAGIC, 8) + LE(VERSION, 2) + LE(HEADER_SIZE, 2) + LE(HEADER_SIZE + ENTRY_SIZE * count, 4) + LE(1, 4)
    + LE(1, 2) + LE(count, 2) + LE(HEADER_SIZE, 8)
  }

  lemma HeaderSplits(count: nat, checksum: nat)
    ensures HeaderBytes(count, checksum) == HeaderFront(count) + LE(checksum, 8)
  {
    hide LE;
  }

  predicate CountFits(count: nat) { HEADER_SIZE + ENTRY_SIZE * count < 0x1_0000_0000 && count < 0x1_0000 }

  lemma FrontReads(count: nat, back: seq<nat>)
    requires CountFits(count)
    ensures
      var s := HeaderFront(count) + back;
      && Read(s, 0, 8) == MAGIC && Read(s, 8, 2) == VERSION && Read(s, 10, 2) == HEADER_SIZE
      && Read(s, 12, 4) == HEADER_SIZE + ENTRY_SIZE * count
  {
    hide LE, Read;
    Pow256Values();
    var s, n := HeaderFront(count) + back, HEADER_SIZE + ENTRY_SIZE * count;
    var f := LE(1, 4) + LE(1, 2) + LE(count, 2) + LE(HEADER_SIZE, 8) + back;
    var e := LE(n, 4) + f;
    var d := LE(HEADER_SIZE, 2) + e;
    var c := LE(VERSION, 2) + d;
    assert s == [] + LE(MAGIC, 8) + c;
    ReadWritten([], MAGIC, 8, c);
    assert s == LE(MAGIC, 8) + LE(VERSION, 2) + d;
    ReadWritten(LE(MAGIC, 8), VERSION, 2, d);
    var b := LE(MAGIC, 8) + LE(VERSION, 2);
    assert s == b + LE(HEADER_SIZE, 2) + e;
    ReadWritten(b, HEADER_SIZE, 2, e);
    assert s == (b + LE(HEADER_SIZE, 2)) + LE(n, 4) + f;
    ReadWritten(b + LE(HEADER_SIZE, 2), n, 4, f);
  }

  lemma BackReads(count: nat, back: seq<nat>)
    requires CountFits(count)
    ensures
      var s := HeaderFront(count) + back;
      Read(s, 16, 4) == 1 && Read(s, 22, 2) == count && Read(s, 24, 8) == HEADER_SIZE
  {
    hide LE, Read;
    Pow256Values();
    var s, n := HeaderFront(count) + back, HEADER_SIZE + ENTRY_SIZE * count;
    var b := LE(MAGIC, 8) + LE(VERSION, 2) + LE(HEADER_SIZE, 2) + LE(n, 4);
    var f := LE(1, 2) + LE(count, 2) + LE(HEADER_SIZE, 8) + back;
    assert s == b + LE(1, 4) + f;
    ReadWritten(b, 1, 4, f);
    var c, g := b + LE(1, 4) + LE(1, 2), LE(HEADER_SIZE, 8) + back;
    assert s == c + LE(count, 2) + g;
    ReadWritten(c, count, 2, g);
    assert s == (c + LE(count, 2)) + LE(HEADER_SIZE, 8) + back;
    ReadWritten(c + LE(count, 2), HEADER_SIZE, 8, back);
  }

  /** Every manifest the tool builds passes the loader's check, whatever follows it. */
  lemma BuiltIsValid(parts: seq<Part>, pad: seq<nat>)
    requires CountFits(|parts|)
    ensures HeaderOk(ManifestBytes(parts) + pad)
    ensures Read(ManifestBytes(parts) + pad, 22, 2) == |parts| && Read(ManifestBytes(parts) + pad, 24, 8) == HEADER_SIZE
  {
    hide LE, Read, HeaderFront, BitCrc;
    var n, table := |parts|, EntryTable(parts);
    var crc := BitCrc(HeaderBytes(n, 0) + table);
    var front, s := HeaderFront(n), ManifestBytes(parts) + pad;
    HeaderSplits(n, crc);
    HeaderSplits(n, 0);
    Regrouped(front, LE(crc, 8), table, pad);
    FrontReads(n, LE(crc, 8) + table + pad);
    BackReads(n, LE(crc, 8) + table + pad);
    CrcFits(HeaderBytes(n, 0) + table);
    Pow256Values();
    ReadWritten(front, crc, 8, table + pad);
    ZeroField();
    ZeroedIs(front, LE(crc, 8), table, pad);
  }

  lemma Regrouped(a: seq<nat>, b: seq<nat>, c: seq<nat>, d: seq<nat>)
    ensures a + b + c + d == a + (b + c + d) && a + b + c + d == a + b + (c + d)
  {
  }

  lemma ZeroedIs(front: seq<nat>, field: seq<nat>, table: seq<nat>, pad: seq<nat>)
    requires |front| == 32 && |field| == 8
    ensures Zeroed(front + field + table + pad)[..40 + |table|] == front + Zeros(8) + table
  {
    var s := front + field + table + pad;
    assert s[..32] == front && s[40..] == table + pad;
  }

  // ---- the checksum is a 64-bit word --------------------------------------

  lemma {:induction false} XorBound(a: nat, b: nat, k: nat)
    requires a < Pow2(k) && b < Pow2(k)
    ensures Xor(a, b) < Pow2(k)
    decreases k
  {
    if k > 0 && a != 0 && b != 0 { XorBound(a / 2, b / 2, k - 1); }
  }

  lemma {:induction false} FeedBound(c: nat, b: nat, k: nat)
    requires c < Pow2(64)
    ensures FeedBits(c, b, k) < Pow2(64)
    decreases k
  {
    hide Pow2, Xor, Step;
    if k > 0 {
      StepBound(c, b % 2);
      FeedBound(Step(Xor(c, b % 2)), b / 2, k - 1);
    }
  }

  lemma StepBound(c: nat, bit: nat)
    requires c < Pow2(64) && bit < 2
    ensures Step(Xor(c, bit)) < Pow2(64)
  {
    hide Pow2, Xor;
    Pow2Values();
    XorBound(c, bit, 64);
    XorBound(Xor(c, bit) / 2, POLY, 64);
  }

  lemma {:induction false} RegisterBound(data: seq<nat>, k: nat)
    requires k <= |data|
    ensures BitRegister(data, k) < Pow2(64)
  {
    hide Pow2, FeedBits;
    Pow2Values();
    if k > 0 {
      RegisterBound(data, k - 1);
      FeedBound(BitRegister(data, k - 1), data[k - 1], 8);
    }
  }

  lemma CrcFits(data: seq<nat>)
    ensures BitCrc(data) < Pow256(8)
  {
    hide Pow2, Xor;
    Pow2Values();
    Pow256Values();
    RegisterBound(data, |data|);
    XorBound(BitRegister(data, |data|), ALL_ONES, 64);
  }

  // ---- manifests are bytes ------------------------------------------------

  lemma BytesConcat(a: seq<nat>, b: seq<nat>)
    requires Bytes(a) && Bytes(b)
    ensures Bytes(a + b)
  {
  }

  lemma EntryIsBytes(p: Part)
    ensures Bytes(EntryBytes(p))
  {
    hide LE, Zeros, Bytes;
    var a := LE(p.kind, 2) + LE(0, 2);
    BytesConcat(LE(p.kind, 2), LE(0, 2));
    BytesConcat(a, LE(p.id, 4));
    BytesConcat(a + LE(p.id, 4), LE(p.size, 8));
    var b := a + LE(p.id, 4) + LE(p.size, 8);
    BytesConcat(b, LE(p.align, 8));
    BytesConcat(b + LE(p.align, 8), LE(1, 4));
    var c := b + LE(p.align, 8) + LE(1, 4);
    BytesConcat(c, LE(0, 4));
    BytesConcat(c + LE(0, 4), LE(p.lba, 8));
    var d := c + LE(0, 4) + LE(p.lba, 8);
    BytesConcat(d, LE(p.sectors, 4));
    BytesConcat(d + LE(p.sectors, 4), LE(0, 4));
    BytesConcat(d + LE(p.sectors, 4) + LE(0, 4), Zeros(112));
  }

  lemma {:induction false} TableIsBytes(parts: seq<Part>)
    ensures Bytes(EntryTable(parts))
  {
    hide EntryBytes;
    if parts != [] {
      TableIsBytes(parts[..|parts| - 1]);
      EntryIsBytes(parts[|parts| - 1]);
      BytesConcat(EntryTable(parts[..|parts| - 1]), EntryBytes(parts[|parts| - 1]));
    }
  }

  lemma ManifestIsBytes(parts: seq<Part>)
    ensures Bytes(ManifestBytes(parts))
  {
    hide LE, BitCrc;
    var n := |parts|;
    var crc := BitCrc(HeaderBytes(n, 0) + EntryTable(parts));
    FrontIsBytes(n);
    HeaderSplits(n, crc);
    BytesConcat(HeaderFront(n), LE(crc, 8));
    TableIsBytes(parts);
    BytesConcat(HeaderBytes(n, crc), EntryTable(parts));
  }

  lemma FrontIsBytes(n: nat)
    ensures Bytes(HeaderFront(n))
  {
    hide LE, Bytes;
    var a := LE(MAGIC, 8) + LE(VERSION, 2);
    BytesConcat(LE(MAGIC, 8), LE(VERSION, 2));
    BytesConcat(a, LE(HEADER_SIZE, 2));
    BytesConcat(a + LE(HEADER_SIZE, 2), LE(HEADER_SIZE + ENTRY_SIZE * n, 4));
    var b := a + LE(HEADER_SIZE, 2) + LE(HEADER_SIZE + ENTRY_SIZE * n, 4);
    BytesConcat(b, LE(1, 4));
    BytesConcat(b + LE(1, 4), LE(1, 2));
    BytesConcat(b + LE(1, 4) + LE(1, 2), LE(n, 2));
    BytesConcat(b + LE(1, 4) + LE(1, 2) + LE(n, 2), LE(HEADER_SIZE, 8));
  }
}
