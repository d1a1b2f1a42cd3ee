/** The formats on the wire, in the numbers that their other readers and writers rely on. */
module Formats {
  import opened Manifest
  import opened Crc64
  import opened RawLoad
  import opened BootImage
  import opened ManifestGuard
  import opened DiskLayout
  import BootTlv
  import Cpio

  // ---- the boot manifest --------------------------------------------------

  /** A built manifest: "SALTYMAN" as a little-endian word, version 1, a header of 40 bytes, the
      whole length, the checksum flag, the number of entries and where they start. */
  lemma ManifestHeader(parts: seq<Part>)
    requires CountFits(|parts|)
    ensures
      var s := ManifestBytes(parts);
      && |s| == 40 + 160 * |parts|
      && Read(s, 0, 8) == 0x5341_4C54_594D_414E && Read(s, 8, 2) == 1 && Read(s, 10, 2) == 40
      && Read(s, 12, 4) == |s| && Read(s, 16, 4) == 1 && Read(s, 22, 2) == |parts| && Read(s, 24, 8) == 40
  {
    hide LE, Read, HeaderFront, BitCrc;
    var n, table := |parts|, EntryTable(parts);
    var crc := BitCrc(HeaderBytes(n, 0) + table);
    HeaderSplits(n, crc);
    assert ManifestBytes(parts) == HeaderFront(n) + (LE(crc, 8) + table);
    FrontReads(n, LE(crc, 8) + table);
    BackReads(n, LE(crc, 8) + table);
  }

  /** The entry at a built manifest's 40 + 160 i: type, identifier, size, alignment, one extent,
      its first sector and its sectors. */
  lemma ManifestEntry(parts: seq<Part>, i: nat)
    requires CountFits(|parts|) && i < |parts| && PartFits(parts[i])
    ensures
      var s, at, p := ManifestBytes(parts), 40 + 160 * i, parts[i];
      && at + 160 <= |s|
      && Read(s, at, 2) == p.kind && Read(s, at + 4, 4) == p.id && Read(s, at + 8, 8) == p.size
      && Read(s, at + 16, 8) == p.align && Read(s, at + 24, 4) == 1 && Read(s, at + 32, 8) == p.lba
      && Read(s, at + 40, 4) == p.sectors
  {
    hide LE, Read, EntryTable, EntryBytes, HeaderBytes, BitCrc;
    var s, e, at := ManifestBytes(parts), EntryBytes(parts[i]), 40 + 160 * i;
    TableSlice(parts, i);
    MiddleSlice(HeaderBytes(|parts|, BitCrc(HeaderBytes(|parts|, 0) + EntryTable(parts))), EntryTable(parts), [],
                i * 160, (i + 1) * 160);
    assert s + [] == s;
    EntryFields(parts[i]);
    ReadSlice(s, e, at, 0, 2);
    ReadSlice(s, e, at, 4, 4);
    ReadSlice(s, e, at, 8, 8);
    ReadSlice(s, e, at, 16, 8);
    ReadSlice(s, e, at, 24, 4);
    ReadSlice(s, e, at, 32, 8);
    ReadSlice(s, e, at, 40, 4);
  }

  lemma EntryFields(p: Part)
    requires PartFits(p)
    ensures
      var s := EntryBytes(p);
      && Read(s, 0, 2) == p.kind && Read(s, 4, 4) == p.id && Read(s, 8, 8) == p.size && Read(s, 16, 8) == p.align
      && Read(s, 24, 4) == 1 && Read(s, 32, 8) == p.lba && Read(s, 40, 4) == p.sectors
  {
    EntryReadsBack(p);
    hide EntryBytes, Read;
    var e := ReadEntry(EntryBytes(p), 0);
    assert e.extents[0] == Extent(Read(EntryBytes(p), 32, 8), Read(EntryBytes(p), 40, 4));
    IdAndAlign(p);
  }

  lemma IdAndAlign(p: Part)
    requires PartFits(p)
    ensures Read(EntryBytes(p), 4, 4) == p.id && Read(EntryBytes(p), 16, 8) == p.align
  {
    hide LE, Zeros, Read;
    Pow256Values();
    var s, z := EntryBytes(p), LE(1, 4) + LE(0, 4) + LE(p.lba, 8) + LE(p.sectors, 4) + LE(0, 4) + Zeros(112);
    var b, y := LE(p.kind, 2) + LE(0, 2), LE(p.size, 8) + LE(p.align, 8) + z;
    assert s == b + LE(p.id, 4) + y;
    ReadWritten(b, p.id, 4, y);
    var c := b + LE(p.id, 4) + LE(p.size, 8);
    assert s == c + LE(p.align, 8) + z;
    ReadWritten(c, p.align, 8, z);
  }

  /** The loader finds the kernel as type 1 and the ramdisk as type 2. */
  lemma LoaderFinds(p: Payload)
    requires Acceptable(p) && SizesFit(p)
    ensures HeaderOk(ManifestSectors(p))
    ensures
      var e := FindFrom(ManifestSectors(p), 1, 0);
      e.Some? && Yields(ImageBytes(p), e.value, p.kernel)
    ensures
      var e := FindFrom(ManifestSectors(p), 2, 0);
      (e.Some? <==> InitrdData(p) != []) && (e.Some? ==> Yields(ImageBytes(p), e.value, InitrdData(p)))
  {
    hide ManifestSectors, FindFrom, Yields, HeaderOk, ImageBytes;
    ImageLoads(p);
  }

  /** Stage 3 is type 3, and its extent yields its bytes. */
  lemma StageThreeFound(p: Payload)
    requires Acceptable(p) && SizesFit(p)
    ensures HeaderOk(ManifestSectors(p))
    ensures
      var e := FindFrom(ManifestSectors(p), 3, 0);
      e.Some? && Yields(ImageBytes(p), e.value, p.stage3)
  {
    hide ManifestSectors, ImageBytes, HeaderOk, FindFrom, Yields, SectorsFor, Parts, ManifestBytes, FirstPart,
      CountFits,
      PartFits, Acceptable, SizesFit;
    ImageLoads(p);
    PartsFit(p);
    SectorsOfManifest(p);
    var m := ManifestBytes(Parts(p));
    assert ManifestSectors(p) == m + ManifestSectors(p)[|m|..];
    FirstIsStageThree(p);
    BuiltFind(Parts(p), ManifestSectors(p)[|m|..], 3, 0);
    StageThreeYields(p, FindFrom(ManifestSectors(p), 3, 0).value);
  }

  lemma FirstIsStageThree(p: Payload)
    ensures FirstPart(Parts(p), 3, 0) == Some(Part(3, 0, |p.stage3|, 4096, 2240, SectorsFor(|p.stage3|)))
  {
    hide SectorsFor, InitrdLba;
  }

  lemma SectorsOfManifest(p: Payload)
    requires Acceptable(p)
    ensures ManifestBytes(Parts(p)) <= ManifestSectors(p)
  {
    hide ImageBytes, ManifestBytes, Parts;
    Room(p);
    ImageHolds(p);
  }

  lemma StageThreeYields(p: Payload, e: Entry)
    requires Acceptable(p) && |e.extents| == 8 && e.count == 1 && e.size == |p.stage3|
    requires e.extents[0] == Extent(2240, SectorsFor(|p.stage3|))
    ensures Yields(ImageBytes(p), e, p.stage3)
  {
    hide ImageBytes, BootPlaces;
    SectorsSpan(|p.kernel|);
    SectorsSpan(|InitrdData(p)|);
    SectorsSpan(|p.stage3|);
    var n, im := SectorsFor(|p.stage3|), ImageBytes(p);
    StageFits(|p.stage3|);
    Room(p);
    hide SectorsFor, TotalSectors, BootEnd, InitrdLba;
    StageThreePlace(p);
    assert Joined(im, e.extents, 0) == [];
    assert Joined(im, e.extents, 1) == [] + From(im, 2240 * 512, n * 512);
    var got := From(im, 2240 * 512, n * 512);
    assert got[..|p.stage3|] == im[2240 * 512..2240 * 512 + |p.stage3|];
  }

  lemma StageThreePlace(p: Payload)
    requires Acceptable(p)
    ensures HasAt(ImageBytes(p), 2240, p.stage3)
  {
    hide ImageBytes, HasAt;
    var k, i := SectorsFor(|p.kernel|), SectorsFor(|InitrdData(p)|);
    SectorsSpan(|p.kernel|);
    SectorsSpan(|InitrdData(p)|);
    AlignedUp(2752 + k + i);
    ImagePlaces(p, k, i, AlignUp(2752 + k + i));
  }

  lemma AlignedUp(n: nat)
    ensures NextMegabyte(n, AlignUp(n))
  {
  }

  // ---- BootInfo -----------------------------------------------------------

  /** "SALTYBOO" as a little-endian word, version 1, architecture, total length, flags. */
  lemma BootInfoHeader(total: nat, arch: nat, flags: nat, rest: seq<nat>)
    requires total < 0x1_0000_0000 && arch < 0x1_0000 && flags < 0x1_0000_0000
    ensures
      var s := BootTlv.BootHeader(total, arch, flags) + rest;
      && |s| == 24 + |rest| && Read(s, 0, 8) == 0x5341_4C54_5942_4F4F && Read(s, 8, 2) == 1 && Read(s, 10, 2) == arch
      && Read(s, 12, 4) == total && Read(s, 16, 4) == flags
  {
    hide LE, Read;
    Pow256Values();
    var m := LE(0x5341_4C54_5942_4F4F, 8);
    var z := LE(0, 4) + rest;
    var s := BootTlv.BootHeader(total, arch, flags) + rest;
    assert s == [] + m + (LE(1, 2) + LE(arch, 2) + LE(total, 4) + LE(flags, 4) + z);
    ReadWritten([], 0x5341_4C54_5942_4F4F, 8, LE(1, 2) + LE(arch, 2) + LE(total, 4) + LE(flags, 4) + z);
    assert s == m + LE(1, 2) + (LE(arch, 2) + LE(total, 4) + LE(flags, 4) + z);
    ReadWritten(m, 1, 2, LE(arch, 2) + LE(total, 4) + LE(flags, 4) + z);
    var a := m + LE(1, 2);
    assert s == a + LE(arch, 2) + (LE(total, 4) + LE(flags, 4) + z);
    ReadWritten(a, arch, 2, LE(total, 4) + LE(flags, 4) + z);
    var b := a + LE(arch, 2);
    assert s == b + LE(total, 4) + (LE(flags, 4) + z);
    ReadWritten(b, total, 4, LE(flags, 4) + z);
    assert s == (b + LE(total, 4)) + LE(flags, 4) + z;
    ReadWritten(b + LE(total, 4), flags, 4, z);
  }

  /** A record: type, length, then the data, filled up with zeros to a multiple of eight. */
  lemma BootInfoRecord(t: BootTlv.Tlv)
    requires t.kind < 0x1_0000 && |t.data| < 0x1_0000_0000
    ensures
      var s, n := BootTlv.TlvBytes(t), |t.data|;
      && |s| % 8 == 0 && 8 + n <= |s| < 16 + n && Read(s, 0, 2) == t.kind && Read(s, 4, 4) == n && s[8..8 + n] == t.data
      && forall i {:trigger s[i]} :: 8 + n <= i < |s| ==> s[i] == 0
  {
    hide LE, Read, BootTlv.Align8;
    Pow256Values();
    var s, n := BootTlv.TlvBytes(t), |t.data|;
    var z := t.data + Zeros(BootTlv.Align8(n) - n);
    assert s == [] + LE(t.kind, 2) + (LE(0, 2) + LE(n, 4) + z);
    ReadWritten([], t.kind, 2, LE(0, 2) + LE(n, 4) + z);
    var a := LE(t.kind, 2) + LE(0, 2);
    assert s == a + LE(n, 4) + z;
    ReadWritten(a, n, 4, z);
  }

  // ---- the initial ramdisk ------------------------------------------------

  /** Hexadecimal digits, in either case. */
  lemma HexDigits(b: nat)
    ensures Cpio.DigitValue(b).Some? <==> 48 <= b < 58 || 65 <= b < 71 || 97 <= b < 103
    ensures Cpio.DigitValue(b).Some? ==> Cpio.DigitValue(b).value == if b < 58 then b - 48 else b % 32 + 9
  {
  }

  ghost predicate FieldIs(e: seq<nat>, k: nat, n: nat) {
    14 + 8 * k <= |e| && Cpio.HexValue(e[6 + 8 * k..14 + 8 * k], 8) == Cpio.Some(n)
  }

  /** Fields one after another. */
  function FieldBytes(f: seq<nat>): seq<nat> {
    if f == [] then [] else FieldBytes(f[..|f| - 1]) + Cpio.Field(f[|f| - 1])
  }

  ghost predicate Small(f: seq<nat>) { forall i {:trigger f[i]} :: 0 <= i < |f| ==> f[i] < 0x1_0000_0000 }

  lemma {:induction false} FieldSlice(f: seq<nat>, k: nat)
    requires Small(f) && k < |f|
    ensures |FieldBytes(f)| == 8 * |f| && FieldBytes(f)[8 * k..8 * k + 8] == Cpio.Field(f[k])
    decreases |f|
  {
    hide Cpio.Field;
    var n := |f| - 1;
    Cpio.FieldRoundTrip(f[n]);
    if n > 0 { FieldSlice(f[..n], if k < n then k else 0); }
    if k < n { assert FieldBytes(f)[8 * k..8 * k + 8] == FieldBytes(f[..n])[8 * k..8 * k + 8]; }
  }

  function HeaderFields(it: Cpio.Item): seq<nat> {
    [it.ino, it.mode, it.uid, it.gid, 1, 0, |it.data|, 0, 0, 0, 0, |it.name| + 1, 0]
  }

  lemma HeaderIsFields(it: Cpio.Item)
    ensures Cpio.Header(it.ino, it.mode, |it.data|, |it.name| + 1, it.uid, it.gid)
         == [48, 55, 48, 55, 48, 49] + FieldBytes(HeaderFields(it))
  {
    hide Cpio.Field;
    var f, m := HeaderFields(it), [48, 55, 48, 55, 48, 49];
    FieldsNext(m, f, 0, 1);
    FieldsNext(m, f, 1, 2);
    FieldsNext(m, f, 2, 3);
    FieldsNext(m, f, 3, 4);
    FieldsNext(m, f, 4, 5);
    FieldsNext(m, f, 5, 6);
    FieldsNext(m, f, 6, 7);
    FieldsNext(m, f, 7, 8);
    FieldsNext(m, f, 8, 9);
    FieldsNext(m, f, 9, 10);
    FieldsNext(m, f, 10, 11);
    FieldsNext(m, f, 11, 12);
    FieldsNext(m, f, 12, 13);
    assert f[..0] == [] && f[..13] == f && m + FieldBytes([]) == m;
  }

  lemma FieldsNext(m: seq<nat>, f: seq<nat>, i: nat, j: nat)
    requires i < j == i + 1 <= |f|
    ensures m + FieldBytes(f[..j]) == m + FieldBytes(f[..i]) + Cpio.Field(f[i])
  {
    hide Cpio.Field;
    assert f[..j][..i] == f[..i];
  }

  /** After "070701", thirteen fields of eight hexadecimal digits: inode, mode, owner, group, one
      link, no time, size, four times no device, length of the name with its zero, no check.
      Then the name, a zero, and the data from the next multiple of four. */
  lemma ArchiveEntry(it: Cpio.Item, k: nat, d: nat)
    requires Cpio.Fits(it) && k < 13 && d % 4 == 0 && 111 + |it.name| <= d < 115 + |it.name|
    ensures
      var e := Cpio.EntryBytes(it);
      && |e| % 4 == 0 && d + |it.data| <= |e| < d + |it.data| + 4 && e[..6] == [48, 55, 48, 55, 48, 49]
      && FieldIs(e, k, [it.ino, it.mode, it.uid, it.gid, 1, 0, |it.data|, 0, 0, 0, 0, |it.name| + 1, 0][k])
      && e[110..110 + |it.name|] == it.name && e[110 + |it.name|] == 0 && e[d..d + |it.data|] == it.data
  {
    hide Cpio.Field, Cpio.EntryBytes, Cpio.Header, FieldBytes, Cpio.HexValue, Cpio.Align4;
    var e, f := Cpio.EntryBytes(it), HeaderFields(it);
    var h := Cpio.Header(it.ino, it.mode, |it.data|, |it.name| + 1, it.uid, it.gid);
    Cpio.EntryLayout(it);
    Cpio.EntrySize(it);
    Cpio.Aligned(110 + |it.name| + 1);
    Cpio.Aligned(|it.data|);
    HeaderIsFields(it);
    FieldSlice(f, k);
    Cpio.FieldRoundTrip(f[k]);
    var at := 6 + 8 * k;
    assert h[at..at + 8] == FieldBytes(f)[8 * k..8 * k + 8];
    assert e[at..at + 8] == e[..110][at..at + 8];
    assert e[..6] == e[..110][..6];
  }

  /** The reader stops at the entry named "TRAILER!!!". */
  lemma TrailerStops(archive: seq<nat>, offset: nat, name: seq<nat>)
    requires offset + 121 <= |archive|
    requires archive[offset..offset + 6] == [48, 55, 48, 55, 48, 49]
    requires Cpio.HexValue(archive[offset + 94..offset + 102], 8) == Cpio.Some(11)
    requires archive[offset + 110..offset + 121] == [84, 82, 65, 73, 76, 69, 82, 33, 33, 33, 0]
    ensures Cpio.ReadEntry(archive, offset, name) == Cpio.Stop(Cpio.None)
  {
    hide Cpio.HexValue;
    var header := archive[offset..offset + 110];
    SliceOfSlice(archive, offset, 110, 0, 6);
    SliceOfSlice(archive, offset, 110, 94, 8);
    var text := archive[offset + 110..offset + 121];
    assert archive[offset + 120] == text[10] == 0;
    SliceOfSlice(archive, offset + 110, 11, 0, 10);
  }
}
