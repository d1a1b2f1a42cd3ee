/** Where everything is on a written disk image, sector by sector. */
module DiskLayout {
  import opened Manifest
  import opened RawLoad
  import opened BootImage

  /** The image has these bytes from a sector on. */
  ghost predicate HasAt(image: seq<nat>, sector: nat, data: seq<nat>) {
    512 * sector + |data| <= |image| && image[512 * sector..512 * sector + |data|] == data
  }

  /** Sectors for this many bytes. */
  ghost predicate Spans(bytes: nat, sectors: nat) {
    512 * sectors >= bytes && (sectors > 0 ==> 512 * (sectors - 1) < bytes)
  }

  lemma PatchHas(s: seq<nat>, sector: nat, data: seq<nat>, shown: seq<nat>)
    requires 512 * sector + |data| <= |s| && shown <= data
    ensures HasAt(Patched(s, 512 * sector, data), sector, shown)
  {
    PatchedAt(s, 512 * sector, data);
    var t := Patched(s, 512 * sector, data);
    assert t[512 * sector..512 * sector + |shown|] == t[512 * sector..512 * sector + |data|][..|shown|];
  }

  lemma PatchKeeps(s: seq<nat>, at: nat, data: seq<nat>, sector: nat, shown: seq<nat>)
    requires at + |data| <= |s| && HasAt(s, sector, shown)
    requires at + |data| <= 512 * sector || 512 * sector + |shown| <= at
    ensures HasAt(Patched(s, at, data), sector, shown)
  {
    PatchedKeeps(s, at, data, 512 * sector, 512 * sector + |shown|);
  }

  /** The fixed places: the boot record in sector 0, the manifest in 2048, stage 2 in 2112,
      stage 3 in 2240 and the kernel in 2752. */
  ghost predicate BootPlaces(p: Payload, image: seq<nat>) {
    && HasAt(image, 0, p.mbr) && HasAt(image, 2048, ManifestBytes(Parts(p))) && HasAt(image, 2112, p.stage2)
    && HasAt(image, 2240, p.stage3) && HasAt(image, 2752, p.kernel)
  }

  lemma BootWritesPlaces(p: Payload)
    requires Acceptable(p)
    ensures BootPlaces(p, BootWrites(p))
  {
    hide Patched, ManifestBytes, Parts, PaddedTo, Padded, Zeros, SectorsFor, HasAt;
    Room(p);
    ManifestLength(p);
    var m := ManifestBytes(Parts(p));
    var a, b, c, k := PaddedTo(m, 64), PaddedTo(p.stage2, 128), PaddedTo(p.stage3, 512), Padded(p.kernel);
    var w0 := Zeros(TotalSectors(p) * SECTOR);
    var w1 := Patched(w0, 0, p.mbr);
    var w2 := Patched(w1, 1048576, a);
    var w3 := Patched(w2, 1081344, b);
    var w4 := Patched(w3, 1146880, c);
    PatchHas(w0, 0, p.mbr, p.mbr);
    PatchHas(w1, 2048, a, m);
    PatchHas(w2, 2112, b, p.stage2);
    PatchHas(w3, 2240, c, p.stage3);
    PatchHas(w4, 2752, k, p.kernel);
    PatchKeeps(w1, 1048576, a, 0, p.mbr);
    PatchKeeps(w2, 1081344, b, 0, p.mbr);
    PatchKeeps(w3, 1146880, c, 0, p.mbr);
    PatchKeeps(w4, 1409024, k, 0, p.mbr);
    PatchKeeps(w2, 1081344, b, 2048, m);
    PatchKeeps(w3, 1146880, c, 2048, m);
    PatchKeeps(w4, 1409024, k, 2048, m);
    PatchKeeps(w3, 1146880, c, 2112, p.stage2);
    PatchKeeps(w4, 1409024, k, 2112, p.stage2);
    PatchKeeps(w4, 1409024, k, 2240, p.stage3);
  }

  lemma PatchKeepsPlaces(p: Payload, s: seq<nat>, at: nat, data: seq<nat>)
    requires Acceptable(p) && BootPlaces(p, s) && at + |data| <= |s| && 512 * 2752 + |p.kernel| <= at
    ensures BootPlaces(p, Patched(s, at, data))
  {
    hide Patched, ManifestBytes, Parts, HasAt;
    ManifestLength(p);
    PatchKeeps(s, at, data, 0, p.mbr);
    PatchKeeps(s, at, data, 2048, ManifestBytes(Parts(p)));
    PatchKeeps(s, at, data, 2112, p.stage2);
    PatchKeeps(s, at, data, 2240, p.stage3);
    PatchKeeps(s, at, data, 2752, p.kernel);
  }

  lemma SectorsSpan(n: nat)
    ensures Spans(n, SectorsFor(n))
  {
  }

  lemma SpansOne(n: nat, a: nat, b: nat)
    requires Spans(n, a) && Spans(n, b)
    ensures a == b
  {
  }

  /** The first sector from e on whose number is a multiple of 2048, one megabyte. */
  ghost predicate NextMegabyte(e: nat, sector: nat) {
    sector % 2048 == 0 && e <= sector < e + 2048
  }

  lemma NextMegabyteIs(e: nat, sector: nat)
    requires NextMegabyte(e, sector)
    ensures AlignUp(e) == sector
  {
  }

  /** The ramdisk is in the first sector after the kernel, the root file system in the first
      sector after that on a megabyte boundary, and the image is as long as asked for or, when
      that is too short, ends on such a boundary. */
  lemma ImagePlaces(p: Payload, k: nat, i: nat, r: nat)
    requires Acceptable(p) && Spans(|p.kernel|, k) && Spans(|InitrdData(p)|, i) && NextMegabyte(2752 + k + i, r)
    ensures BootPlaces(p, ImageBytes(p)) && HasAt(ImageBytes(p), 2752 + k, InitrdData(p))
    ensures p.rootfs.Some? ==> HasAt(ImageBytes(p), r, p.rootfs.value)
  {
    hide Patched, ManifestBytes, Parts, Padded, BootWrites, SectorsFor, HasAt, AlignUp, BootPlaces;
    Room(p);
    Positions(p, k, i, r);
    BootWritesPlaces(p);
    var w5, d := BootWrites(p), Padded(InitrdData(p));
    var w6 := Patched(w5, 512 * (2752 + k), d);
    PatchKeepsPlaces(p, w5, 512 * (2752 + k), d);
    PatchHas(w5, 2752 + k, d, InitrdData(p));
    if p.rootfs.Some? {
      var f := Padded(p.rootfs.value);
      PatchKeepsPlaces(p, w6, 512 * r, f);
      PatchKeeps(w6, 512 * r, f, 2752 + k, InitrdData(p));
      PatchHas(w6, r, f, p.rootfs.value);
    }
  }

  lemma Positions(p: Payload, k: nat, i: nat, r: nat)
    requires Spans(|p.kernel|, k) && Spans(|InitrdData(p)|, i) && NextMegabyte(2752 + k + i, r)
    ensures InitrdLba(p) == 2752 + k && BootEnd(p) == 2752 + k + i && AlignUp(BootEnd(p)) == r
    ensures |Padded(InitrdData(p))| == 512 * i
  {
    hide AlignUp;
    SectorsSpan(|p.kernel|);
    SpansOne(|p.kernel|, k, SectorsFor(|p.kernel|));
    SectorsSpan(|InitrdData(p)|);
    SpansOne(|InitrdData(p)|, i, SectorsFor(|InitrdData(p)|));
    NextMegabyteIs(2752 + k + i, r);
  }

  /** The image's length in sectors. */
  lemma ImageLength(p: Payload, k: nat, i: nat, r: nat, f: nat, n: nat)
    requires Acceptable(p) && Spans(|p.kernel|, k) && Spans(|InitrdData(p)|, i) && NextMegabyte(2752 + k + i, r)
    requires p.rootfs.Some? ==> Spans(|p.rootfs.value|, f)
    requires NextMegabyte(if p.rootfs.Some? then r + f else 2752 + k + i, n)
    ensures
      var required := if p.rootfs.Some? then r + f else 2752 + k + i;
      |ImageBytes(p)| == 512 * if required > p.requested then n else p.requested
  {
    hide AlignUp, SectorsFor, ImageBytes, NextMegabyte, Spans, InitrdLba, BootEnd, InitrdData, Acceptable;
    Positions(p, k, i, r);
    if p.rootfs.Some? {
      SectorsSpan(|p.rootfs.value|);
      SpansOne(|p.rootfs.value|, f, SectorsFor(|p.rootfs.value|));
    }
    NextMegabyteIs(if p.rootfs.Some? then r + f else 2752 + k + i, n);
  }
}
