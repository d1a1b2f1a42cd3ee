/** The whole disk image: written by the image tool, read by the raw loader. */
module BootImage {
  import opened Crc64
  import opened Manifest
  import opened RawLoad

  const MANIFEST_LBA: nat := 2048
  const MANIFEST_SECTORS: nat := 64
  const STAGE2_LBA: nat := 2112
  const STAGE2_SECTORS: nat := 128
  const STAGE3_LBA: nat := 2240
  const STAGE3_SECTORS: nat := 512
  const KERNEL_LBA: nat := 2752
  const ALIGN_SECTORS: nat := 2048

  function SectorsFor(n: nat): nat { (n + SECTOR - 1) / SECTOR }

  /** Filled up with zeros to whole sectors. */
  function Padded(data: seq<nat>): (s: seq<nat>)
    ensures |s| == SectorsFor(|data|) * SECTOR && data <= s
  {
    data + Zeros(SectorsFor(|data|) * SECTOR - |data|)
  }

  function PaddedTo(data: seq<nat>, sectors: nat): (s: seq<nat>)
    requires |data| <= sectors * SECTOR
    ensures |s| == sectors * SECTOR && data <= s
  {
    data + Zeros(sectors * SECTOR - |data|)
  }

  function AlignUp(n: nat): nat { (n + ALIGN_SECTORS - 1) / ALIGN_SECTORS * ALIGN_SECTORS }

  /** What goes on the disk. */
  datatype Payload = Payload(mbr: seq<nat>, stage2: seq<nat>, stage3: seq<nat>, kernel: seq<nat>,
                             initrd: Option<seq<nat>>, rootfs: Option<seq<nat>>, requested: nat)

  function InitrdLba(p: Payload): nat { KERNEL_LBA + SectorsFor(|p.kernel|) }

  function InitrdData(p: Payload): seq<nat> { if p.initrd.Some? then p.initrd.value else [] }

  /** The components recorded in the manifest; the initial ramdisk only when it has bytes. */
  function Parts(p: Payload): seq<Part> {
    [Part(STAGE3, 0, |p.stage3|, 4096, STAGE3_LBA, SectorsFor(|p.stage3|)),
     Part(KERNEL, 1, |p.kernel|, 0x20_0000, KERNEL_LBA, SectorsFor(|p.kernel|))]
    + if InitrdData(p) != [] then [Part(INITRD, 2, |InitrdData(p)|, 4096, InitrdLba(p), SectorsFor(|InitrdData(p)|))]
        else []
  }

  /** The first sector after the boot components. */
  function BootEnd(p: Payload): nat { InitrdLba(p) + SectorsFor(|InitrdData(p)|) }

  function TotalSectors(p: Payload): nat {
    var required := if p.rootfs.Some? then AlignUp(BootEnd(p)) + SectorsFor(|p.rootfs.value|) else BootEnd(p);
    if required > p.requested then AlignUp(required) else p.requested
  }

  predicate Acceptable(p: Payload) {
    |p.mbr| == SECTOR && |p.stage2| <= STAGE2_SECTORS * SECTOR && |p.stage3| <= STAGE3_SECTORS * SECTOR
  }

  /** The writes that make the image, in order. */
  function BootWrites(p: Payload): (s: seq<nat>)
    requires Acceptable(p)
    ensures |s| == TotalSectors(p) * SECTOR
  {
    Room(p);
    ManifestLength(p);
    var w0 := Zeros(TotalSectors(p) * SECTOR);
    var w1 := Patched(w0, 0, p.mbr);
    var w2 := Patched(w1, MANIFEST_LBA * SECTOR, PaddedTo(ManifestBytes(Parts(p)), MANIFEST_SECTORS));
    var w3 := Patched(w2, STAGE2_LBA * SECTOR, PaddedTo(p.stage2, STAGE2_SECTORS));
    var w4 := Patched(w3, STAGE3_LBA * SECTOR, PaddedTo(p.stage3, STAGE3_SECTORS));
    Patched(w4, KERNEL_LBA * SECTOR, Padded(p.kernel))
  }

  function ImageBytes(p: Payload): (s: seq<nat>)
    requires Acceptable(p)
    ensures |s| == TotalSectors(p) * SECTOR
  {
    Room(p);
    var w5 := BootWrites(p);
    var w6 := Patched(w5, InitrdLba(p) * SECTOR, Padded(InitrdData(p)));
    if p.rootfs.Some? then Patched(w6, AlignUp(BootEnd(p)) * SECTOR, Padded(p.rootfs.value)) else w6
  }

  lemma AlignUpBounds(n: nat)
    ensures n <= AlignUp(n) < n + ALIGN_SECTORS
  {
  }

  lemma Room(p: Payload)
    ensures KERNEL_LBA <= InitrdLba(p) <= BootEnd(p) <= AlignUp(BootEnd(p)) && BootEnd(p) <= TotalSectors(p)
    ensures p.rootfs.Some? ==> AlignUp(BootEnd(p)) + SectorsFor(|p.rootfs.value|) <= TotalSectors(p)
  {
    AlignUpBounds(BootEnd(p));
    AlignUpBounds(BootEnd(p) + if p.rootfs.Some? then SectorsFor(|p.rootfs.value|) else 0);
    hide AlignUp, SectorsFor;
    var required := if p.rootfs.Some? then AlignUp(BootEnd(p)) + SectorsFor(|p.rootfs.value|) else BootEnd(p);
    AlignUpBounds(required);
  }

  lemma ManifestLength(p: Payload)
    ensures |ManifestBytes(Parts(p))| == HEADER_SIZE + ENTRY_SIZE * |Parts(p)| <= MANIFEST_SECTORS * SECTOR
  {
    hide BitCrc, HeaderBytes, EntryTable;
  }

  // ---- what each write leaves alone ---------------------------------------

  lemma PatchedAt(s: seq<nat>, at: nat, data: seq<nat>)
    requires at + |data| <= |s|
    ensures Patched(s, at, data)[at..at + |data|] == data
  {
  }

  lemma PatchedKeeps(s: seq<nat>, at: nat, data: seq<nat>, i: nat, j: nat)
    requires at + |data| <= |s| && i <= j <= |s| && (j <= at || at + |data| <= i)
    ensures Patched(s, at, data)[i..j] == s[i..j]
  {
  }

  /** The manifest, the kernel and the ramdisk end up where the manifest says. */
  lemma BootWritesHold(p: Payload)
    requires Acceptable(p)
    ensures KERNEL_LBA * SECTOR + |Padded(p.kernel)| <= |BootWrites(p)|
    ensures |ManifestBytes(Parts(p))| <= MANIFEST_SECTORS * SECTOR
    ensures BootWrites(p)[MANIFEST_LBA * SECTOR..STAGE2_LBA * SECTOR]
      == PaddedTo(ManifestBytes(Parts(p)), MANIFEST_SECTORS)
    ensures BootWrites(p)[KERNEL_LBA * SECTOR..InitrdLba(p) * SECTOR] == Padded(p.kernel)
  {
    hide Patched, ManifestBytes, Parts, PaddedTo, Padded, Zeros, SectorsFor;
    Room(p);
    ManifestLength(p);
    var m, lo, hi := PaddedTo(ManifestBytes(Parts(p)), MANIFEST_SECTORS), MANIFEST_LBA * SECTOR, STAGE2_LBA * SECTOR;
    var w1 := Patched(Zeros(TotalSectors(p) * SECTOR), 0, p.mbr);
    var w2 := Patched(w1, lo, m);
    var w3 := Patched(w2, STAGE2_LBA * SECTOR, PaddedTo(p.stage2, STAGE2_SECTORS));
    var w4 := Patched(w3, STAGE3_LBA * SECTOR, PaddedTo(p.stage3, STAGE3_SECTORS));
    PatchedAt(w1, lo, m);
    PatchedKeeps(w2, STAGE2_LBA * SECTOR, PaddedTo(p.stage2, STAGE2_SECTORS), lo, hi);
    PatchedKeeps(w3, STAGE3_LBA * SECTOR, PaddedTo(p.stage3, STAGE3_SECTORS), lo, hi);
    PatchedKeeps(w4, KERNEL_LBA * SECTOR, Padded(p.kernel), lo, hi);
    PatchedAt(w4, KERNEL_LBA * SECTOR, Padded(p.kernel));
  }

  lemma ImageHolds(p: Payload)
    requires Acceptable(p)
    ensures |ManifestBytes(Parts(p))| <= MANIFEST_SECTORS * SECTOR && BootEnd(p) * SECTOR <= |ImageBytes(p)|
    ensures ImageBytes(p)[MANIFEST_LBA * SECTOR..STAGE2_LBA * SECTOR]
      == PaddedTo(ManifestBytes(Parts(p)), MANIFEST_SECTORS)
    ensures ImageBytes(p)[KERNEL_LBA * SECTOR..InitrdLba(p) * SECTOR] == Padded(p.kernel)
    ensures ImageBytes(p)[InitrdLba(p) * SECTOR..BootEnd(p) * SECTOR] == Padded(InitrdData(p))
  {
    hide Patched, ManifestBytes, Parts, PaddedTo, Padded, BootWrites, SectorsFor, AlignUp;
    Room(p);
    BootWritesHold(p);
    var lo, hi, k, i, e :=
        MANIFEST_LBA * SECTOR, STAGE2_LBA * SECTOR, KERNEL_LBA * SECTOR, InitrdLba(p) * SECTOR, BootEnd(p) * SECTOR;
    var w5 := BootWrites(p);
    var w6 := Patched(w5, i, Padded(InitrdData(p)));
    PatchedKeeps(w5, i, Padded(InitrdData(p)), lo, hi);
    PatchedKeeps(w5, i, Padded(InitrdData(p)), k, i);
    PatchedAt(w5, i, Padded(InitrdData(p)));
    if p.rootfs.Some? {
      var at, data := AlignUp(BootEnd(p)) * SECTOR, Padded(p.rootfs.value);
      PatchedKeeps(w6, at, data, lo, hi);
      PatchedKeeps(w6, at, data, k, i);
      PatchedKeeps(w6, at, data, i, e);
    }
  }

  // ---- loading gives back the original ------------------------------------

  /** Sizes and positions fit their fields. */
  predicate SizesFit(p: Payload) {
    && |p.kernel| < 0x1_0000_0000_0000_0000 && SectorsFor(|p.kernel|) < 0x1_0000_0000
      && InitrdLba(p) < 0x1_0000_0000_0000_0000
    && |InitrdData(p)| < 0x1_0000_0000_0000_0000 && SectorsFor(|InitrdData(p)|) < 0x1_0000_0000
  }

  lemma PartsFit(p: Payload)
    requires Acceptable(p) && SizesFit(p)
    ensures |Parts(p)| <= 3 && CountFits(|Parts(p)|)
    ensures forall j {:trigger Parts(p)[j]} :: 0 <= j < |Parts(p)| ==> PartFits(Parts(p)[j])
    ensures FirstPart(Parts(p), KERNEL, 0) == Some(Part(KERNEL, 1, |p.kernel|, 0x20_0000, KERNEL_LBA,
      SectorsFor(|p.kernel|)))
    ensures FirstPart(Parts(p), INITRD, 0) == if InitrdData(p) == [] then None else Some(
      Part(INITRD, 2, |InitrdData(p)|, 4096, InitrdLba(p), SectorsFor(|InitrdData(p)|)))
  {
    StageFits(|p.stage3|);
    hide SectorsFor, InitrdLba;
    var parts := Parts(p);
    assert FirstPart(parts, KERNEL, 0) == FirstPart(parts, KERNEL, 1);
    assert FirstPart(parts, INITRD, 0) == FirstPart(parts, INITRD, 1) == FirstPart(parts, INITRD, 2);
  }

  lemma StageFits(n: nat)
    requires n <= STAGE3_SECTORS * SECTOR
    ensures SectorsFor(n) <= STAGE3_SECTORS
  {
  }

  /** The manifest sectors of an image, as the loader has read them. */
  function ManifestSectors(p: Payload): seq<nat>
    requires Acceptable(p)
  {
    Room(p);
    ImageBytes(p)[MANIFEST_LBA * SECTOR..STAGE2_LBA * SECTOR]
  }

  /** The entry's extents start with exactly these bytes, and its size is theirs. */
  ghost predicate Yields(disk: seq<nat>, e: Entry, data: seq<nat>) {
    && |e.extents| == MAX_EXTENTS && e.count == 1 && e.size == |data|
    && AllOnDisk(disk, e.extents, 1) && data <= Joined(disk, e.extents, 1)
  }

  /** Then a load fills the buffer with the data, or with as much of it as fits. */
  lemma YieldsLoad(disk: seq<nat>, e: Entry, data: seq<nat>, size: nat)
    requires Yields(disk, e, data)
    ensures
      var all, n := Joined(disk, e.extents, 1), Min(size, |data|);
      Min(|all|, Min(size, e.size)) == n && all[..n] == data[..n]
  {
    hide Joined;
    var all := Joined(disk, e.extents, 1);
    assert all[..|data|] == data;
    assert all[..Min(size, |data|)] == all[..|data|][..Min(size, |data|)];
  }

  lemma ExtentYields(disk: seq<nat>, e: Entry, data: seq<nat>, lba: nat)
    requires |e.extents| == MAX_EXTENTS && e.count == 1 && e.size == |data|
      && e.extents[0] == Extent(lba, SectorsFor(|data|))
    requires (lba + SectorsFor(|data|)) * SECTOR <= |disk|
    requires disk[lba * SECTOR..(lba + SectorsFor(|data|)) * SECTOR] == Padded(data)
    ensures Yields(disk, e, data)
  {
    hide Padded;
    var n := SectorsFor(|data|);
    hide SectorsFor;
    assert Joined(disk, e.extents, 0) == [];
    assert Joined(disk, e.extents, 1) == [] + From(disk, lba * SECTOR, n * SECTOR);
    assert From(disk, lba * SECTOR, n * SECTOR) == Padded(data);
  }

  /** The manifest of a written image is valid, the kernel entry is there, and its
      extents hold the kernel's own bytes; the same for the ramdisk when it has any. */
  lemma ImageLoads(p: Payload)
    requires Acceptable(p) && SizesFit(p)
    ensures HeaderOk(ManifestSectors(p))
    ensures
      var e := FindFrom(ManifestSectors(p), KERNEL, 0);
      e.Some? && Yields(ImageBytes(p), e.value, p.kernel)
    ensures
      var e := FindFrom(ManifestSectors(p), INITRD, 0);
      (e.Some? <==> InitrdData(p) != []) && (e.Some? ==> Yields(ImageBytes(p), e.value, InitrdData(p)))
  {
    hide ImageBytes, ManifestBytes, Parts, Padded, HeaderOk, FindFrom, FirstPart, Yields, SectorsFor, Read, CountFits,
      PartFits;
    Room(p);
    ImageHolds(p);
    PartsFit(p);
    var parts := Parts(p);
    var pad := Zeros(MANIFEST_SECTORS * SECTOR - |ManifestBytes(parts)|);
    assert ManifestSectors(p) == ManifestBytes(parts) + pad;
    BuiltFind(parts, pad, KERNEL, 0);
    BuiltFind(parts, pad, INITRD, 0);
    ExtentYields(ImageBytes(p), FindFrom(ManifestSectors(p), KERNEL, 0).value, p.kernel, KERNEL_LBA);
    if InitrdData(p) != [] {
      ExtentYields(ImageBytes(p), FindFrom(ManifestSectors(p), INITRD, 0).value, InitrdData(p), InitrdLba(p));
    }
  }

  /** Find a component in the manifest sectors of an image and load it. */
  method LoadComponent(p: Payload, kind: nat, ghost data: seq<nat>, buffer: array<nat>, size: nat) returns (n: int)
    requires Acceptable(p) && SizesFit(p) && size <= buffer.Length
    requires (kind == KERNEL && data == p.kernel) || (kind == INITRD && data == InitrdData(p) != [])
    modifies buffer
    ensures n == Min(size, |data|) && buffer[..n] == data[..n] && buffer[n..] == old(buffer[n..])
  {
    hide ImageBytes, ManifestSectors, HeaderOk, FindFrom, AllOnDisk, Joined;
    ImageLoads(p);
    var e := FindEntry(ManifestSectors(p), kind);
    YieldsLoad(ImageBytes(p), e.value, data, size);
    n := LoadFromEntry(ImageBytes(p), e.value, buffer, size);
  }

  /** The kernel of every image loads as its own bytes, or as many as fit. */
  method LoadKernel(p: Payload, buffer: array<nat>, size: nat) returns (n: int)
    requires Acceptable(p) && SizesFit(p) && size <= buffer.Length
    modifies buffer
    ensures n == Min(size, |p.kernel|) && buffer[..n] == p.kernel[..n] && buffer[n..] == old(buffer[n..])
  {
    n := LoadComponent(p, KERNEL, p.kernel, buffer, size);
  }

  /** And so does the ramdisk; there is no entry for an empty one. */
  method LoadInitrd(p: Payload, buffer: array<nat>, size: nat) returns (found: bool, n: int)
    requires Acceptable(p) && SizesFit(p) && size <= buffer.Length
    modifies buffer
    ensures found <==> InitrdData(p) != []
    ensures found ==>
      n == Min(size, |InitrdData(p)|) && buffer[..n] == InitrdData(p)[..n] && buffer[n..] == old(buffer[n..])
    ensures !found ==> buffer[..] == old(buffer[..])
  {
    hide ImageBytes, ManifestSectors, HeaderOk, FindFrom, Yields;
    ImageLoads(p);
    var e := FindEntry(ManifestSectors(p), INITRD);
    if e.None? { return false, 0; }
    n := LoadComponent(p, INITRD, InitrdData(p), buffer, size);
    found := true;
  }
}
