/** The memory map in BootInfo: firmware regions first, then every allocation record. */
module BootMap {
  import opened Manifest
  import opened BootTlv
  import opened BootAlloc
  import opened BootHandoff

  datatype Kernel = Kernel(phys: nat, virt: nat, size: nat, entry: nat)
  datatype Initrd = Initrd(addr: nat, size: nat)

  // ---- the map ------------------------------------------------------------

  function E820Kind(t: nat): nat { if 1 <= t <= 5 then t else 2 }

  function TagKind(tag: nat): nat { if tag == 1 then 17 else if tag == 2 then 18 else if tag == 3 then 19 else 16 }

  function FromRegion(r: Region): MapEntry { MapEntry(r.base, r.length, E820Kind(r.kind)) }
  function FromRecord(r: Record): MapEntry { MapEntry(r.addr, r.size, TagKind(r.tag)) }

  /** Firmware entries that fit beside the records. */
  function Kept(regions: seq<Region>, records: seq<Record>): (n: nat)
    ensures n <= |regions| && (|records| <= MAX_REGIONS ==> n + |records| <= MAX_REGIONS)
  {
    var room := if MAX_REGIONS > |records| then MAX_REGIONS - |records| else 0;
    if |regions| > room then room else |regions|
  }

  function Expected(regions: seq<Region>, records: seq<Record>): (m: seq<MapEntry>)
    ensures |m| == Kept(regions, records) + |records|
  {
    var n := Kept(regions, records);
    seq(n, i requires 0 <= i < n => FromRegion(regions[i])) + seq(|records|,
        i requires 0 <= i < |records| => FromRecord(records[i]))
  }

  ghost predicate Fits(regions: seq<Region>, records: seq<Record>) {
    && (forall i {:trigger regions[i]} :: 0 <= i < |regions| ==> regions[i].base < WORD && regions[i].length < WORD)
    && (forall i {:trigger records[i]} :: 0 <= i < |records| ==> records[i].addr < WORD && records[i].size < WORD)
  }

  // ---- what the map says --------------------------------------------------

  /** An allocation: where it is and what for. Only kernel, initial ramdisk and BootInfo have
      kinds of their own. */
  ghost predicate Reports(e: MapEntry, r: Record) {
    && e.base == r.addr && e.length == r.size
    && (r.tag == 1 ==> e.kind == 17) && (r.tag == 2 ==> e.kind == 18) && (r.tag == 3 ==> e.kind == 19)
    && (r.tag !in {1, 2, 3} ==> e.kind == 16)
  }

  /** A firmware region, of its own kind when that is one of the five the kernel knows and
      reserved otherwise. */
  ghost predicate Relays(e: MapEntry, r: Region) {
    && e.base == r.base && e.length == r.length
    && (r.kind in {1, 2, 3, 4, 5} ==> e.kind == r.kind) && (r.kind !in {1, 2, 3, 4, 5} ==> e.kind == 2)
  }

  /** As many firmware regions as 256 entries leave room for, then every record. */
  ghost predicate Tells(m: seq<MapEntry>, regions: seq<Region>, records: seq<Record>)
    requires |records| <= 256
  {
    var n := if |regions| + |records| <= 256 then |regions| else 256 - |records|;
    && |m| == n + |records|
    && (forall i {:trigger regions[i]} :: 0 <= i < n ==> Relays(m[i], regions[i]))
    && (forall i {:trigger records[i]} :: 0 <= i < |records| ==> Reports(m[n + i], records[i]))
  }

  lemma ExpectedTells(regions: seq<Region>, records: seq<Record>)
    requires |records| <= 256
    ensures Tells(Expected(regions, records), regions, records)
  {
  }

  /** The kernel is told that memory is usable only where the firmware says so, and never of
      an allocation. */
  ghost predicate UsableFromFirmware(m: seq<MapEntry>, regions: seq<Region>) {
    forall i {:trigger m[i]} :: 0 <= i < |m| && m[i].kind == 1 ==> Region(m[i].base, m[i].length, 1) in regions
  }

  lemma TellsUsable(m: seq<MapEntry>, regions: seq<Region>, records: seq<Record>)
    requires |records| <= 256 && Tells(m, regions, records)
    ensures UsableFromFirmware(m, regions)
  {
    var n := |m| - |records|;
    forall i {:trigger m[i]} | n <= i < |m| ensures m[i].kind != 1 {
      assert Reports(m[n + (i - n)], records[i - n]);
    }
    forall i {:trigger m[i]} | 0 <= i < n ensures m[i].kind == 1 ==> Region(m[i].base, m[i].length, 1) in regions {
      assert Relays(m[i], regions[i]);
    }
  }

  ghost predicate EntryOk(e: MapEntry) { e.base < WORD && e.length < WORD && e.kind == KindOf(e.kind) < WORD32 }

  // ---- its bytes ----------------------------------------------------------

  function EntryBytes24(e: MapEntry): (s: seq<nat>)
    ensures |s| == ENTRY
  {
    LE(e.base, 8) + LE(e.length, 8) + LE(e.kind, 4) + LE(0, 4)
  }

  function MapBytes(es: seq<MapEntry>): (s: seq<nat>)
    ensures |s| == ENTRY * |es|
  {
    if es == [] then [] else MapBytes(es[..|es| - 1]) + EntryBytes24(es[|es| - 1])
  }

  lemma MapBytesNext(es: seq<MapEntry>, i: nat)
    requires i < |es|
    ensures MapBytes(es[..i + 1]) == MapBytes(es[..i]) + EntryBytes24(es[i])
  {
    assert es[..i + 1][..i] == es[..i];
  }

  lemma EntryReads(front: seq<nat>, e: MapEntry, back: seq<nat>)
    requires EntryOk(e) && |front| % ENTRY == 0
    ensures EntryAt(front + EntryBytes24(e) + back, |front| / ENTRY) == e
  {
    hide LE, Read;
    Pow256Values();
    var a, b, c, d := LE(e.base, 8), LE(e.length, 8), LE(e.kind, 4), LE(0, 4);
    var s := front + EntryBytes24(e) + back;
    assert s == front + a + (b + c + d + back);
    ReadWritten(front, e.base, 8, b + c + d + back);
    assert s == (front + a) + b + (c + d + back);
    ReadWritten(front + a, e.length, 8, c + d + back);
    assert s == (front + a + b) + c + (d + back);
    ReadWritten(front + a + b, e.kind, 4, d + back);
  }

  lemma {:induction false} EntriesRead(es: seq<MapEntry>, back: seq<nat>, i: nat)
    requires i < |es| && EntryOk(es[i])
    ensures EntryAt(MapBytes(es) + back, i) == es[i]
    decreases |es|
  {
    hide EntryBytes24, EntryAt;
    var front, last := es[..|es| - 1], es[|es| - 1];
    if i == |es| - 1 {
      EntryReads(MapBytes(front), last, back);
    } else {
      EntriesRead(front, EntryBytes24(last) + back, i);
      assert MapBytes(es) + back == MapBytes(front) + (EntryBytes24(last) + back);
    }
  }

  /** A map reads back whole up to 256 entries, and its first 256 past that. */
  lemma MapReads(es: seq<MapEntry>)
    requires forall i {:trigger es[i]} :: 0 <= i < |es| ==> EntryOk(es[i])
    ensures Entries(MapBytes(es)) == if |es| <= 256 then es else es[..256]
  {
    hide MapBytes, EntryAt, EntryOk;
    var s, n := MapBytes(es), if |es| <= 256 then |es| else 256;
    assert EntryCount(s) == n;
    forall i: nat | i < n ensures Entries(s)[i] == es[i] {
      EntriesRead(es, [], i);
      assert s + [] == s;
    }
  }

  lemma ExpectedOk(regions: seq<Region>, records: seq<Record>)
    requires Fits(regions, records)
    ensures forall i {:trigger Expected(regions, records)[i]} :: 0 <= i < |Expected(regions, records)| ==>
      EntryOk(Expected(regions, records)[i])
  {
  }

  // ---- assembling it at the end of the buffer -----------------------------

  method WriteEntry(buffer: array<nat>, at: nat, e: MapEntry)
    requires at + ENTRY <= buffer.Length
    modifies buffer
    ensures buffer[..] == Over(old(buffer[..]), at, EntryBytes24(e))
  {
    hide LE;
    ghost var b := buffer[..];
    Store(buffer, at, e.base, 8);
    Store(buffer, at + 8, e.length, 8);
    OverTwice(b, at, LE(e.base, 8), LE(e.length, 8));
    Store(buffer, at + 16, e.kind, 4);
    OverTwice(b, at, LE(e.base, 8) + LE(e.length, 8), LE(e.kind, 4));
    Store(buffer, at + 20, 0, 4);
    OverTwice(b, at, LE(e.base, 8) + LE(e.length, 8) + LE(e.kind, 4), LE(0, 4));
  }

  /** Entry i of the list, written behind the ones before. */
  method WriteNext(buffer: array<nat>, off: nat, e: MapEntry, ghost before: seq<nat>, ghost es: seq<MapEntry>, i: nat)
    requires i < |es| && e == es[i] && off + ENTRY * |es| <= buffer.Length == |before|
    requires buffer[..] == Over(before, off, MapBytes(es[..i]))
    modifies buffer
    ensures buffer[..] == Over(before, off, MapBytes(es[..i + 1]))
  {
    hide MapBytes, EntryBytes24, Over;
    WriteEntry(buffer, off + ENTRY * i, e);
    OverTwice(before, off, MapBytes(es[..i]), EntryBytes24(e));
    MapBytesNext(es, i);
  }

  method WriteMap(buffer: array<nat>, regions: seq<Region>, records: seq<Record>) returns (off: nat, total: nat)
    requires |records| <= MAX_RECORDS && ENTRY * MAX_REGIONS <= buffer.Length
    modifies buffer
    ensures total == |Expected(regions, records)| <= MAX_REGIONS && off == buffer.Length - ENTRY * total
    ensures buffer[..] == Over(old(buffer[..]), off, MapBytes(Expected(regions, records)))
  {
    hide MapBytes, Over, FromRegion, FromRecord;
    ghost var before, es := buffer[..], Expected(regions, records);
    var room := if MAX_REGIONS > |records| then MAX_REGIONS - |records| else 0;
    var count := if |regions| > room then room else |regions|;
    off := buffer.Length - ENTRY * (count + |records|);
    NothingOver(before, off, es[..0]);
    for i := 0 to count
      invariant buffer[..] == Over(before, off, MapBytes(es[..i]))
    {
      WriteNext(buffer, off, FromRegion(regions[i]), before, es, i);
    }
    total := count;
    for i := 0 to |records|
      invariant total == count + i && buffer[..] == Over(before, off, MapBytes(es[..total]))
    {
      if total < MAX_REGIONS {
        WriteNext(buffer, off, FromRecord(records[i]), before, es, total);
        total := total + 1;
      }
    }
    assert es[..total] == es;
  }

  lemma NothingOver(s: seq<nat>, off: nat, es: seq<MapEntry>)
    requires es == [] && off <= |s|
    ensures Over(s, off, MapBytes(es)) == s
  {
  }

  // ---- the whole BootInfo -------------------------------------------------

  function KernelData(k: Kernel): (s: seq<nat>)
    ensures |s| == 32
  {
    LE(k.phys, 8) + LE(k.virt, 8) + LE(k.size, 8) + LE(k.entry, 8)
  }

  function InitrdData(r: Initrd): (s: seq<nat>)
    ensures |s| == 16
  {
    LE(r.addr, 8) + LE(r.size, 8)
  }

  predicate Present(r: Initrd) { r.addr != 0 && r.size != 0 }

  /** The records the kernel uses, in order. */
  function MainRecords(regions: seq<Region>, records: seq<Record>, k: Kernel, r: Initrd): seq<Tlv> {
    (if regions == [] then [] else [Tlv(TLV_MEMMAP, MapBytes(Expected(regions, records)))])
    + [Tlv(TLV_KERNEL, KernelData(k))] + (if Present(r) then [Tlv(TLV_INITRD, InitrdData(r))] else [])
  }

  function ExpectedInfo(flags: nat, regions: seq<Region>, records: seq<Record>, k: Kernel, r: Initrd): Info {
    Info(flags, if regions == [] then [] else Expected(regions, records), k.phys, k.virt, k.size,
         if Present(r) then r.addr else 0, if Present(r) then r.size else 0)
  }

  lemma KernelReads(k: Kernel)
    requires k.phys < WORD && k.virt < WORD && k.size < WORD
    ensures Read(KernelData(k), 0, 8) == k.phys && Read(KernelData(k), 8, 8) == k.virt
      && Read(KernelData(k), 16, 8) == k.size
  {
    hide LE, Read;
    Pow256Values();
    var a, b, c, d := LE(k.phys, 8), LE(k.virt, 8), LE(k.size, 8), LE(k.entry, 8);
    ReadWritten([], k.phys, 8, b + c + d);
    assert KernelData(k) == [] + a + (b + c + d);
    ReadWritten(a, k.virt, 8, c + d);
    assert KernelData(k) == a + b + (c + d);
    ReadWritten(a + b, k.size, 8, d);
  }

  lemma InitrdReads(r: Initrd)
    requires r.addr < WORD && r.size < WORD
    ensures Read(InitrdData(r), 0, 8) == r.addr && Read(InitrdData(r), 8, 8) == r.size
  {
    hide LE, Read;
    Pow256Values();
    ReadWritten([], r.addr, 8, LE(r.size, 8));
    assert InitrdData(r) == [] + LE(r.addr, 8) + LE(r.size, 8);
    ReadWritten(LE(r.addr, 8), r.size, 8, []);
    assert InitrdData(r) == LE(r.addr, 8) + LE(r.size, 8) + [];
  }

  lemma {:induction false} ApplyConcat(info: Info, a: seq<Tlv>, b: seq<Tlv>)
    ensures ApplyAll(info, a + b) == ApplyAll(ApplyAll(info, a), b)
    decreases |a|
  {
    hide Apply;
    if a == [] {
      assert a + b == b;
    } else {
      ApplyConcat(Apply(info, a[0]), a[1..], b);
      assert (a + b)[1..] == a[1..] + b && (a + b)[0] == a[0];
    }
  }

  /** Records of other kinds. */
  ghost predicate Foreign(ts: seq<Tlv>) {
    forall i {:trigger ts[i]} :: 0 <= i < |ts| ==> 3 < ts[i].kind < 0x1_0000 && |ts[i].data| < WORD32 - 8
  }

  lemma {:induction false} ForeignChangesNothing(info: Info, ts: seq<Tlv>)
    requires Foreign(ts)
    ensures ApplyAll(info, ts) == info
    decreases |ts|
  {
    if ts != [] { ForeignChangesNothing(info, ts[1..]); }
  }

  lemma ApplyOne(info: Info, t: Tlv)
    ensures ApplyAll(info, [t]) == Apply(info, t)
  {
    assert [t][1..] == [];
  }

  lemma MainApplies(flags: nat, regions: seq<Region>, records: seq<Record>, k: Kernel, r: Initrd)
    requires Fits(regions, records) && |records| <= MAX_RECORDS
    requires k.phys < WORD && k.virt < WORD && k.size < WORD && r.addr < WORD && r.size < WORD
    ensures ApplyAll(Empty(flags), MainRecords(regions, records, k, r)) == ExpectedInfo(flags, regions, records, k, r)
  {
    hide Expected, MapBytes, Read, KernelData, InitrdData, Entries, Fits, ApplyAll;
    var es := Expected(regions, records);
    ExpectedOk(regions, records);
    MapReads(es);
    KernelReads(k);
    InitrdReads(r);
    var a := if regions == [] then [] else [Tlv(TLV_MEMMAP, MapBytes(es))];
    var b := [Tlv(TLV_KERNEL, KernelData(k))];
    var c := if Present(r) then [Tlv(TLV_INITRD, InitrdData(r))] else [];
    ApplyConcat(Empty(flags), a + b, c);
    ApplyConcat(Empty(flags), a, b);
    if regions != [] { ApplyOne(Empty(flags), a[0]); } else { ForeignChangesNothing(Empty(flags), a); }
    ApplyOne(ApplyAll(Empty(flags), a), b[0]);
    if Present(r) { ApplyOne(ApplyAll(Empty(flags), a + b), c[0]); }
        else { ForeignChangesNothing(ApplyAll(Empty(flags), a + b), c); }
  }

  /** Bytes with this header, these records, and an end the walk stops at, parse to this. */
  lemma BuiltParses(mem: seq<nat>, arch: nat, flags: nat, total: nat, main: seq<Tlv>, rest: seq<Tlv>, info: Info)
    requires arch < 0x1_0000 && flags < WORD32 && |mem| < WORD32
    requires ApplyAll(Empty(flags), main) == info && Foreign(rest) && forall i {:trigger main[i]} ::
      0 <= i < |main| ==> TlvOk(main[i])
    requires
      var cur := BOOT_HEADER + |AllBytes(main + rest)|;
      cur <= |mem| && mem[..cur] == BootHeader(total, arch, flags) + AllBytes(main + rest) && Ends(mem, cur, total)
    ensures HeaderGood(mem) && Walkable(mem, BOOT_HEADER, Read(mem, 12, 4))
    ensures Walk(mem, BOOT_HEADER, Read(mem, 12, 4), Empty(Read(mem, 16, 4))) == info
  {
    hide AllBytes, BootHeader, Walk, Walkable, ApplyAll, Apply, Read, Empty;
    var ts := main + rest;
    var cur := BOOT_HEADER + |AllBytes(ts)|;
    var h, back := BootHeader(total, arch, flags), mem[cur..];
    assert mem == h + AllBytes(ts) + back;
    HeaderReads(total, arch, flags, AllBytes(ts) + back);
    assert mem == h + (AllBytes(ts) + back);
    WalkReads(h, ts, back, total, Empty(flags));
    ApplyConcat(Empty(flags), main, rest);
    ForeignChangesNothing(info, rest);
  }

  lemma HeaderReads(total: nat, arch: nat, flags: nat, back: seq<nat>)
    requires total < WORD32 && arch < 0x1_0000 && flags < WORD32
    ensures
      var s := BootHeader(total, arch, flags) + back;
      Read(s, 0, 8) == BOOT_MAGIC && Read(s, 8, 2) == BOOT_VERSION && Read(s, 12, 4) == total && Read(s, 16, 4) == flags
  {
    hide LE, Read;
    Pow256Values();
    var a, b, c, d, e, f := LE(BOOT_MAGIC, 8), LE(BOOT_VERSION, 2), LE(arch, 2), LE(total, 4), LE(flags, 4), LE(0, 4);
    var s := BootHeader(total, arch, flags) + back;
    assert s == [] + a + (b + c + d + e + f + back);
    ReadWritten([], BOOT_MAGIC, 8, b + c + d + e + f + back);
    assert s == a + b + (c + d + e + f + back);
    ReadWritten(a, BOOT_VERSION, 2, c + d + e + f + back);
    assert s == (a + b + c) + d + (e + f + back);
    ReadWritten(a + b + c, total, 4, e + f + back);
    assert s == (a + b + c + d) + e + (f + back);
    ReadWritten(a + b + c + d, flags, 4, f + back);
  }

  /** Add a record from bytes of its own. */
  method AddBytes(b: Builder, kind: nat, data: seq<nat>) returns (ok: bool)
    requires b.Valid() && |data| < WORD32 - 8
    modifies b`current, b`written, b.buffer
    ensures b.Valid() && (ok <==> old(b.current) + TLV_HEADER + Align8(|data|) <= b.buffer.Length)
    ensures b.written == old(b.written) + if ok then [Tlv(kind, data)] else []
    ensures b.current == old(b.current) + if ok then TLV_HEADER + Align8(|data|) else 0
  {
    hide Align8, AllBytes, BootHeader;
    var own := new nat[|data|](i requires 0 <= i < |data| => data[i]);
    assert own[0..|data|] == data;
    ok := b.Add(kind, own, 0, |data|);
  }

  /** The memory map, put together at the end of the same buffer. */
  method AddMap(b: Builder, regions: seq<Region>, records: seq<Record>)
    requires b.Valid() && b.current == BOOT_HEADER && b.buffer.Length >= BUFFER_SIZE && |records| <= MAX_RECORDS
    modifies b`current, b`written, b.buffer
    ensures b.Valid() && b.written == old(b.written) + [Tlv(TLV_MEMMAP, MapBytes(Expected(regions, records)))]
    ensures b.current <= BOOT_HEADER + TLV_HEADER + ENTRY * MAX_REGIONS + 8
  {
    hide AllBytes, BootHeader, Expected, MapBytes, Align8;
    ghost var before, es := b.buffer[..], Expected(regions, records);
    var off, total := WriteMap(b.buffer, regions, records);
    TailWritten(before, b.buffer[..], b.current, off, MapBytes(es));
    assert b.buffer[..b.current] == b.buffer[..][..b.current];
    assert b.buffer[off..off + total * ENTRY] == b.buffer[..][off..off + total * ENTRY];
    var _ := b.Add(TLV_MEMMAP, b.buffer, off, total * ENTRY);
  }

  lemma TailWritten(before: seq<nat>, after: seq<nat>, cur: nat, off: nat, data: seq<nat>)
    requires cur <= off && off + |data| <= |before| && after == Over(before, off, data)
    ensures after[..cur] == before[..cur] && after[off..off + |data|] == data
  {
  }

  /** Memory map, kernel and initrd. */
  method AddMain(b: Builder, regions: seq<Region>, records: seq<Record>, k: Kernel, r: Initrd)
    requires b.Valid() && b.current == BOOT_HEADER && b.written == [] && b.buffer.Length >= BUFFER_SIZE
      && |records| <= MAX_RECORDS
    modifies b`current, b`written, b.buffer
    ensures b.Valid() && b.written == MainRecords(regions, records, k, r)
  {
    hide AllBytes, BootHeader, Expected, MapBytes, KernelData, InitrdData, Align8;
    if |regions| > 0 { AddMap(b, regions, records); }
    var _ := AddBytes(b, TLV_KERNEL, KernelData(k));
    if r.addr != 0 && r.size != 0 { var _ := AddBytes(b, TLV_INITRD, InitrdData(r)); }
  }

  /** Build BootInfo in the buffer. Whatever the firmware map's length, the kernel's parse
      of the result has every allocation record, the kernel image and the initrd. */
  method BuildBootinfo(buffer: array<nat>, arch: nat, flags: nat, regions: seq<Region>, records: seq<Record>,
                       k: Kernel, r: Initrd, rest: seq<Tlv>)
    requires BUFFER_SIZE <= buffer.Length < WORD32 && arch < 0x1_0000 && flags < WORD32 && |records| <= MAX_RECORDS
    requires Fits(regions, records) && Foreign(rest)
    requires k.phys < WORD && k.virt < WORD && k.size < WORD && r.addr < WORD && r.size < WORD
    modifies buffer
    ensures HeaderGood(buffer[..]) && Walkable(buffer[..], BOOT_HEADER, Read(buffer[..], 12, 4))
    ensures Walk(buffer[..], BOOT_HEADER, Read(buffer[..], 12, 4),
      Empty(Read(buffer[..], 16, 4))) == ExpectedInfo(flags, regions, records, k, r)
  {
    hide AllBytes, BootHeader, MainRecords, Read, Walk, Walkable, HeaderGood, Fits, Align8;
    var b := new Builder(buffer, arch, flags);
    AddMain(b, regions, records, k, r);
    ghost var main := MainRecords(regions, records, k, r);
    ghost var added: seq<Tlv> := [];
    for i := 0 to |rest|
      invariant b.Valid() && b.written == main + added && Foreign(added)
    {
      var ok := AddBytes(b, rest[i].kind, rest[i].data);
      if ok { added := added + [rest[i]]; }
    }
    var total := b.Finish();
    MainApplies(flags, regions, records, k, r);
    MainOk(regions, records, k, r);
    BuiltParses(buffer[..], arch, flags, total, main, added, ExpectedInfo(flags, regions, records, k, r));
  }

  lemma MainOk(regions: seq<Region>, records: seq<Record>, k: Kernel, r: Initrd)
    requires |records| <= MAX_RECORDS
    ensures
      var main := MainRecords(regions, records, k, r);
      forall i {:trigger main[i]} :: 0 <= i < |main| ==> TlvOk(main[i])
  {
  }

  /** From allocations to the kernel: while at most 16 were made, the parsed map has each. */
  method BootAndParse(a: Allocator, buffer: array<nat>, arch: nat, flags: nat, k: Kernel, r: Initrd, rest: seq<Tlv>)
      returns (info: Option<Info>)
    requires a.Valid() && Good(a.map820, a.Now()) && |a.made| <= 16 && Fits(a.map820, []) && Foreign(rest)
    requires 16384 <= buffer.Length < 0x1_0000_0000 && arch < 0x1_0000 && flags < WORD32
    requires k.phys < WORD && k.virt < WORD && k.size < WORD && r.addr < WORD && r.size < WORD
    modifies buffer
    ensures info.Some? && info.value.flags == flags
    ensures if a.map820 == [] then info.value.memory == [] && old(a.made) == []
      else Tells(info.value.memory, a.map820, old(a.made))
    ensures UsableFromFirmware(info.value.memory, a.map820)
    ensures if r.addr > 0 && r.size > 0 then info.value.initrdAddr == r.addr && info.value.initrdSize == r.size
      else info.value.initrdAddr == 0 && info.value.initrdSize == 0
    ensures info.value.kernelPhys == k.phys && info.value.kernelVirt == k.virt && info.value.kernelSize == k.size
  {
    hide Walk, Walkable, Read, HeaderGood, Expected, Tells;
    ghost var made := a.made;
    var records := a.records[..a.count];
    assert records == made;
    RecordsFit(a.map820, a.Now());
    BuildBootinfo(buffer, arch, flags, a.map820, records, k, r, rest);
    MemoryRoom(buffer[..]);
    info := Parse(buffer[..]);
    ExpectedTells(a.map820, made);
    TellsUsable(Expected(a.map820, made), a.map820, made);
    if made != [] { assert a.map820 != [] by { MadeSomewhere(a.map820, State(a.watermark, made)); } }
  }

  lemma MemoryRoom(mem: seq<nat>)
    requires HeaderGood(mem)
    ensures |mem| >= BOOT_HEADER
  {
  }

  lemma RecordsFit(map820: seq<Region>, s: State)
    requires Good(map820, s) && Fits(map820, [])
    ensures Fits(map820, s.made)
  {
  }

  lemma MadeSomewhere(map820: seq<Region>, s: State)
    requires Good(map820, s) && s.made != []
    ensures map820 != []
  {
    assert Inside(map820, s.made[0]);
  }
}
