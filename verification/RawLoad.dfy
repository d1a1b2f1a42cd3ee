/** From disk image to memory: finding an entry in the manifest and loading its extents. */
module RawLoad {
  import opened Crc64
  import opened Manifest

  datatype Option<T> = None | Some(value: T)

  // ---- finding an entry ---------------------------------------------------

  /** The index-th entry, when the table holds it. */
  function GetEntry(s: seq<nat>, index: nat): Option<Entry>
    requires HeaderOk(s)
  {
    if index >= Read(s, 22, 2) then None
    else if Read(s, 24, 8) + (index + 1) * ENTRY_SIZE > Read(s, 12, 4) then None
    else Some(ReadEntry(s, Read(s, 24, 8) + index * ENTRY_SIZE))
  }

  function FindFrom(s: seq<nat>, kind: nat, i: nat): Option<Entry>
    requires HeaderOk(s)
    decreases Read(s, 22, 2) - i
  {
    if i >= Read(s, 22, 2) then None
    else
      var e := GetEntry(s, i);
      if e.Some? && e.value.kind == kind then e else FindFrom(s, kind, i + 1)
  }

  method FindEntry(s: seq<nat>, kind: nat) returns (r: Option<Entry>)
    requires HeaderOk(s)
    ensures r == FindFrom(s, kind, 0)
  {
    var count := Read(s, 22, 2);
    hide HeaderOk, GetEntry;
    for i := 0 to count
      invariant FindFrom(s, kind, 0) == FindFrom(s, kind, i)
    {
      var e := GetEntry(s, i);
      if e.Some? && e.value.kind == kind { return e; }
    }
    return None;
  }

  lemma {:induction false} TableSlice(parts: seq<Part>, i: nat)
    requires i < |parts|
    ensures EntryTable(parts)[i * ENTRY_SIZE..(i + 1) * ENTRY_SIZE] == EntryBytes(parts[i])
  {
    hide EntryBytes;
    var front := parts[..|parts| - 1];
    if i < |front| {
      TableSlice(front, i);
      assert EntryTable(parts)[i * ENTRY_SIZE..(i + 1) * ENTRY_SIZE]
        == EntryTable(front)[i * ENTRY_SIZE..(i + 1) * ENTRY_SIZE];
    }
  }

  lemma ReadSlice(s: seq<nat>, t: seq<nat>, at: nat, off: nat, k: nat)
    requires at + |t| <= |s| && s[at..at + |t|] == t && off + k <= |t|
    ensures Read(s, at + off, k) == Read(t, off, k)
  {
    SliceOfSlice(s, at, |t|, off, k);
  }

  lemma SliceOfSlice(s: seq<nat>, at: nat, n: nat, off: nat, k: nat)
    requires at + n <= |s| && off + k <= n
    ensures s[at..at + n][off..off + k] == s[at + off..at + off + k]
  {
    var a := s[at..at + n];
    var l, r := a[off..off + k], s[at + off..at + off + k];
    forall i | 0 <= i < |l| ensures l[i] == r[i] {
      assert l[i] == a[off + i];
    }
  }

  lemma MiddleSlice(front: seq<nat>, middle: seq<nat>, back: seq<nat>, i: nat, j: nat)
    requires i <= j <= |middle|
    ensures (front + middle + back)[|front| + i..|front| + j] == middle[i..j]
  {
  }

  /** The i-th entry of a written manifest reads back as the i-th part. */
  lemma BuiltEntry(parts: seq<Part>, pad: seq<nat>, i: nat)
    requires CountFits(|parts|) && i < |parts| && PartFits(parts[i])
    ensures HeaderOk(ManifestBytes(parts) + pad)
    ensures
      var e := GetEntry(ManifestBytes(parts) + pad, i);
      && e.Some? && e.value.kind == parts[i].kind && e.value.size == parts[i].size && e.value.count == 1
      && |e.value.extents| == MAX_EXTENTS && e.value.extents[0] == Extent(parts[i].lba, parts[i].sectors)
  {
    hide EntryTable, EntryBytes, Read, HeaderBytes, BitCrc;
    BuiltIsValid(parts, pad);
    var s, t, at := ManifestBytes(parts) + pad, EntryBytes(parts[i]), HEADER_SIZE + i * ENTRY_SIZE;
    TableSlice(parts, i);
    SizeReads(parts, pad);
    MiddleSlice(HeaderBytes(|parts|, BitCrc(HeaderBytes(|parts|, 0) + EntryTable(parts))), EntryTable(parts), pad,
                i * ENTRY_SIZE, (i + 1) * ENTRY_SIZE);
    EntryReadsBack(parts[i]);
    ReadSlice(s, t, at, 0, 2);
    ReadSlice(s, t, at, 8, 8);
    ReadSlice(s, t, at, 24, 4);
    ReadSlice(s, t, at, 32, 8);
    ReadSlice(s, t, at, 40, 4);
  }

  lemma SizeReads(parts: seq<Part>, pad: seq<nat>)
    requires CountFits(|parts|)
    ensures |ManifestBytes(parts)| == HEADER_SIZE + ENTRY_SIZE * |parts|
    ensures Read(ManifestBytes(parts) + pad, 12, 4) == HEADER_SIZE + ENTRY_SIZE * |parts|
  {
    hide LE, Read, HeaderFront, BitCrc;
    var n, table := |parts|, EntryTable(parts);
    var crc := BitCrc(HeaderBytes(n, 0) + table);
    HeaderSplits(n, crc);
    Regrouped(HeaderFront(n), LE(crc, 8), table, pad);
    FrontReads(n, LE(crc, 8) + table + pad);
  }

  /** The first part of a kind is the entry found, and none is found when there is none. */
  lemma {:induction false} BuiltFind(parts: seq<Part>, pad: seq<nat>, kind: nat, i: nat)
    requires CountFits(|parts|) && i <= |parts| && forall j {:trigger parts[j]} :: 0 <= j < |parts| ==>
      PartFits(parts[j])
    ensures HeaderOk(ManifestBytes(parts) + pad)
    ensures
      var r, p := FindFrom(ManifestBytes(parts) + pad, kind, i), FirstPart(parts, kind, i);
      && (r.Some? <==> p.Some?)
      && (r.Some? ==>
            && r.value.size == p.value.size && r.value.count == 1 && |r.value.extents| == MAX_EXTENTS
            && r.value.extents[0] == Extent(p.value.lba, p.value.sectors))
    decreases |parts| - i
  {
    hide ManifestBytes, GetEntry, HeaderOk, Read;
    BuiltIsValid(parts, pad);
    if i < |parts| {
      BuiltEntry(parts, pad, i);
      BuiltFind(parts, pad, kind, i + 1);
    }
  }

  function FirstPart(parts: seq<Part>, kind: nat, i: nat): Option<Part>
    requires i <= |parts|
    decreases |parts| - i
  {
    if i == |parts| then None else if parts[i].kind == kind then Some(parts[i]) else FirstPart(parts, kind, i + 1)
  }

  // ---- loading extents ----------------------------------------------------

  /** The bytes of count sectors from lba on, if the disk has them. */
  predicate OnDisk(disk: seq<nat>, lba: nat, count: nat) { (lba + count) * SECTOR <= |disk| }

  function Sectors(disk: seq<nat>, lba: nat, count: nat): (s: seq<nat>)
    requires OnDisk(disk, lba, count)
    ensures |s| == count * SECTOR
  {
    disk[lba * SECTOR..(lba + count) * SECTOR]
  }

  /** The buffer with data written at an offset. */
  function Patched(s: seq<nat>, at: nat, data: seq<nat>): (r: seq<nat>)
    requires at + |data| <= |s|
    ensures |r| == |s|
  {
    s[..at] + data + s[at + |data|..]
  }

  lemma PatchedTwice(s: seq<nat>, at: nat, a: seq<nat>, b: seq<nat>)
    requires at + |a| + |b| <= |s|
    ensures Patched(Patched(s, at, a), at + |a|, b) == Patched(s, at, a + b)
  {
    var m := Patched(s, at, a);
    assert m[..at + |a|] == s[..at] + a;
    assert m[at + |a| + |b|..] == s[at + |a| + |b|..];
  }

  lemma PatchedNothing(s: seq<nat>, at: nat)
    requires at <= |s|
    ensures Patched(s, at, []) == s
  {
  }

  lemma PatchedMore(s: seq<nat>, at: nat, data: seq<nat>, i: nat)
    requires i < |data| && at + |data| <= |s|
    ensures Patched(s, at, data[..i])[at + i := data[i]] == Patched(s, at, data[..i + 1])
  {
  }

  /** Copy bytes into the buffer. */
  method CopyTo(data: seq<nat>, buffer: array<nat>, at: nat)
    requires at + |data| <= buffer.Length
    modifies buffer
    ensures buffer[..] == Patched(old(buffer[..]), at, data)
  {
    hide Patched;
    PatchedNothing(buffer[..], at);
    assert data[..0] == [];
    for i := 0 to |data|
      invariant buffer[..] == Patched(old(buffer[..]), at, data[..i])
    {
      PatchedMore(old(buffer[..]), at, data, i);
      buffer[at + i] := data[i];
    }
    assert data[..|data|] == data;
  }

  method DiskRead(disk: seq<nat>, lba: nat, count: nat, buffer: array<nat>, at: nat) returns (ok: bool)
    requires at + count * SECTOR <= buffer.Length
    modifies buffer
    ensures ok <==> OnDisk(disk, lba, count)
    ensures !ok ==> buffer[..] == old(buffer[..])
    ensures ok ==> buffer[..] == Patched(old(buffer[..]), at, Sectors(disk, lba, count))
  {
    hide Patched;
    ok := (lba + count) * SECTOR <= |disk|;
    if ok { CopyTo(Sectors(disk, lba, count), buffer, at); }
  }

  predicate HasBytes(disk: seq<nat>, pos: nat, k: nat) { k == 0 || pos + k <= |disk| }

  function From(disk: seq<nat>, pos: nat, k: nat): (s: seq<nat>)
    requires HasBytes(disk, pos, k)
    ensures |s| == k
  {
    if k == 0 then [] else disk[pos..pos + k]
  }

  lemma FromConcat(disk: seq<nat>, pos: nat, a: nat, b: nat)
    requires HasBytes(disk, pos, a) && HasBytes(disk, pos + a, b)
    ensures HasBytes(disk, pos, a + b) && From(disk, pos, a + b) == From(disk, pos, a) + From(disk, pos + a, b)
  {
  }

  lemma FromPrefix(disk: seq<nat>, pos: nat, a: nat, b: nat)
    requires HasBytes(disk, pos, b) && a <= b
    ensures HasBytes(disk, pos, a) && From(disk, pos, a) == From(disk, pos, b)[..a]
  {
  }

  function Min(a: nat, b: nat): nat { if a < b then a else b }

  ghost predicate AllOnDisk(disk: seq<nat>, extents: seq<Extent>, k: nat) {
    k <= |extents| && forall i {:trigger extents[i]} :: 0 <= i < k ==>
        HasBytes(disk, extents[i].lba * SECTOR, extents[i].sectors * SECTOR)
  }

  /** The bytes of the first k extents, one after another. */
  ghost function Joined(disk: seq<nat>, extents: seq<Extent>, k: nat): seq<nat>
    requires AllOnDisk(disk, extents, k)
  {
    if k == 0 then [] else
      Joined(disk, extents, k - 1) + From(disk, extents[k - 1].lba * SECTOR, extents[k - 1].sectors * SECTOR)
  }

  lemma {:induction false} JoinedPrefix(disk: seq<nat>, extents: seq<Extent>, i: nat, k: nat)
    requires i <= k && AllOnDisk(disk, extents, k)
    ensures AllOnDisk(disk, extents, i) && Joined(disk, extents, i) <= Joined(disk, extents, k)
    decreases k
  {
    hide From;
    if i < k { JoinedPrefix(disk, extents, i, k - 1); }
  }

  /** Where the load stops: the bytes so far and the part of one more extent. */
  lemma StopsAt(disk: seq<nat>, extents: seq<Extent>, i: nat, count: nat, part: nat)
    requires i < count && AllOnDisk(disk, extents, count) && part <= extents[i].sectors * SECTOR
    ensures AllOnDisk(disk, extents, i) && HasBytes(disk, extents[i].lba * SECTOR, part)
    ensures
      var so, all := Joined(disk, extents, i), Joined(disk, extents, count);
      |so| + part <= |all| && all[..|so| + part] == so + From(disk, extents[i].lba * SECTOR, part)
  {
    JoinedPrefix(disk, extents, i, count);
    JoinedPrefix(disk, extents, i + 1, count);
    FromPrefix(disk, extents[i].lba * SECTOR, part, extents[i].sectors * SECTOR);
    var so, next, all := Joined(disk, extents, i), Joined(disk, extents, i + 1), Joined(disk, extents, count);
    var f := From(disk, extents[i].lba * SECTOR, extents[i].sectors * SECTOR);
    assert next == so + f;
    hide Joined, From, AllOnDisk;
    PrefixOfPrefix(all, so, f, part);
  }

  lemma PrefixOfPrefix(all: seq<nat>, so: seq<nat>, f: seq<nat>, part: nat)
    requires so + f <= all && part <= |f|
    ensures |so| + part <= |all| && all[..|so| + part] == so + f[..part]
  {
    var next := so + f;
    assert all[..|next|] == next;
    assert next[..|so| + part] == so + f[..part];
    assert all[..|so| + part] == next[..|so| + part];
  }

  /** The last extent, cut off at the end of the buffer: whole sectors, then part of one
      through a sector buffer. */
  method LoadPartial(disk: seq<nat>, lba: nat, sectors: nat, buffer: array<nat>, total: nat, size: nat)
      returns (ok: bool)
    requires total <= size <= buffer.Length && total + sectors * SECTOR > size
    modifies buffer
    ensures !ok ==> !OnDisk(disk, lba, sectors)
    ensures ok ==>
      HasBytes(disk, lba * SECTOR, size - total)
      && buffer[..] == Patched(old(buffer[..]), total, From(disk, lba * SECTOR, size - total))
  {
    hide Patched;
    var remaining := size - total;
    var full, tail := remaining / SECTOR, remaining % SECTOR;
    ok := LoadWhole(disk, lba, full, buffer, total);
    if !ok { return; }
    ghost var a := From(disk, lba * SECTOR, full * SECTOR);
    if tail > 0 {
      ok := LoadTail(disk, lba + full, tail, buffer, total + full * SECTOR);
      if !ok { return; }
      FromConcat(disk, lba * SECTOR, full * SECTOR, tail);
      PatchedTwice(old(buffer[..]), total, a, From(disk, lba * SECTOR + full * SECTOR, tail));
    }
  }

  method LoadWhole(disk: seq<nat>, lba: nat, full: nat, buffer: array<nat>, at: nat) returns (ok: bool)
    requires at + full * SECTOR <= buffer.Length
    modifies buffer
    ensures !ok ==> full > 0 && !OnDisk(disk, lba, full)
    ensures ok ==>
      HasBytes(disk, lba * SECTOR, full * SECTOR)
      && buffer[..] == Patched(old(buffer[..]), at, From(disk, lba * SECTOR, full * SECTOR))
  {
    hide Patched;
    ok := true;
    if full > 0 {
      ok := DiskRead(disk, lba, full, buffer, at);
    } else {
      PatchedNothing(buffer[..], at);
    }
  }

  method LoadTail(disk: seq<nat>, lba: nat, tail: nat, buffer: array<nat>, at: nat) returns (ok: bool)
    requires 0 < tail < SECTOR && at + tail <= buffer.Length
    modifies buffer
    ensures ok <==> OnDisk(disk, lba, 1)
    ensures ok ==> buffer[..] == Patched(old(buffer[..]), at, From(disk, lba * SECTOR, tail))
  {
    var sector := new nat[SECTOR];
    ok := DiskRead(disk, lba, 1, sector, 0);
    if ok {
      assert sector[..] == Sectors(disk, lba, 1);
      assert sector[..tail] == From(disk, lba * SECTOR, tail);
      hide Patched;
      CopyTo(sector[..tail], buffer, at);
    }
  }

  /** Load extents one after another until the buffer is full.  The result is the number
      of bytes, or -1 after a failed read. */
  method LoadExtents(disk: seq<nat>, extents: seq<Extent>, count: nat, buffer: array<nat>, size: nat) returns (n: int)
    requires count <= |extents| && size <= buffer.Length
    modifies buffer
    ensures n >= -1 && (n < 0 ==> !AllOnDisk(disk, extents, count))
    ensures AllOnDisk(disk, extents, count) ==>
      var all := Joined(disk, extents, count);
      n == Min(|all|, size) && buffer[..] == Patched(old(buffer[..]), 0, all[..n])
  {
    hide Patched, From;
    var total := 0;
    PatchedNothing(buffer[..], 0);
    for i := 0 to count
      invariant AllOnDisk(disk, extents, i) && total <= size && total == |Joined(disk, extents, i)|
      invariant buffer[..] == Patched(old(buffer[..]), 0, Joined(disk, extents, i))
    {
      var lba, sectors := extents[i].lba, extents[i].sectors;
      if sectors == 0 {
        assert Joined(disk, extents, i + 1) == Joined(disk, extents, i);
        continue;
      }
      var bytes := sectors * SECTOR;
      ghost var so := Joined(disk, extents, i);
      if total + bytes > size {
        var ok := LoadPartial(disk, lba, sectors, buffer, total, size);
        if !ok { return -1; }
        PatchedTwice(old(buffer[..]), 0, so, From(disk, lba * SECTOR, size - total));
        if AllOnDisk(disk, extents, count) { StopsAt(disk, extents, i, count, size - total); }
        return size;
      }
      var ok := DiskRead(disk, lba, sectors, buffer, total);
      if !ok { return -1; }
      FromSectors(disk, lba, sectors);
      PatchedTwice(old(buffer[..]), 0, so, From(disk, lba * SECTOR, bytes));
      total := total + bytes;
      if total >= size {
        if AllOnDisk(disk, extents, count) { StopsAt(disk, extents, i, count, bytes); }
        return total;
      }
    }
    assert AllOnDisk(disk, extents, count) ==> Joined(disk, extents, count)[..total] == Joined(disk, extents, count);
    return total;
  }

  lemma FromSectors(disk: seq<nat>, lba: nat, sectors: nat)
    requires sectors > 0 && OnDisk(disk, lba, sectors)
    ensures HasBytes(disk, lba * SECTOR, sectors * SECTOR)
      && From(disk, lba * SECTOR, sectors * SECTOR) == Sectors(disk, lba, sectors)
  {
  }

  /** Load one entry into a buffer: at most its recorded size, at most the buffer.  -2
      for an entry without extents or with too many, -1 for a failed read. */
  method LoadFromEntry(disk: seq<nat>, e: Entry, buffer: array<nat>, size: nat) returns (n: int)
    requires |e.extents| == 8 && size <= buffer.Length
    modifies buffer
    ensures n == -2 <==> e.count == 0 || e.count > 8
    ensures n == -1 ==> e.count <= 8 && !AllOnDisk(disk, e.extents, e.count)
    ensures 0 < e.count <= 8 && AllOnDisk(disk, e.extents, e.count) ==>
      var all := Joined(disk, e.extents, e.count);
      n == Min(|all|, Min(size, e.size)) && buffer[..] == Patched(old(buffer[..]), 0, all[..n])
  {
    hide Patched, AllOnDisk, Joined;
    if e.count == 0 || e.count > MAX_EXTENTS { return -2; }
    var toRead := size;
    if e.size < toRead { toRead := e.size; }
    n := LoadExtents(disk, e.extents, e.count, buffer, toRead);
  }
}
