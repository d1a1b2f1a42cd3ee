/** BootInfo records: the bytes the loader writes and the kernel's walk over them. */
module BootTlv {
  import opened Manifest

  const BOOT_MAGIC: nat := 0x5341_4C54_5942_4F4F
  const BOOT_VERSION: nat := 1
  const BOOT_HEADER: nat := 24
  const TLV_HEADER: nat := 8
  const ENTRY: nat := 24
  const MAX_ENTRIES: nat := 256
  const TLV_END: nat := 0
  const TLV_MEMMAP: nat := 1
  const TLV_KERNEL: nat := 2
  const TLV_INITRD: nat := 3
  const WORD32: nat := 0x1_0000_0000

  datatype Option<T> = None | Some(value: T)
  datatype Tlv = Tlv(kind: nat, data: seq<nat>)
  datatype MapEntry = MapEntry(base: nat, length: nat, kind: nat)

  /** What the kernel keeps of a BootInfo. */
  datatype Info = Info(flags: nat, memory: seq<MapEntry>, kernelPhys: nat, kernelVirt: nat, kernelSize: nat,
                       initrdAddr: nat, initrdSize: nat)

  function Align8(n: nat): (m: nat)
    ensures n <= m < n + 8 && m % 8 == 0
  {
    (n + 7) / 8 * 8
  }

  // ---- bytes --------------------------------------------------------------

  function TlvBytes(t: Tlv): (s: seq<nat>)
    ensures |s| == TLV_HEADER + Align8(|t.data|)
  {
    LE(t.kind, 2) + LE(0, 2) + LE(|t.data|, 4) + t.data + Zeros(Align8(|t.data|) - |t.data|)
  }

  function AllBytes(ts: seq<Tlv>): seq<nat> {
    if ts == [] then [] else TlvBytes(ts[0]) + AllBytes(ts[1..])
  }

  function BootHeader(total: nat, arch: nat, flags: nat): (s: seq<nat>)
    ensures |s| == BOOT_HEADER
  {
    LE(BOOT_MAGIC, 8) + LE(BOOT_VERSION, 2) + LE(arch, 2) + LE(total, 4) + LE(flags, 4) + LE(0, 4)
  }

  lemma {:induction false} AllBytesAppend(ts: seq<Tlv>, t: Tlv)
    ensures AllBytes(ts + [t]) == AllBytes(ts) + TlvBytes(t)
  {
    hide TlvBytes;
    if ts == [] {
      assert ts + [t] == [t] && [t][1..] == [];
      assert AllBytes([t]) == TlvBytes(t) + AllBytes([]);
    } else {
      AllBytesAppend(ts[1..], t);
      assert (ts + [t])[1..] == ts[1..] + [t];
      assert (ts + [t])[0] == ts[0];
      assert TlvBytes(ts[0]) + (AllBytes(ts[1..]) + TlvBytes(t)) == AllBytes(ts) + TlvBytes(t);
    }
  }

  ghost predicate TlvOk(t: Tlv) { 0 < t.kind < 0x1_0000 && |t.data| < WORD32 - 8 }

  // ---- the kernel's walk --------------------------------------------------

  /** Kinds the kernel does not know count as reserved. */
  function KindOf(raw: nat): nat {
    if 1 <= raw <= 5 || 16 <= raw <= 19 then raw else 2
  }

  function EntryAt(data: seq<nat>, i: nat): MapEntry
    requires ENTRY * (i + 1) <= |data|
  {
    MapEntry(Read(data, ENTRY * i, 8), Read(data, ENTRY * i + 8, 8), KindOf(Read(data, ENTRY * i + 16, 4)))
  }

  function EntryCount(data: seq<nat>): (n: nat)
    ensures n <= MAX_ENTRIES && ENTRY * n <= |data|
  {
    if |data| / ENTRY > MAX_ENTRIES then MAX_ENTRIES else |data| / ENTRY
  }

  function Entries(data: seq<nat>): (m: seq<MapEntry>)
    ensures |m| == EntryCount(data)
  {
    seq(EntryCount(data), i requires 0 <= i < EntryCount(data) => EntryAt(data, i))
  }

  /** The effect of one record. */
  function Apply(info: Info, t: Tlv): Info {
    if t.kind == TLV_MEMMAP then info.(memory := Entries(t.data))
    else if t.kind == TLV_KERNEL && |t.data| >= 32 then
      info.(kernelPhys := Read(t.data, 0, 8), kernelVirt := Read(t.data, 8, 8), kernelSize := Read(t.data, 16, 8))
    else if t.kind == TLV_INITRD && |t.data| >= 16 then
      info.(initrdAddr := Read(t.data, 0, 8), initrdSize := Read(t.data, 8, 8))
    else info
  }

  function ApplyAll(info: Info, ts: seq<Tlv>): Info
    decreases |ts|
  {
    if ts == [] then info else ApplyAll(Apply(info, ts[0]), ts[1..])
  }

  /** The records the walk would read all lie in memory. */
  predicate Walkable(mem: seq<nat>, off: nat, total: nat)
    decreases total - off
  {
    total <= |mem| &&
    (off + TLV_HEADER <= total && Read(mem, off, 2) != TLV_END ==>
      off + TLV_HEADER + Read(mem, off + 4, 4) <= |mem|
          && Walkable(mem, off + TLV_HEADER + Align8(Read(mem, off + 4, 4)), total))
  }

  function Walk(mem: seq<nat>, off: nat, total: nat, info: Info): Info
    requires Walkable(mem, off, total)
    decreases total - off
  {
    if off + TLV_HEADER > total || Read(mem, off, 2) == TLV_END then info else
      var n := Read(mem, off + 4, 4);
      Walk(mem, off + TLV_HEADER + Align8(n), total,
          Apply(info, Tlv(Read(mem, off, 2), mem[off + TLV_HEADER..off + TLV_HEADER + n])))
  }

  predicate HeaderGood(mem: seq<nat>) {
    |mem| >= BOOT_HEADER && Read(mem, 0, 8) == BOOT_MAGIC && Read(mem, 8, 2) == BOOT_VERSION
        && Read(mem, 12, 4) >= BOOT_HEADER
  }

  function Empty(flags: nat): Info { Info(flags, [], 0, 0, 0, 0, 0) }

  /** Parse what the loader left; a bad header gives nothing. */
  method Parse(mem: seq<nat>) returns (r: Option<Info>)
    requires |mem| >= BOOT_HEADER && (HeaderGood(mem) ==> Walkable(mem, BOOT_HEADER, Read(mem, 12, 4)))
    ensures r == if HeaderGood(mem) then Some(Walk(mem, BOOT_HEADER, Read(mem, 12, 4), Empty(Read(mem, 16, 4))))
      else None
  {
    hide Read, Align8, Entries;
    if Read(mem, 0, 8) != BOOT_MAGIC { return None; }
    if Read(mem, 8, 2) != BOOT_VERSION { return None; }
    var total := Read(mem, 12, 4);
    if total < BOOT_HEADER { return None; }
    var info := Empty(Read(mem, 16, 4));
    var off := BOOT_HEADER;
    while off + TLV_HEADER <= total && Read(mem, off, 2) != TLV_END
      invariant Walkable(mem, off, total)
      invariant Walk(mem, BOOT_HEADER, total, Empty(Read(mem, 16, 4))) == Walk(mem, off, total, info)
      decreases total - off
    {
      var kind, n := Read(mem, off, 2), Read(mem, off + 4, 4);
      var data := mem[off + TLV_HEADER..off + TLV_HEADER + n];
      if kind == TLV_MEMMAP {
        var memory := ParseEntries(data);
        info := info.(memory := memory);
      } else if kind == TLV_KERNEL {
        if n >= 32 {
          info := info.(kernelPhys := Read(data, 0, 8), kernelVirt := Read(data, 8, 8),
              kernelSize := Read(data, 16, 8));
        }
      } else if kind == TLV_INITRD {
        if n >= 16 { info := info.(initrdAddr := Read(data, 0, 8), initrdSize := Read(data, 8, 8)); }
      }
      off := off + TLV_HEADER + Align8(n);
    }
    return Some(info);
  }

  /** Fill the kernel's table of 256 entries. */
  method ParseEntries(data: seq<nat>) returns (memory: seq<MapEntry>)
    ensures memory == Entries(data)
  {
    hide EntryAt;
    var table := new MapEntry[MAX_ENTRIES](_ => MapEntry(0, 0, 2));
    var count := if |data| / ENTRY > MAX_ENTRIES then MAX_ENTRIES else |data| / ENTRY;
    for i := 0 to count
      invariant forall k {:trigger table[k]} :: 0 <= k < i ==> table[k] == EntryAt(data, k)
    {
      TableEntry(table, data, i);
    }
    memory := table[..count];
  }

  method TableEntry(table: array<MapEntry>, data: seq<nat>, i: nat)
    requires i < table.Length && ENTRY * (i + 1) <= |data|
    modifies table
    ensures table[..] == old(table[..])[i := EntryAt(data, i)]
  {
    table[i] := MapEntry(Read(data, ENTRY * i, 8), Read(data, ENTRY * i + 8, 8), KindOf(Read(data, ENTRY * i + 16, 4)));
  }

  // ---- the walk reads what was written ------------------------------------

  lemma TlvReads(front: seq<nat>, t: Tlv, back: seq<nat>)
    requires TlvOk(t)
    ensures
      var mem, off := front + TlvBytes(t) + back, |front|;
      && Read(mem, off, 2) == t.kind && Read(mem, off + 4, 4) == |t.data|
      && mem[off + TLV_HEADER..off + TLV_HEADER + |t.data|] == t.data
  {
    hide LE, Read, Zeros;
    Pow256Values();
    var a, b, c, p := LE(t.kind, 2), LE(0, 2), LE(|t.data|, 4), Zeros(Align8(|t.data|) - |t.data|);
    var mem := front + TlvBytes(t) + back;
    assert mem == front + a + (b + c + t.data + p + back);
    ReadWritten(front, t.kind, 2, b + c + t.data + p + back);
    assert mem == (front + a + b) + c + (t.data + p + back);
    ReadWritten(front + a + b, |t.data|, 4, t.data + p + back);
    assert mem == (front + a + b + c) + t.data + (p + back);
  }

  /** Either the walk's bound is reached right after the records, or an end marker follows. */
  ghost predicate Ends(mem: seq<nat>, off: nat, total: nat) {
    (off <= total <= |mem| && total < off + TLV_HEADER) || (total == off + TLV_HEADER <= |mem|
        && Read(mem, off, 2) == TLV_END)
  }

  lemma {:induction false} WalkReads(front: seq<nat>, ts: seq<Tlv>, back: seq<nat>, total: nat, info: Info)
    requires forall i {:trigger ts[i]} :: 0 <= i < |ts| ==> TlvOk(ts[i])
    requires Ends(front + AllBytes(ts) + back, |front| + |AllBytes(ts)|, total)
    ensures Walkable(front + AllBytes(ts) + back, |front|, total)
    ensures Walk(front + AllBytes(ts) + back, |front|, total, info) == ApplyAll(info, ts)
    decreases |ts|
  {
    hide Read, TlvBytes, Apply, Align8;
    var mem := front + AllBytes(ts) + back;
    if ts != [] {
      var t, rest := ts[0], ts[1..];
      TlvReads(front, t, AllBytes(rest) + back);
      assert mem == front + TlvBytes(t) + (AllBytes(rest) + back);
      assert mem == (front + TlvBytes(t)) + AllBytes(rest) + back;
      assert |front + TlvBytes(t)| + |AllBytes(rest)| == |front| + |AllBytes(ts)|;
      WalkReads(front + TlvBytes(t), rest, back, total, Apply(info, t));
    }
  }
}
