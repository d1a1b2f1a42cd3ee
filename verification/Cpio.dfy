/** The initrd archive (CPIO newc): what the build tool writes and what the kernel finds
    in it.  Bytes are naturals. */
module Cpio {
  datatype Option<T> = None | Some(value: T)

  const HEADER_SIZE: nat := 110
  const PAGE: nat := 4096
  const WORD32: nat := 0x1_0000_0000
  const MAGIC: seq<nat> := [48, 55, 48, 55, 48, 49]
  const TRAILER: seq<nat> := [84, 82, 65, 73, 76, 69, 82, 33, 33, 33]

  function Align4(n: nat): nat { (n + 3) / 4 * 4 }

  function Zeros(n: nat): (s: seq<nat>)
    ensures |s| == n
  {
    seq(n, _ => 0)
  }

  // ---- hexadecimal fields -------------------------------------------------

  function Pow16(k: nat): (p: nat)
    ensures p > 0
  {
    if k == 0 then 1 else 16 * Pow16(k - 1)
  }

  function HexDigit(d: nat): nat
    requires d < 16
  {
    if d < 10 then 48 + d else 55 + d
  }

  /** The k lowest digits of n, most significant first. */
  function Hex(n: nat, k: nat): (s: seq<nat>)
    ensures |s| == k
  {
    if k == 0 then [] else Hex(n / 16, k - 1) + [HexDigit(n % 16)]
  }

  /** Digits needed, eight at least. */
  function Width(n: nat): (w: nat)
    ensures w >= 8 && (n < WORD32 ==> w == 8)
  {
    if n < WORD32 then 8 else 1 + Width(n / 16)
  }

  function Field(n: nat): seq<nat> { Hex(n, Width(n)) }

  function DigitValue(b: nat): Option<nat> {
    if 48 <= b <= 57 then Some(b - 48)
    else if 97 <= b <= 102 then Some(b - 87)
    else if 65 <= b <= 70 then Some(b - 55)
    else None
  }

  /** The value of the first k digits. */
  function HexValue(s: seq<nat>, k: nat): Option<nat>
    requires k <= |s|
  {
    if k == 0 then Some(0) else
      var rest := HexValue(s, k - 1);
      var d := DigitValue(s[k - 1]);
      if rest.None? || d.None? then None else Some(16 * rest.value + d.value)
  }

  method ParseHex8(bytes: seq<nat>) returns (r: Option<nat>)
    ensures r == if |bytes| < 8 then None else HexValue(bytes, 8)
  {
    if |bytes| < 8 { return None; }
    var val := 0;
    for i := 0 to 8
      invariant HexValue(bytes, i) == Some(val)
    {
      var d := DigitValue(bytes[i]);
      if d.None? {
        NoneStays(bytes, i + 1, 8);
        return None;
      }
      val := 16 * val + d.value;
    }
    return Some(val);
  }

  lemma {:induction false} NoneStays(s: seq<nat>, i: nat, k: nat)
    requires i <= k <= |s| && HexValue(s, i).None?
    ensures HexValue(s, k).None?
    decreases k
  {
    if i < k { NoneStays(s, i, k - 1); }
  }

  lemma {:induction false} HexValuePrefix(s: seq<nat>, t: seq<nat>, k: nat)
    requires k <= |s| && k <= |t| && s[..k] == t[..k]
    ensures HexValue(s, k) == HexValue(t, k)
  {
    if k > 0 {
      assert s[k - 1] == s[..k][k - 1] == t[..k][k - 1] == t[k - 1];
      assert s[..k - 1] == s[..k][..k - 1] == t[..k][..k - 1] == t[..k - 1];
      HexValuePrefix(s, t, k - 1);
    }
  }

  /** Reading back what was written. */
  lemma {:induction false} HexRoundTrip(n: nat, k: nat)
    requires n < Pow16(k)
    ensures HexValue(Hex(n, k), k) == Some(n)
  {
    if k > 0 {
      HexRoundTrip(n / 16, k - 1);
      HexValuePrefix(Hex(n, k), Hex(n / 16, k - 1), k - 1);
    }
  }

  lemma FieldRoundTrip(n: nat)
    requires n < WORD32
    ensures |Field(n)| == 8 && HexValue(Field(n), 8) == Some(n)
  {
    assert Pow16(4) == 0x1_0000;
    assert Pow16(8) == WORD32;
    HexRoundTrip(n, 8);
  }

  // ---- entries ------------------------------------------------------------

  datatype Item = Item(ino: nat, name: seq<nat>, data: seq<nat>, mode: nat, uid: nat, gid: nat)

  function Header(ino: nat, mode: nat, filesize: nat, namesize: nat, uid: nat, gid: nat): seq<nat> {
    MAGIC + Field(ino) + Field(mode) + Field(uid) + Field(gid) + Field(1) + Field(0) + Field(filesize)
    + Field(0) + Field(0) + Field(0) + Field(0) + Field(namesize) + Field(0)
  }

  predicate Fits(it: Item) {
    it.ino < WORD32 && it.mode < WORD32 && it.uid < WORD32 && it.gid < WORD32 && |it.data| < WORD32
        && |it.name| + 1 < WORD32
  }

  /** The header is where the reader expects it, when its numbers fit in 32 bits. */
  lemma HeaderLayout(ino: nat, mode: nat, filesize: nat, namesize: nat, uid: nat, gid: nat)
    requires ino < WORD32 && mode < WORD32 && filesize < WORD32 && namesize < WORD32 && uid < WORD32 && gid < WORD32
    ensures
      var h := Header(ino, mode, filesize, namesize, uid, gid);
      |h| == HEADER_SIZE && h[..6] == MAGIC && h[54..62] == Field(filesize) && h[94..102] == Field(namesize)
  {
    hide Field;
    FieldRoundTrip(ino); FieldRoundTrip(mode); FieldRoundTrip(uid); FieldRoundTrip(gid);
    FieldRoundTrip(0); FieldRoundTrip(1); FieldRoundTrip(filesize); FieldRoundTrip(namesize);
    var front := MAGIC + Field(ino) + Field(mode) + Field(uid) + Field(gid) + Field(1) + Field(0);
    var middle := Field(0) + Field(0) + Field(0) + Field(0);
    var h := Header(ino, mode, filesize, namesize, uid, gid);
    assert h == front + Field(filesize) + middle + Field(namesize) + Field(0);
    assert |front| == 54 && |middle| == 32;
  }

  function EntryBytes(it: Item): seq<nat> {
    var namesize := |it.name| + 1;
    Header(it.ino, it.mode, |it.data|, namesize, it.uid, it.gid) + it.name + [0]
    + Zeros(Align4(HEADER_SIZE + namesize) - (HEADER_SIZE + namesize)) + it.data + Zeros(Align4(|it.data|) - |it.data|)
  }

  const END_ITEM: Item := Item(0, TRAILER, [], 0, 0, 0)

  function AllBytes(items: seq<Item>): seq<nat> {
    if items == [] then [] else AllBytes(items[..|items| - 1]) + EntryBytes(items[|items| - 1])
  }

  /** The archive: the entries, then the trailer. */
  function ArchiveBytes(items: seq<Item>): seq<nat> { AllBytes(items) + EntryBytes(END_ITEM) }

  /** Where in its entry the data starts. */
  function DataOffset(it: Item): nat { Align4(HEADER_SIZE + |it.name| + 1) }

  lemma EntryLayout(it: Item)
    requires Fits(it)
    ensures
      var e := EntryBytes(it);
      var h := Header(it.ino, it.mode, |it.data|, |it.name| + 1, it.uid, it.gid);
      && |e| == DataOffset(it) + Align4(|it.data|) && DataOffset(it) + |it.data| <= |e|
      && |h| == HEADER_SIZE && e[..HEADER_SIZE] == h
      && HEADER_SIZE + |it.name| + 1 <= DataOffset(it)
      && e[HEADER_SIZE..HEADER_SIZE + |it.name|] == it.name && e[HEADER_SIZE + |it.name|] == 0
      && e[DataOffset(it)..DataOffset(it) + |it.data|] == it.data
  {
    hide Header, Align4, Zeros, EntryBytes;
    HeaderLayout(it.ino, it.mode, |it.data|, |it.name| + 1, it.uid, it.gid);
    var h := Header(it.ino, it.mode, |it.data|, |it.name| + 1, it.uid, it.gid);
    var n := HEADER_SIZE + |it.name| + 1;
    Aligned(n);
    Aligned(|it.data|);
    var gap, fill := Zeros(Align4(n) - n), Zeros(Align4(|it.data|) - |it.data|);
    EntryIs(it, h, gap, fill);
    Pieces(h, it.name, gap, it.data, fill);
  }

  lemma EntrySize(it: Item)
    requires Fits(it)
    ensures |EntryBytes(it)| % 4 == 0
  {
    hide EntryBytes, Align4, Header;
    EntryLayout(it);
    Aligned(|it.data|);
    Aligned(HEADER_SIZE + |it.name| + 1);
    FoursAdd(DataOffset(it), Align4(|it.data|));
  }

  lemma FoursAdd(a: nat, b: nat)
    requires a % 4 == 0 && b % 4 == 0
    ensures (a + b) % 4 == 0
  {
  }

  lemma EntryIs(it: Item, h: seq<nat>, gap: seq<nat>, fill: seq<nat>)
    requires h == Header(it.ino, it.mode, |it.data|, |it.name| + 1, it.uid, it.gid)
    requires gap == Zeros(Align4(HEADER_SIZE + |it.name| + 1) - (HEADER_SIZE + |it.name| + 1))
    requires fill == Zeros(Align4(|it.data|) - |it.data|)
    ensures EntryBytes(it) == h + it.name + [0] + gap + it.data + fill
  {
    hide Header, Align4, Zeros;
  }

  lemma Aligned(n: nat)
    ensures n <= Align4(n) < n + 4 && Align4(n) % 4 == 0
  {
  }

  lemma Pieces(h: seq<nat>, name: seq<nat>, gap: seq<nat>, data: seq<nat>, fill: seq<nat>)
    ensures
      var e := h + name + [0] + gap + data + fill;
      var n, d := |h| + |name|, |h| + |name| + 1 + |gap|;
      && |e| == d + |data| + |fill| && e[..|h|] == h && e[|h|..n] == name && e[n] == 0 && e[d..d + |data|] == data
  {
    var e := h + name + [0] + gap + data + fill;
    var a, b := h + name + [0], h + name + [0] + gap;
    assert e == b + data + fill && b == a + gap;
  }

  // ---- the kernel's lookup ------------------------------------------------

  datatype Found = Found(name: seq<nat>, data: seq<nat>)

  datatype Step = Stop(result: Option<Found>) | Next(offset: nat)

  /** One round of the reader: an answer, or the offset of the next entry. */
  function ReadEntry(archive: seq<nat>, offset: nat, name: seq<nat>): (step: Step)
    ensures step.Next? ==> offset < step.offset && offset < |archive|
  {
    if offset + HEADER_SIZE > |archive| then Stop(None)
    else
      var header := archive[offset..offset + HEADER_SIZE];
      if header[..6] != MAGIC then Stop(None)
      else
        var namesize, filesize := HexValue(header[94..102], 8), HexValue(header[54..62], 8);
        if namesize.None? || filesize.None? then Stop(None)
        else
          var start := offset + HEADER_SIZE;
          if start + namesize.value > |archive| then Stop(None)
          else
            var entry := EntryName(archive, start, namesize.value);
            if entry == TRAILER then Stop(None)
            else
              var dataStart := Align4(start + namesize.value);
              var dataEnd := dataStart + filesize.value;
              if dataEnd > |archive| then Stop(None)
              else if entry == name then Stop(Some(Found(entry, archive[dataStart..dataEnd])))
              else Next(Align4(dataEnd))
  }

  /** The reader, from an offset on. */
  function FindAt(archive: seq<nat>, offset: nat, name: seq<nat>): Option<Found>
    decreases |archive| - offset
  {
    var step := ReadEntry(archive, offset, name);
    if step.Stop? then step.result else FindAt(archive, step.offset, name)
  }

  /** The name without its terminating zero, if it has one. */
  function EntryName(archive: seq<nat>, start: nat, namesize: nat): seq<nat>
    requires start + namesize <= |archive|
  {
    if namesize > 0 && archive[start + namesize - 1] == 0 then archive[start..start + namesize - 1]
    else archive[start..start + namesize]
  }

  method FindFile(archive: seq<nat>, name: seq<nat>) returns (r: Option<Found>)
    ensures r == FindAt(archive, 0, name)
  {
    hide ReadEntry;
    var offset := 0;
    while true
      invariant FindAt(archive, 0, name) == FindAt(archive, offset, name)
      decreases |archive| - offset
    {
      var step := NextEntry(archive, offset, name);
      if step.Stop? { return step.result; }
      offset := step.offset;
    }
  }

  method NextEntry(archive: seq<nat>, offset: nat, name: seq<nat>) returns (step: Step)
    ensures step == ReadEntry(archive, offset, name)
  {
    hide HexValue, EntryName, Align4;
    if offset + HEADER_SIZE > |archive| { return Stop(None); }
    var header := archive[offset..offset + HEADER_SIZE];
    if header[..6] != MAGIC { return Stop(None); }
    var namesize := ParseHex8(header[94..102]);
    if namesize.None? { return Stop(None); }
    var filesize := ParseHex8(header[54..62]);
    if filesize.None? { return Stop(None); }
    var start := offset + HEADER_SIZE;
    if start + namesize.value > |archive| { return Stop(None); }
    var entry := EntryName(archive, start, namesize.value);
    if entry == TRAILER { return Stop(None); }
    var dataStart := Align4(offset + HEADER_SIZE + namesize.value);
    var dataEnd := dataStart + filesize.value;
    if dataEnd > |archive| { return Stop(None); }
    Aligned(start + namesize.value);
    if entry == name { return Stop(Some(Found(entry, archive[dataStart..dataEnd]))); }
    return Next(Align4(dataEnd));
  }

  // ---- reading what was written -------------------------------------------

  lemma Embedded(pre: seq<nat>, e: seq<nat>, post: seq<nat>, i: nat, j: nat)
    requires i <= j <= |e|
    ensures (pre + e + post)[|pre| + i..|pre| + j] == e[i..j]
  {
  }

  /** One written entry, met at a multiple of four. */
  lemma ReadWritten(pre: seq<nat>, it: Item, post: seq<nat>, name: seq<nat>)
    requires Fits(it) && |pre| % 4 == 0
    ensures
      ReadEntry(pre + EntryBytes(it) + post, |pre|, name)
        == if it.name == TRAILER then Stop(None)
           else if it.name == name then Stop(Some(Found(name, it.data)))
           else Next(|pre| + |EntryBytes(it)|)
  {
    hide EntryBytes, Header, HexValue, EntryName, Align4;
    var e := EntryBytes(it);
    EntryLayout(it);
    EntryReads(pre, it, post);
    Embedded(pre, e, post, DataOffset(it), DataOffset(it) + |it.data|);
    DataPlace(|pre|, |it.name|, |it.data|);
  }

  lemma DataPlace(offset: nat, name: nat, data: nat)
    requires offset % 4 == 0
    ensures
      var d := Align4(HEADER_SIZE + name + 1);
      Align4(offset + HEADER_SIZE + (name + 1)) == offset + d && Align4(offset + d + data) == offset + d + Align4(data)
  {
  }

  /** The fields and the name the reader gets. */
  lemma EntryReads(pre: seq<nat>, it: Item, post: seq<nat>)
    requires Fits(it)
    ensures
      var archive := pre + EntryBytes(it) + post;
      && |pre| + HEADER_SIZE + |it.name| + 1 <= |archive|
      && var header := archive[|pre|..|pre| + HEADER_SIZE];
      && header[..6] == MAGIC
      && HexValue(header[94..102], 8) == Some(|it.name| + 1) && HexValue(header[54..62], 8) == Some(|it.data|)
      && EntryName(archive, |pre| + HEADER_SIZE, |it.name| + 1) == it.name
  {
    hide EntryBytes, Header;
    var e := EntryBytes(it);
    EntryLayout(it);
    HeaderLayout(it.ino, it.mode, |it.data|, |it.name| + 1, it.uid, it.gid);
    FieldRoundTrip(|it.data|);
    FieldRoundTrip(|it.name| + 1);
    Embedded(pre, e, post, 0, HEADER_SIZE);
    Embedded(pre, e, post, HEADER_SIZE, HEADER_SIZE + |it.name|);
    assert (pre + e + post)[|pre| + HEADER_SIZE + |it.name|] == e[HEADER_SIZE + |it.name|];
  }

  /** The first item of that name, unless one called like the trailer comes before. */
  function Lookup(items: seq<Item>, name: seq<nat>): Option<Found> {
    if items == [] || items[0].name == TRAILER then None
    else if items[0].name == name then Some(Found(name, items[0].data))
    else Lookup(items[1..], name)
  }

  lemma {:induction false} AllBytesFirst(items: seq<Item>)
    requires items != []
    ensures AllBytes(items) == EntryBytes(items[0]) + AllBytes(items[1..])
  {
    hide EntryBytes;
    if |items| > 1 {
      var front := items[..|items| - 1];
      AllBytesFirst(front);
      assert front[1..] == items[1..][..|items| - 2];
      assert items[1..][|items| - 2] == items[|items| - 1];
    }
  }

  lemma {:induction false} LookupFrom(archive: seq<nat>, pre: seq<nat>, items: seq<Item>, name: seq<nat>)
    requires |pre| % 4 == 0 && forall i {:trigger items[i]} :: 0 <= i < |items| ==> Fits(items[i])
    requires archive == pre + ArchiveBytes(items)
    ensures FindAt(archive, |pre|, name) == Lookup(items, name)
    decreases |items|
  {
    hide EntryBytes, ReadEntry, ArchiveBytes, DataOffset, Align4;
    if items == [] {
      ReadWritten(pre, END_ITEM, [], name);
      NoItems();
      assert archive == pre + EntryBytes(END_ITEM) + [];
    } else {
      var e, rest := EntryBytes(items[0]), items[1..];
      EntrySize(items[0]);
      ReadWritten(pre, items[0], ArchiveBytes(rest), name);
      ArchiveFirst(items);
      Regroup(pre, e, ArchiveBytes(rest));
      LookupFrom(archive, pre + e, rest, name);
    }
  }

  lemma Regroup(a: seq<nat>, b: seq<nat>, c: seq<nat>)
    ensures a + (b + c) == a + b + c && |a + b| == |a| + |b|
  {
  }

  /** Looking a name up in a written archive finds the first item of that name, for
      every list of items that fit. */
  lemma ArchiveLookup(items: seq<Item>, name: seq<nat>)
    requires forall i {:trigger items[i]} :: 0 <= i < |items| ==> Fits(items[i])
    ensures FindAt(ArchiveBytes(items), 0, name) == Lookup(items, name)
  {
    hide ArchiveBytes, Lookup, FindAt;
    assert ArchiveBytes(items) == [] + ArchiveBytes(items);
    LookupFrom(ArchiveBytes(items), [], items, name);
  }

  lemma NoItems()
    ensures ArchiveBytes([]) == EntryBytes(END_ITEM)
  {
    hide EntryBytes;
    assert AllBytes([]) == [];
  }

  lemma ArchiveFirst(items: seq<Item>)
    requires items != []
    ensures ArchiveBytes(items) == EntryBytes(items[0]) + ArchiveBytes(items[1..])
  {
    hide EntryBytes;
    AllBytesFirst(items);
  }
}
