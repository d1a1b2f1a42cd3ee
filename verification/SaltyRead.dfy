/** What a sound image is good for: every used block has one owner, every key is found,
    every file reads back. */
module SaltyRead {
  import opened SaltyTree
  import opened SaltySearch
  import opened SaltyBuild
  import opened SaltyLayout
  import opened SaltyImage
  import Manifest

  // ---- owners -------------------------------------------------------------

  /** Every block below the mark belongs to the head, the tree, or exactly one file, and
      no block above it belongs to anything; the bitmap marks just these. */
  lemma BlocksOwned(im: Image, total: nat, fixed: seq<Item>, files: seq<File>, b: nat)
    requires Sound(im, total, fixed, files)
    ensures im.treeStart <= im.dataStart <= im.used <= 8 * |im.bitmap|
    ensures im.dataStart <= b < im.used <==> exists i :: 0 <= i < |im.extents| && Within(im.extents[i], b)
    ensures forall i, j :: 0 <= i < j < |im.extents| ==> !(Within(im.extents[i], b) && Within(im.extents[j], b))
    ensures b < 8 * |im.bitmap| ==>
      (Marked(im.bitmap, b) <==>
        b < im.treeStart || im.treeStart <= b < im.dataStart || exists i ::
            0 <= i < |im.extents| && Within(im.extents[i], b))
  {
    hide Place, Leaves, Metadata, Holds, HeadOf, OnDisk, Blocks, TreeBlocks, Height, Base, BitmapBlocks, TreeStart;
    PlaceTiles(fixed, files, im.dataStart, |files|);
    TilesCover(im.extents, im.dataStart, im.used, b);
    TilesBounds(im.extents, im.dataStart, im.used, 0);
    BitmapRoom(total);
  }

  // ---- keys ---------------------------------------------------------------

  /** The driver's lookup of one key. */
  method FindItem(nodes: map<nat, Block>, root: nat, key: Key) returns (r: Option<seq<nat>>)
    ensures r == Lookup(nodes, root, key)
  {
    var leaf := Search(nodes, root, key);
    if leaf.None? { return None; }
    r := LeafFind(leaf.value, key);
  }

  function Lookup(nodes: map<nat, Block>, root: nat, key: Key): Option<seq<nat>> {
    var leaf := SearchFrom(nodes, root, key, 0);
    if leaf.None? then None else FindIn(leaf.value, key)
  }

  /** Over distinct keys a lookup in the image answers as the item list does, for keys
      that are there and keys that are not. */
  lemma ImageFinds(im: Image, total: nat, fixed: seq<Item>, files: seq<File>, key: Key)
    requires Sound(im, total, fixed, files) && total < WORD
    requires Distinct(Place(fixed, files, im.dataStart, |files|).items)
    ensures Lookup(Nodes(im.blocks), im.root, key) == FindIn(Place(fixed, files, im.dataStart, |files|).items, key)
    ensures var leaf := SearchFrom(Nodes(im.blocks), im.root, key, 0); leaf.Some? && Sorted(leaf.value)
  {
    hide Sorted, Place, Leaves, SortItems, Distinct, Holds, HeadOf, OnDisk, Height, Base, Nodes, BitmapBlocks,
      TreeStart, SearchFrom, FindIn, TreeBlocks, Flat;
    var items := Place(fixed, files, im.dataStart, |files|).items;
    var leaves := Leaves(SortItems(items)).value;
    SortSorts(items);
    SortFinds(items, key);
    SplitHolds(SortItems(items));
    LeavesFew(im, total, fixed, files);
    DepthFits(|leaves|);
    SearchFinds(Nodes(im.blocks), leaves, im.treeStart, key);
  }

  /** There are no more leaves than blocks. */
  lemma LeavesFew(im: Image, total: nat, fixed: seq<Item>, files: seq<File>)
    requires Sound(im, total, fixed, files)
    ensures |Leaves(Metadata(fixed, files, im.dataStart)).value| <= total
  {
    hide Place, Leaves, Metadata, Holds, HeadOf, OnDisk, Height, Nodes, BitmapBlocks, TreeStart;
    var n := |Leaves(Metadata(fixed, files, im.dataStart)).value|;
    PlaceTiles(fixed, files, im.dataStart, |files|);
    TilesBounds(im.extents, im.dataStart, im.used, 0);
    BaseGrows(0, n, 0, Height(n));
  }

  /** Every block of the tree fits into 4096 bytes. */
  lemma ImageBlocksFit(im: Image, total: nat, fixed: seq<Item>, files: seq<File>, i: nat, j: nat)
    requires Sound(im, total, fixed, files)
    requires i < Height(|Leaves(Metadata(fixed, files, im.dataStart)).value|)
    requires j < LevelSize(|Leaves(Metadata(fixed, files, im.dataStart)).value|, i)
    ensures
      var b := Base(im.treeStart, |Leaves(Metadata(fixed, files, im.dataStart)).value|, i) + j;
      b in Nodes(im.blocks) && BlockSize(Nodes(im.blocks)[b]) <= BLOCK_SIZE
  {
    hide Place, Leaves, Metadata, HeadOf, OnDisk, Height, LevelSize, Base, Nodes, BitmapBlocks, TreeStart, NodeAt,
      BlockSize, GoodLeaf, Flat, TreeBlocks;
    var leaves := Leaves(Metadata(fixed, files, im.dataStart)).value;
    SplitHolds(Metadata(fixed, files, im.dataStart));
    assert Right(Nodes(im.blocks), leaves, im.treeStart, i, j);
    BlocksFit(leaves, im.treeStart, i, j);
  }

  // ---- reading a file -----------------------------------------------------

  predicate Readable(blocks: seq<DiskBlock>, a: nat) {
    a / BLOCK_SIZE < |blocks| && blocks[a / BLOCK_SIZE].Data? && |blocks[a / BLOCK_SIZE].bytes| == BLOCK_SIZE
  }

  function ByteAt(blocks: seq<DiskBlock>, a: nat): nat
    requires Readable(blocks, a)
  {
    blocks[a / BLOCK_SIZE].bytes[a % BLOCK_SIZE]
  }

  ghost predicate AllReadable(blocks: seq<DiskBlock>, start: nat, n: nat) {
    forall a: nat {:trigger Readable(blocks, a)} :: start <= a < start + n ==> Readable(blocks, a)
  }

  /** Byte i of the buffer is the disk's byte at start + i. */
  ghost predicate Copied(blocks: seq<DiskBlock>, start: nat, bytes: seq<nat>) {
    && AllReadable(blocks, start, |bytes|)
    && forall i: nat {:trigger bytes[i]} :: i < |bytes| ==> bytes[i] == ByteAt(blocks, start + i)
  }

  /** Block by block; stops when a block cannot be read. */
  method ReadRegular(blocks: seq<DiskBlock>, start: nat, length: nat) returns (r: Option<seq<nat>>)
    ensures r.Some? <==> AllReadable(blocks, start, length)
    ensures r.Some? ==> |r.value| == length && Copied(blocks, start, r.value)
  {
    var bytes: seq<nat>, pos: nat := [], 0;
    while pos < length
      invariant pos == |bytes| <= length && Copied(blocks, start, bytes)
    {
      var at := start + pos;
      var block, off := at / BLOCK_SIZE, at % BLOCK_SIZE;
      var can := Smaller(BLOCK_SIZE - off, length - pos);
      if block >= |blocks| || !blocks[block].Data? || |blocks[block].bytes| != BLOCK_SIZE {
        assert !Readable(blocks, start + pos);
        return None;
      }
      CopyPiece(blocks, start, bytes, can);
      bytes := bytes + blocks[block].bytes[off..off + can];
      pos := pos + can;
    }
    return Some(bytes);
  }

  lemma CopyPiece(blocks: seq<DiskBlock>, start: nat, bytes: seq<nat>, can: nat)
    requires Copied(blocks, start, bytes) && Readable(blocks, start + |bytes|)
      && can + (start + |bytes|) % BLOCK_SIZE <= BLOCK_SIZE
    ensures
      var at := start + |bytes|;
      Copied(blocks, start, bytes + blocks[at / BLOCK_SIZE].bytes[at % BLOCK_SIZE..at % BLOCK_SIZE + can])
  {
    var at := start + |bytes|;
    var more := bytes + blocks[at / BLOCK_SIZE].bytes[at % BLOCK_SIZE..at % BLOCK_SIZE + can];
    forall a: nat {:trigger Readable(blocks, a)} | start <= a < start + |more| ensures Readable(blocks, a)
      && more[a - start] == ByteAt(blocks, a) {
      if a < at {
        assert more[a - start] == bytes[a - start];
      } else {
        SameBlock(at, a - at);
      }
    }
    forall i: nat {:trigger more[i]} | i < |more|
      ensures more[i] == ByteAt(blocks, start + i) { assert Readable(blocks, start + i); }
  }

  lemma CopiedNothing(blocks: seq<DiskBlock>, start: nat)
    ensures AllReadable(blocks, start, 0) && Copied(blocks, start, [])
  {
  }

  lemma SameBlock(at: nat, k: nat)
    requires at % BLOCK_SIZE + k < BLOCK_SIZE
    ensures (at + k) / BLOCK_SIZE == at / BLOCK_SIZE && (at + k) % BLOCK_SIZE == at % BLOCK_SIZE + k
  {
  }

  /** One extent's part of a read of count bytes at an offset, in a file of a size. */
  method ReadExtent(blocks: seq<DiskBlock>, data: seq<nat>, size: nat, off: nat, count: nat)
      returns (r: Option<seq<nat>>)
    requires |data| >= EXTENT_HEADER
    ensures off < size && data[20] == 0 && Manifest.Read(data, 8, 8) == size && |data| == EXTENT_HEADER + size ==>
      r == Some(data[EXTENT_HEADER + off..EXTENT_HEADER + Smaller(off + count, size)])
    ensures off < size && data[20] == 1 && Manifest.Read(data, 40, 8) == 0 && Manifest.Read(data, 48, 8) == size ==>
      var from := Manifest.Read(data, 24, 8) + off;
      var n := Smaller(count, size - off);
      && (r.Some? <==> AllReadable(blocks, from, n))
      && (r.Some? ==> |r.value| == n && Copied(blocks, from, r.value))
    ensures off >= size ==> r == Some([])
  {
    hide Manifest.Read, Readable, Copied, AllReadable;
    if off >= size { return Some([]); }
    var actual := if off + count > size then size - off else count;
    var end := off + actual;
    if data[20] == 0 {
      var inline := Manifest.Read(data, 8, 8);
      if off >= inline { return Some([]); }
      var stop := Smaller(end, inline);
      if EXTENT_HEADER + stop > |data| { return None; }
      return Some(data[EXTENT_HEADER + off..EXTENT_HEADER + stop]);
    } else if data[20] == 1 {
      var start, first, bytes := Manifest.Read(data, 24, 8), Manifest.Read(data, 40, 8), Manifest.Read(data, 48, 8);
      if off >= first + bytes || end <= first {
        CopiedNothing(blocks, start + off);
        return Some([]);
      }
      var from := if off > first then off - first else 0;
      var stop := if end < first + bytes then end - first else bytes;
      r := ReadRegular(blocks, start + from, stop - from);
    } else {
      return Some([]);
    }
  }

  // ---- round trip ---------------------------------------------------------

  /** Every file's inode and extent items are in the list, and its extent is placed. */
  lemma {:induction false} ItemPlaced(fixed: seq<Item>, files: seq<File>, first: nat, n: nat, k: nat)
    requires k < n <= |files|
    ensures
      var p, at := Place(fixed, files, first, n), Place(fixed, files, first, k).next;
      && InodeItem(files[k]) in p.items && ExtentItem(files[k], at) in p.items && at <= p.next
      && (|files[k].content| > INLINE_MAX ==> Extent(at, files[k].content) in p.extents)
  {
    hide ExtentItem, InodeItem, Blocks;
    var p := Place(fixed, files, first, n - 1);
    var f := files[n - 1];
    var items := p.items + [InodeItem(f)] + f.others + [ExtentItem(f, p.next)];
    assert Place(fixed, files, first, n).items == items;
    if k < n - 1 {
      ItemPlaced(fixed, files, first, n - 1, k);
      assert forall x {:trigger x in p.items} :: x in p.items ==> x in items;
    } else {
      assert items[|p.items|] in items && items[|items| - 1] in items;
    }
  }

  lemma {:induction false} FoundIfThere(items: seq<Item>, i: nat)
    requires Distinct(items) && i < |items|
    ensures FindIn(items, items[i].key) == Some(items[i].data)
  {
    if i > 0 {
      assert items[0].key != items[i].key;
      FoundIfThere(items[1..], i - 1);
    }
  }

  lemma ExtentReads(ram: nat, kind: nat, start: nat, length: nat, bytes: nat, back: seq<nat>)
    requires ram < WORD && start < WORD && bytes < WORD
    ensures
      var s := ExtentData(ram, kind, start, length, bytes) + back;
      && s[20] == kind && Manifest.Read(s, 8, 8) == ram && Manifest.Read(s, 24, 8) == start
      && Manifest.Read(s, 40, 8) == 0 && Manifest.Read(s, 48, 8) == bytes
  {
    hide Manifest.LE, Manifest.Read;
    Manifest.Pow256Values();
    var a, m := Manifest.LE(1, 8), [0, 0] + Manifest.LE(0, 2) + [kind, 0, 0, 0];
    var b, c, d, e, f := Manifest.LE(ram, 8), Manifest.LE(start, 8), Manifest.LE(length, 8),
      Manifest.LE(0, 8), Manifest.LE(bytes, 8);
    var s := ExtentData(ram, kind, start, length, bytes) + back;
    assert s == a + b + (m + c + d + e + f + back);
    Manifest.ReadWritten(a, ram, 8, m + c + d + e + f + back);
    assert s == (a + b + m) + c + (d + e + f + back);
    Manifest.ReadWritten(a + b + m, start, 8, d + e + f + back);
    assert s == (a + b + m + c + d) + e + (f + back);
    Manifest.ReadWritten(a + b + m + c + d, 0, 8, f + back);
    assert s == (a + b + m + c + d + e) + f + back;
    Manifest.ReadWritten(a + b + m + c + d + e, bytes, 8, back);
  }

  /** A placed extent reads as its content. */
  lemma ExtentOnDisk(blocks: seq<DiskBlock>, e: Extent, a: nat)
    requires OnDisk(blocks, e) && a < |e.content|
    ensures Readable(blocks, e.block * BLOCK_SIZE + a) && ByteAt(blocks, e.block * BLOCK_SIZE + a) == e.content[a]
  {
    hide Padded;
    var k := a / BLOCK_SIZE;
    ChunkIndex(|e.content|, a);
    Address(e.block, a);
    assert Chunk(e.content, k)[a % BLOCK_SIZE] == Padded(e.content)[a];
  }

  lemma ChunkIndex(n: nat, a: nat)
    requires a < n
    ensures a / BLOCK_SIZE < Blocks(n)
  {
  }

  lemma Address(block: nat, a: nat)
    ensures (block * BLOCK_SIZE + a) / BLOCK_SIZE == block + a / BLOCK_SIZE
      && (block * BLOCK_SIZE + a) % BLOCK_SIZE == a % BLOCK_SIZE
  {
  }

  lemma CopiedContent(blocks: seq<DiskBlock>, e: Extent, off: nat, n: nat)
    requires OnDisk(blocks, e) && off + n <= |e.content|
    ensures AllReadable(blocks, e.block * BLOCK_SIZE + off, n)
    ensures forall s :: |s| == n && Copied(blocks, e.block * BLOCK_SIZE + off, s) ==> s == e.content[off..off + n]
  {
    hide OnDisk, Readable, ByteAt;
    var from := e.block * BLOCK_SIZE;
    forall a: nat {:trigger Readable(blocks, a)} | from + off <= a < from + off + n ensures Readable(blocks, a) {
      ExtentOnDisk(blocks, e, a - from);
    }
    forall s | |s| == n && Copied(blocks, from + off, s) ensures s == e.content[off..off + n] {
      forall i: nat | i < n ensures s[i] == e.content[off + i] { ExtentOnDisk(blocks, e, off + i); }
    }
  }

  // ---- the driver's walk over an inode's items ----------------------------

  /** What the walk meets first in a leaf: an item of the inode and kind, an item past
      them, or only smaller ones, after which it goes on to the next leaf. */
  datatype Visit = Visited(item: Item) | Past | NextLeaf

  function VisitFrom(items: seq<Item>, ino: nat, kind: nat, i: nat): Visit
    requires i <= |items|
    decreases |items| - i
  {
    if i == |items| then NextLeaf
    else if Less(items[i].key, Key(ino, kind, 0)) then VisitFrom(items, ino, kind, i + 1)
    else if items[i].key.obj == ino && items[i].key.kind == kind then Visited(items[i])
    else if items[i].key.obj > ino || (items[i].key.obj == ino && items[i].key.kind > kind) then Past
    else VisitFrom(items, ino, kind, i + 1)
  }

  method VisitFirst(items: seq<Item>, ino: nat, kind: nat) returns (v: Visit)
    ensures v == VisitFrom(items, ino, kind, 0)
  {
    for i := 0 to |items|
      invariant VisitFrom(items, ino, kind, 0) == VisitFrom(items, ino, kind, i)
    {
      var key := items[i].key;
      if !Less(key, Key(ino, kind, 0)) {
        if key.obj == ino && key.kind == kind { return Visited(items[i]); }
        if key.obj > ino || (key.obj == ino && key.kind > kind) { return Past; }
      }
    }
    return NextLeaf;
  }

  /** In a sorted leaf the walk meets the item at offset 0 first, if it is there. */
  lemma {:induction false} VisitMeets(items: seq<Item>, ino: nat, kind: nat, data: seq<nat>, i: nat)
    requires Sorted(items) && i <= |items| && FindIn(items[i..], Key(ino, kind, 0)) == Some(data)
    ensures VisitFrom(items, ino, kind, i) == Visited(Item(Key(ino, kind, 0), data))
    decreases |items| - i
  {
    var key := Key(ino, kind, 0);
    assert items[i..] != [] && items[i..][0] == items[i] && items[i..][1..] == items[i + 1..];
    if items[i].key != key {
      VisitMeets(items, ino, kind, data, i + 1);
      var m := FoundAt(items, key, i + 1);
      assert Less(items[i].key, items[m].key);
    }
  }

  lemma {:induction false} FoundAt(items: seq<Item>, key: Key, i: nat) returns (m: nat)
    requires i <= |items| && FindIn(items[i..], key).Some?
    ensures i <= m < |items| && items[m].key == key
    decreases |items| - i
  {
    assert items[i..] != [] && items[i..][0] == items[i] && items[i..][1..] == items[i + 1..];
    if items[i].key == key { m := i; } else { m := FoundAt(items, key, i + 1); }
  }

  // ---- reading ------------------------------------------------------------

  /** Reading any file of the image, at any offset and for any count, gives its bytes: the
      size comes from the inode, and the first item the walk meets covers the read, so
      the walk ends there. */
  method ReadFile(im: Image, ino: nat, off: nat, count: nat,
                  ghost total: nat, ghost fixed: seq<Item>, ghost files: seq<File>, ghost k: nat)
    returns (r: Option<seq<nat>>)
    requires Sound(im, total, fixed, files) && total * BLOCK_SIZE < WORD
    requires Distinct(Place(fixed, files, im.dataStart, |files|).items)
    requires k < |files| && files[k].ino == ino && |files[k].content| < WORD
    ensures r == Some(files[k].content[Smaller(off, |files[k].content|)..Smaller(off + count, |files[k].content|)])
  {
    hide Place, Distinct, Sound, Lookup, ExtentItem, InodeItem, Manifest.Read, AllReadable, Copied, Nodes, VisitFrom,
      Sorted;
    ghost var f := files[k];
    ghost var at := FileFound(im, total, fixed, files, k);
    var inode := FindItem(Nodes(im.blocks), im.root, Key(ino, INODE_ITEM, 0));
    SizeDecodes(f);
    var size := Manifest.Read(inode.value, 8, 8);
    var leaf := Search(Nodes(im.blocks), im.root, Key(ino, EXTENT_ITEM, 0));
    var v := VisitFirst(leaf.value, ino, EXTENT_ITEM);
    var data := v.item.data;
    DataDecodes(f, at);
    r := ReadExtent(im.blocks, data, size, off, count);
    if off >= size {
      assert f.content[size..size] == [];
    } else if size > INLINE_MAX {
      CopiedContent(im.blocks, Extent(at, f.content), off, Smaller(count, size - off));
      assert off + Smaller(count, size - off) == Smaller(off + count, size);
    } else {
      SuffixSlice(data, EXTENT_HEADER, off, Smaller(off + count, size));
    }
  }

  lemma SuffixSlice(s: seq<nat>, at: nat, from: nat, to: nat)
    requires from <= to && at + to <= |s|
    ensures s[at..][from..to] == s[at + from..at + to]
  {
  }

  lemma FileFound(im: Image, total: nat, fixed: seq<Item>, files: seq<File>, k: nat) returns (at: nat)
    requires Sound(im, total, fixed, files) && total * BLOCK_SIZE < WORD
    requires Distinct(Place(fixed, files, im.dataStart, |files|).items) && k < |files|
    ensures Lookup(Nodes(im.blocks), im.root, InodeKey(files[k])) == Some(InodeItem(files[k]).data)
    ensures at * BLOCK_SIZE < WORD
    ensures
      var leaf := SearchFrom(Nodes(im.blocks), im.root, ExtentKey(files[k]), 0);
      leaf.Some? && VisitFrom(leaf.value, files[k].ino, EXTENT_ITEM, 0) == Visited(ExtentItem(files[k], at))
    ensures |files[k].content| > INLINE_MAX ==> OnDisk(im.blocks, Extent(at, files[k].content))
  {
    at := Place(fixed, files, im.dataStart, k).next;
    hide Place, Distinct, Lookup, Leaves, Metadata, Holds, HeadOf, OnDisk, Height, Base, Nodes, BitmapBlocks,
      TreeStart, TreeBlocks;
    ItemPlaced(fixed, files, im.dataStart, |files|, k);
    var items := Place(fixed, files, im.dataStart, |files|).items;
    FoundItem(im, total, fixed, files, InodeItem(files[k]));
    FoundItem(im, total, fixed, files, ExtentItem(files[k], at));
    var leaf := SearchFrom(Nodes(im.blocks), im.root, ExtentKey(files[k]), 0);
    assert leaf.value[0..] == leaf.value;
    VisitMeets(leaf.value, files[k].ino, EXTENT_ITEM, ExtentItem(files[k], at).data, 0);
  }

  /** Every item of the list is found under its key, in a sorted leaf. */
  lemma FoundItem(im: Image, total: nat, fixed: seq<Item>, files: seq<File>, it: Item)
    requires Sound(im, total, fixed, files) && total < WORD
    requires Distinct(Place(fixed, files, im.dataStart, |files|).items)
      && it in Place(fixed, files, im.dataStart, |files|).items
    ensures Lookup(Nodes(im.blocks), im.root, it.key) == Some(it.data)
    ensures
      var leaf := SearchFrom(Nodes(im.blocks), im.root, it.key, 0);
      leaf.Some? && Sorted(leaf.value) && FindIn(leaf.value, it.key) == Some(it.data)
  {
    hide Place, Distinct, Sound, SearchFrom, FindIn, Sorted, Nodes;
    ImageFinds(im, total, fixed, files, it.key);
    var items := Place(fixed, files, im.dataStart, |files|).items;
    var i :| 0 <= i < |items| && items[i] == it;
    FoundIfThere(items, i);
  }

  lemma SizeDecodes(f: File)
    requires |f.content| < WORD
    ensures |InodeItem(f).data| == INODE_SIZE && Manifest.Read(InodeItem(f).data, 8, 8) == |f.content|
  {
    hide Manifest.LE, Manifest.Read, Manifest.Zeros;
    Manifest.Pow256Values();
    var s, a, b := InodeData(f), Manifest.LE(1, 8), Manifest.LE(|f.content|, 8);
    assert s[..16] == a + b && s == a + b + s[16..];
    Manifest.ReadWritten(a, |f.content|, 8, s[16..]);
  }

  lemma DataDecodes(f: File, at: nat)
    requires |f.content| < WORD && at * BLOCK_SIZE < WORD
    ensures
      var s, n := ExtentItem(f, at).data, |f.content|;
      && |s| >= EXTENT_HEADER && s[20] == (if n <= INLINE_MAX then 0 else 1)
      && (n <= INLINE_MAX ==>
        Manifest.Read(s, 8, 8) == n && |s| == EXTENT_HEADER + n && s[EXTENT_HEADER..] == f.content)
      && (n > INLINE_MAX ==>
        Manifest.Read(s, 24, 8) == at * BLOCK_SIZE && Manifest.Read(s, 40, 8) == 0 && Manifest.Read(s, 48, 8) == n)
  {
    hide Manifest.Read, ExtentData;
    var n := |f.content|;
    if n <= INLINE_MAX {
      ExtentReads(n, 0, 0, 0, 0, f.content);
    } else {
      var s := ExtentData(n, 1, at * BLOCK_SIZE, Blocks(n) * BLOCK_SIZE, n);
      ExtentReads(n, 1, at * BLOCK_SIZE, Blocks(n) * BLOCK_SIZE, n, []);
      assert s + [] == s;
    }
  }
}
