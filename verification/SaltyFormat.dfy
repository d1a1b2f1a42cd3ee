/** The SaltyFS numbers: how leaves are packed, what inode and extent items hold, and where an
    image's parts start. */
module SaltyFormat {
  import opened SaltyTree
  import opened SaltyLayout
  import opened SaltyImage
  import opened SaltyRead
  import Manifest

  // ---- keys ---------------------------------------------------------------

  /** A key as one number: object, then one byte of item type, then eight bytes of offset. */
  ghost function KeyNumber(k: Key): nat {
    (k.obj * 256 + k.kind) * 0x1_0000_0000_0000_0000 + k.off
  }

  /** Keys are ordered as those numbers are. */
  lemma KeyOrder(a: Key, b: Key)
    requires a.kind < 256 && b.kind < 256 && a.off < 0x1_0000_0000_0000_0000 && b.off < 0x1_0000_0000_0000_0000
    ensures Less(a, b) <==> KeyNumber(a) < KeyNumber(b)
  {
    var x, y := a.obj * 256 + a.kind, b.obj * 256 + b.kind;
    assert x < y <==> a.obj < b.obj || (a.obj == b.obj && a.kind < b.kind);
    assert x == y <==> a.obj == b.obj && a.kind == b.kind;
  }

  // ---- leaves -------------------------------------------------------------

  /** Bytes of a leaf: a header of 64, 25 for each item, and the items' data. */
  ghost function LeafBytes(n: nat, data: nat): nat { 64 + 25 * n + data }

  /** No leaf could have taken the first item of the next. */
  ghost predicate Packed(leaves: seq<seq<Item>>) {
    forall i {:trigger PackedAt(leaves, i)} :: 0 <= i < |leaves| - 1 ==> PackedAt(leaves, i)
  }

  ghost predicate PackedAt(leaves: seq<seq<Item>>, i: int)
    requires 0 <= i < |leaves| - 1
  {
    leaves[i + 1] != [] && NoRoomFor(leaves[i], leaves[i + 1][0])
  }

  ghost predicate NoRoomFor(leaf: seq<Item>, it: Item) {
    LeafBytes(|leaf| + 1, DataSize(leaf) + |it.data|) > 4096
  }

  lemma SizeIs(leaf: seq<Item>, it: Item)
    ensures LeafSize(leaf) == LeafBytes(|leaf|, DataSize(leaf))
    ensures LeafSize(leaf + [it]) == LeafBytes(|leaf| + 1, DataSize(leaf) + |it.data|)
  {
    DataSizeAppend(leaf, it);
  }

  /** Every leaf so far was full when the next one was begun. */
  ghost predicate FilledUp(f: Filling) {
    && Packed(f.leaves) && (f.cur == [] ==> f.leaves == [])
    && (f.leaves != [] ==> NoRoomFor(f.leaves[|f.leaves| - 1], f.cur[0]))
  }

  lemma PackedMore(leaves: seq<seq<Item>>, leaf: seq<Item>)
    requires Packed(leaves) && leaf != [] && (leaves != [] ==> NoRoomFor(leaves[|leaves| - 1], leaf[0]))
    ensures Packed(leaves + [leaf])
  {
    hide NoRoomFor;
    var g := leaves + [leaf];
    forall i {:trigger PackedAt(g, i)} | 0 <= i < |g| - 1 ensures PackedAt(g, i) {
      if i + 1 < |leaves| { assert PackedAt(leaves, i); }
    }
  }

  lemma FillKeeps(f: Filling, it: Item)
    requires FilledUp(f)
    ensures FilledUp(Fill(f, it))
  {
    hide LeafSize, NoRoomFor, Packed;
    if Joins(f, it) {
      assert f.cur != [] ==> (f.cur + [it])[0] == f.cur[0];
    } else {
      NotJoined(f, it);
      PackedMore(f.leaves, f.cur);
    }
  }

  lemma NotJoined(f: Filling, it: Item)
    requires !Joins(f, it)
    ensures NoRoomFor(f.cur, it)
  {
    SizeIs(f.cur, it);
  }

  lemma {:induction false} FillsUp(items: seq<Item>, n: nat)
    requires n <= |items| && FillAll(items, n).Some?
    ensures FilledUp(FillAll(items, n).value)
  {
    hide FilledUp, Fill;
    if n == 0 {
      NothingFilled();
    } else {
      FillsUp(items, n - 1);
      FillKeeps(FillAll(items, n - 1).value, items[n - 1]);
    }
  }

  lemma NothingFilled()
    ensures FilledUp(Filling([], []))
  {
  }

  /** The leaves are the items in order, cut only where the next item would pass 4096 bytes; an
      item of more than 4007 bytes is an error, and nothing else is. */
  lemma SplitPacks(items: seq<Item>)
    ensures Leaves(items).None? <==> exists i :: 0 <= i < |items| && |items[i].data| > 4007
    ensures Leaves(items).Some? ==>
      var leaves := Leaves(items).value;
      && Flat(leaves) == items && Packed(leaves)
      && forall i {:trigger leaves[i]} :: 0 <= i < |leaves| ==>
           leaves[i] != [] && LeafBytes(|leaves[i]|, DataSize(leaves[i])) <= 4096
  {
    SplitHolds(items);
    forall i | 0 <= i < |items| ensures LeafSize([items[i]]) > BLOCK_SIZE <==> |items[i].data| > 4007 {
      SingleSize(items[i]);
    }
    if Leaves(items).Some? {
      var f := FillAll(items, |items|).value;
      FillsUp(items, |items|);
      FinishPacks(f);
      var leaves := Leaves(items).value;
      forall i {:trigger leaves[i]} | 0 <= i < |leaves|
        ensures leaves[i] != [] && LeafBytes(|leaves[i]|, DataSize(leaves[i])) <= 4096
      {
        assert GoodLeaf(leaves[i]);
      }
    }
  }

  lemma FinishPacks(f: Filling)
    requires FilledUp(f)
    ensures Packed(Finish(f))
  {
    hide NoRoomFor, Packed;
    if f.cur != [] { PackedMore(f.leaves, f.cur); }
  }

  // ---- items --------------------------------------------------------------

  ghost predicate Numbers(f: File) {
    && |f.content| < 0x1_0000_0000_0000_0000 && f.uid < 0x1_0000_0000 && f.gid < 0x1_0000_0000
    && f.mode < 0x1_0000_0000 && f.now < 0x1_0000_0000_0000_0000
  }

  /** Blocks for this many bytes. */
  ghost predicate Spans(bytes: nat, blocks: nat) {
    4096 * blocks >= bytes && (blocks > 0 ==> 4096 * (blocks - 1) < bytes)
  }

  lemma BlocksSpan(n: nat, b: nat)
    ensures Spans(n, b) <==> b == Blocks(n)
  {
  }

  /** The inode item: key (inode, 1, 0) and 120 bytes with generation 1, size, blocks, one link,
      owner, group, mode and four times. */
  lemma InodeLayout(f: File, b: nat)
    requires Numbers(f) && Spans(|f.content|, b)
    ensures
      var it := InodeItem(f);
      var s := it.data;
      && it.key == Key(f.ino, 1, 0) && |s| == 120
      && Manifest.Read(s, 0, 8) == 1 && Manifest.Read(s, 8, 8) == |f.content| && Manifest.Read(s, 16, 8) == b
      && Manifest.Read(s, 32, 4) == 1 && Manifest.Read(s, 36, 4) == f.uid && Manifest.Read(s, 40, 4) == f.gid
      && Manifest.Read(s, 44, 4) == f.mode && Manifest.Read(s, 48, 8) == f.now && Manifest.Read(s, 72, 8) == f.now
  {
    hide Manifest.LE, Manifest.Read, Manifest.Zeros, Blocks;
    BlocksSpan(|f.content|, b);
    Manifest.Pow256Values();
    SmallBlocks(|f.content|, b);
    var s, n := InodeData(f), |f.content|;
    var t := Manifest.LE(f.now, 8);
    var end := Manifest.LE(0, 4) + Manifest.LE(0, 4) + Manifest.Zeros(32);
    var times := t + t + t + t + end;
    var ids := Manifest.LE(1, 4) + Manifest.LE(f.uid, 4) + Manifest.LE(f.gid, 4) + Manifest.LE(f.mode, 4);
    var head := Manifest.LE(1, 8) + Manifest.LE(n, 8) + Manifest.LE(b, 8) + Manifest.LE(0, 8);
    assert s == head + ids + times;
    HeadReads(n, b, ids + times);
    IdsRead(f, head, times);
    assert s == (head + ids) + t + (t + t + t + end);
    Manifest.ReadWritten(head + ids, f.now, 8, t + t + t + end);
    assert s == (head + ids + t + t + t) + t + end;
    Manifest.ReadWritten(head + ids + t + t + t, f.now, 8, end);
    assert s == head + (ids + times);
  }

  lemma SmallBlocks(n: nat, b: nat)
    requires Spans(n, b) && n < 0x1_0000_0000_0000_0000
    ensures b < 0x1_0000_0000_0000_0000
  {
  }

  lemma HeadReads(n: nat, b: nat, rest: seq<nat>)
    requires n < 0x1_0000_0000_0000_0000 && b < 0x1_0000_0000_0000_0000
    ensures
      var s := Manifest.LE(1, 8) + Manifest.LE(n, 8) + Manifest.LE(b, 8) + Manifest.LE(0, 8) + rest;
      Manifest.Read(s, 0, 8) == 1 && Manifest.Read(s, 8, 8) == n && Manifest.Read(s, 16, 8) == b
  {
    hide Manifest.LE, Manifest.Read;
    Manifest.Pow256Values();
    var o, x, y, z := Manifest.LE(1, 8), Manifest.LE(n, 8), Manifest.LE(b, 8), Manifest.LE(0, 8) + rest;
    var s := Manifest.LE(1, 8) + Manifest.LE(n, 8) + Manifest.LE(b, 8) + Manifest.LE(0, 8) + rest;
    assert s == [] + o + (x + y + z);
    Manifest.ReadWritten([], 1, 8, x + y + z);
    assert s == o + x + (y + z);
    Manifest.ReadWritten(o, n, 8, y + z);
    assert s == (o + x) + y + z;
    Manifest.ReadWritten(o + x, b, 8, z);
  }

  lemma IdsRead(f: File, head: seq<nat>, rest: seq<nat>)
    requires Numbers(f) && |head| == 32
    ensures
      var ids := Manifest.LE(1, 4) + Manifest.LE(f.uid, 4) + Manifest.LE(f.gid, 4) + Manifest.LE(f.mode, 4);
      var s := head + ids + rest;
      && Manifest.Read(s, 32, 4) == 1 && Manifest.Read(s, 36, 4) == f.uid && Manifest.Read(s, 40, 4) == f.gid
      && Manifest.Read(s, 44, 4) == f.mode
  {
    hide Manifest.LE, Manifest.Read;
    Manifest.Pow256Values();
    var a, b, c, d := Manifest.LE(1, 4), Manifest.LE(f.uid, 4), Manifest.LE(f.gid, 4), Manifest.LE(f.mode, 4);
    var s := head + (a + b + c + d) + rest;
    assert s == head + a + (b + c + d + rest);
    Manifest.ReadWritten(head, 1, 4, b + c + d + rest);
    assert s == (head + a) + b + (c + d + rest);
    Manifest.ReadWritten(head + a, f.uid, 4, c + d + rest);
    assert s == (head + a + b) + c + (d + rest);
    Manifest.ReadWritten(head + a + b, f.gid, 4, d + rest);
    assert s == (head + a + b + c) + d + rest;
    Manifest.ReadWritten(head + a + b + c, f.mode, 4, rest);
  }

  /** The extent item: key (inode, 5, 0). Up to 256 bytes follow its 56 in the item itself; more
      are in blocks of their own, named by byte position, length on disk and length. */
  lemma ExtentLayout(f: File, at: nat, b: nat)
    requires Numbers(f) && Spans(|f.content|, b) && 4096 * (at + b) < 0x1_0000_0000_0000_0000
    ensures
      var it, n := ExtentItem(f, at), |f.content|;
      var s := it.data;
      && it.key == Key(f.ino, 5, 0) && |s| == (if n <= 256 then 56 + n else 56) && Manifest.Read(s, 8, 8) == n
      && (n <= 256 ==> s[20] == 0 && s[56..] == f.content)
      && (n > 256 ==>
            && s[20] == 1 && Manifest.Read(s, 24, 8) == 4096 * at && Manifest.Read(s, 32, 8) == 4096 * b
            && Manifest.Read(s, 40, 8) == 0 && Manifest.Read(s, 48, 8) == n)
  {
    hide Manifest.Read, ExtentData, Blocks;
    var n := |f.content|;
    BlocksSpan(n, b);
    if n <= 256 {
      ExtentReads(n, 0, 0, 0, 0, f.content);
    } else {
      var s := ExtentData(n, 1, at * BLOCK_SIZE, b * BLOCK_SIZE, n);
      ExtentReads(n, 1, at * BLOCK_SIZE, b * BLOCK_SIZE, n, []);
      LengthReads(n, 1, at * BLOCK_SIZE, b * BLOCK_SIZE, n);
      assert s + [] == s;
    }
  }

  lemma LengthReads(ram: nat, kind: nat, start: nat, length: nat, bytes: nat)
    requires length < 0x1_0000_0000_0000_0000
    ensures Manifest.Read(ExtentData(ram, kind, start, length, bytes), 32, 8) == length
  {
    hide Manifest.LE, Manifest.Read;
    Manifest.Pow256Values();
    var front := Manifest.LE(1, 8) + Manifest.LE(ram, 8) + [0, 0] + Manifest.LE(0, 2) + [kind, 0, 0, 0]
      + Manifest.LE(start, 8);
    var back := Manifest.LE(0, 8) + Manifest.LE(bytes, 8);
    assert ExtentData(ram, kind, start, length, bytes) == front + Manifest.LE(length, 8) + back;
    Manifest.ReadWritten(front, length, 8, back);
  }

  // ---- the image ----------------------------------------------------------

  /** Two superblocks, a bitmap of one bit for each block, and a log of an eighth of the image but
      at least one and at most 16384 blocks; then the tree. */
  lemma TreeStarts(total: nat, bitmap: nat, log: nat)
    requires 32768 * bitmap >= total && (bitmap > 0 ==> 32768 * (bitmap - 1) < total)
    requires log == if total < 8 then 1 else if total < 131072 then total / 8 else 16384
    ensures TreeStart(total) == 2 + bitmap + log
  {
  }
}
