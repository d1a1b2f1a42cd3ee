/** Sorting the metadata, and what its shape alone decides: the two passes of the image
    tool place file data differently and still build trees of the same size. */
module SaltyLayout {
  import opened SaltyTree
  import opened SaltySearch
  import opened SaltyBuild
  import Manifest

  // ---- the stable sort by key ---------------------------------------------

  /** Behind every item whose key is not larger. */
  function InsertLast(s: seq<Item>, it: Item): (r: seq<Item>)
    ensures |r| == |s| + 1
  {
    if s == [] || AtMost(s[|s| - 1].key, it.key) then s + [it] else InsertLast(s[..|s| - 1], it) + [s[|s| - 1]]
  }

  function SortItems(items: seq<Item>): (r: seq<Item>)
    ensures |r| == |items|
  {
    if items == [] then [] else InsertLast(SortItems(items[..|items| - 1]), items[|items| - 1])
  }

  lemma {:induction false} InsertPermutes(s: seq<Item>, it: Item)
    ensures multiset(InsertLast(s, it)) == multiset(s) + multiset{it}
  {
    if s != [] && !AtMost(s[|s| - 1].key, it.key) {
      InsertPermutes(s[..|s| - 1], it);
      assert s == s[..|s| - 1] + [s[|s| - 1]];
    }
  }

  lemma {:induction false} SortPermutes(items: seq<Item>)
    ensures multiset(SortItems(items)) == multiset(items)
  {
    if items != [] {
      var front, last := items[..|items| - 1], items[|items| - 1];
      SortPermutes(front);
      InsertPermutes(SortItems(front), last);
      assert items == front + [last];
    }
  }

  ghost predicate Distinct(items: seq<Item>) {
    forall i, j {:trigger items[i], items[j]} :: 0 <= i < j < |items| ==> items[i].key != items[j].key
  }

  lemma {:induction false} InsertKeepsOrder(s: seq<Item>, it: Item)
    requires Sorted(s) && forall x {:trigger x in s} :: x in s ==> x.key != it.key
    ensures Sorted(InsertLast(s, it)) && forall x {:trigger x in InsertLast(s, it)} :: x in InsertLast(s, it) <==>
      x in s || x == it
  {
    if s == [] {
    } else if AtMost(s[|s| - 1].key, it.key) {
      assert s[|s| - 1] in s;
    } else {
      var front, last := s[..|s| - 1], s[|s| - 1];
      assert s == front + [last];
      assert forall x {:trigger x in front} :: x in front ==> x in s;
      InsertKeepsOrder(front, it);
      var r := InsertLast(front, it);
      forall i | 0 <= i < |r| ensures Less(r[i].key, last.key) {
        assert r[i] in r;
        assert r[i] in front || r[i] == it;
      }
    }
  }

  /** Distinct keys come out in strictly growing order, with the same items. */
  lemma {:induction false} SortSorts(items: seq<Item>)
    requires Distinct(items)
    ensures Sorted(SortItems(items)) && forall x :: x in SortItems(items) <==> x in items
  {
    if items != [] {
      var front, last := items[..|items| - 1], items[|items| - 1];
      assert items == front + [last];
      SortSorts(front);
      InsertKeepsOrder(SortItems(front), last);
    }
  }

  lemma {:induction false} InsertFinds(s: seq<Item>, it: Item, key: Key)
    ensures FindIn(InsertLast(s, it), key) == FindIn(s + [it], key)
  {
    if s != [] && !AtMost(s[|s| - 1].key, it.key) {
      var front, last := s[..|s| - 1], s[|s| - 1];
      InsertFinds(front, it, key);
      FindConcat(InsertLast(front, it), [last], key);
      FindConcat(front, [it], key);
      FindConcat(front, [last], key);
      FindConcat(s, [it], key);
      assert s == front + [last];
    }
  }

  /** The sort is stable: the first item with a key stays the first. */
  lemma {:induction false} SortFinds(items: seq<Item>, key: Key)
    ensures FindIn(SortItems(items), key) == FindIn(items, key)
  {
    if items != [] {
      var front, last := items[..|items| - 1], items[|items| - 1];
      SortFinds(front, key);
      InsertFinds(SortItems(front), last, key);
      FindConcat(SortItems(front), [last], key);
      FindConcat(front, [last], key);
      assert items == front + [last];
    }
  }

  // ---- shapes -------------------------------------------------------------

  predicate Alike(a: Item, b: Item) { a.key == b.key && |a.data| == |b.data| }

  ghost predicate SameShape(a: seq<Item>, b: seq<Item>) {
    |a| == |b| && forall i {:trigger a[i]} {:trigger b[i]} :: 0 <= i < |a| ==> Alike(a[i], b[i])
  }

  lemma {:induction false} InsertShape(s: seq<Item>, t: seq<Item>, x: Item, y: Item)
    requires SameShape(s, t) && Alike(x, y)
    ensures SameShape(InsertLast(s, x), InsertLast(t, y))
  {
    if s != [] && !AtMost(s[|s| - 1].key, x.key) {
      InsertShape(s[..|s| - 1], t[..|t| - 1], x, y);
    }
  }

  lemma {:induction false} SortShape(a: seq<Item>, b: seq<Item>)
    requires SameShape(a, b)
    ensures SameShape(SortItems(a), SortItems(b))
  {
    if a != [] {
      SortShape(a[..|a| - 1], b[..|b| - 1]);
      InsertShape(SortItems(a[..|a| - 1]), SortItems(b[..|b| - 1]), a[|a| - 1], b[|b| - 1]);
    }
  }

  lemma {:induction false} DataShape(a: seq<Item>, b: seq<Item>)
    requires SameShape(a, b)
    ensures DataSize(a) == DataSize(b)
  {
    if a != [] { DataShape(a[..|a| - 1], b[..|b| - 1]); }
  }

  ghost predicate SameFilling(f: Option<Filling>, g: Option<Filling>) {
    f.None? == g.None? && (f.Some? ==> |f.value.leaves| == |g.value.leaves| && SameShape(f.value.cur, g.value.cur))
  }

  lemma FillAlike(f: Filling, g: Filling, x: Item, y: Item)
    requires |f.leaves| == |g.leaves| && SameShape(f.cur, g.cur) && Alike(x, y)
    ensures SameFilling(Some(Fill(f, x)), Some(Fill(g, y))) && LeafSize([x]) == LeafSize([y])
  {
    hide DataSize;
    DataShape(f.cur + [x], g.cur + [y]);
    DataShape([x], [y]);
  }

  lemma {:induction false} FillShape(a: seq<Item>, b: seq<Item>, n: nat)
    requires SameShape(a, b) && n <= |a|
    ensures SameFilling(FillAll(a, n), FillAll(b, n))
  {
    hide LeafSize, Fill;
    if n > 0 {
      FillShape(a, b, n - 1);
      if FillAll(a, n - 1).Some? { FillAlike(FillAll(a, n - 1).value, FillAll(b, n - 1).value, a[n - 1], b[n - 1]); }
    }
  }

  /** The number of leaves, and whether there is an error, only depends on keys and sizes. */
  lemma LeavesShape(a: seq<Item>, b: seq<Item>)
    requires SameShape(a, b)
    ensures Leaves(a).None? == Leaves(b).None? && (Leaves(a).Some? ==> |Leaves(a).value| == |Leaves(b).value|)
  {
    FillShape(a, b, |a|);
  }

  // ---- metadata and data placement ----------------------------------------

  const INODE_ITEM: nat := 1
  const INODE_SIZE: nat := 120
  const EXTENT_ITEM: nat := 5
  const INLINE_MAX: nat := 256
  const EXTENT_HEADER: nat := 56

  /** A regular file: its inode number, mode, owner and group, the time of the build, its
      directory entry and back reference, and its bytes. */
  datatype File = File(ino: nat, mode: nat, uid: nat, gid: nat, now: nat, others: seq<Item>, content: seq<nat>)
  datatype Extent = Extent(block: nat, content: seq<nat>)
  datatype Placement = Placement(items: seq<Item>, extents: seq<Extent>, next: nat)

  function Blocks(n: nat): nat { (n + BLOCK_SIZE - 1) / BLOCK_SIZE }

  function ExtentData(ram: nat, kind: nat, start: nat, length: nat, bytes: nat): (s: seq<nat>)
    ensures |s| == EXTENT_HEADER
  {
    Manifest.LE(1, 8) + Manifest.LE(ram, 8) + [0, 0] + Manifest.LE(0, 2) + [kind, 0, 0, 0]
    + Manifest.LE(start, 8) + Manifest.LE(length, 8) + Manifest.LE(0, 8) + Manifest.LE(bytes, 8)
  }

  function InodeKey(f: File): Key { Key(f.ino, INODE_ITEM, 0) }

  function InodeData(f: File): (s: seq<nat>)
    ensures |s| == INODE_SIZE
  {
    Manifest.LE(1, 8) + Manifest.LE(|f.content|, 8) + Manifest.LE(Blocks(|f.content|), 8) + Manifest.LE(0, 8)
    + Manifest.LE(1, 4) + Manifest.LE(f.uid, 4) + Manifest.LE(f.gid, 4) + Manifest.LE(f.mode, 4)
    + Manifest.LE(f.now, 8) + Manifest.LE(f.now, 8) + Manifest.LE(f.now, 8) + Manifest.LE(f.now, 8)
    + Manifest.LE(0, 4) + Manifest.LE(0, 4) + Manifest.Zeros(32)
  }

  function InodeItem(f: File): Item { Item(InodeKey(f), InodeData(f)) }

  function ExtentKey(f: File): Key { Key(f.ino, EXTENT_ITEM, 0) }

  function ExtentItem(f: File, block: nat): Item {
    var n := |f.content|;
    Item(ExtentKey(f), if n <= INLINE_MAX then ExtentData(n, 0, 0, 0, 0) + f.content
                       else ExtentData(n, 1, block * BLOCK_SIZE, Blocks(n) * BLOCK_SIZE, n))
  }

  /** What the first n files add, when data starts at a block. */
  function Place(fixed: seq<Item>, files: seq<File>, first: nat, n: nat): Placement
    requires n <= |files|
  {
    if n == 0 then Placement(fixed, [], first) else
      var p := Place(fixed, files, first, n - 1);
      var f := files[n - 1];
      var items := p.items + [InodeItem(f)] + f.others + [ExtentItem(f, p.next)];
      if |f.content| <= INLINE_MAX then Placement(items, p.extents, p.next)
      else Placement(items, p.extents + [Extent(p.next, f.content)], p.next + Blocks(|f.content|))
  }

  method BuildMetadata(fixed: seq<Item>, files: seq<File>, first: nat) returns (p: Placement)
    ensures
      var q := Place(fixed, files, first, |files|);
      p == q.(items := SortItems(q.items))
  {
    hide ExtentData, InodeData, Blocks, SortItems;
    var items, extents, next: nat := fixed, [], first;
    for n := 0 to |files|
      invariant Place(fixed, files, first, n) == Placement(items, extents, next)
    {
      var f := files[n];
      items := items + [Item(Key(f.ino, INODE_ITEM, 0), InodeData(f))] + f.others;
      if |f.content| <= INLINE_MAX {
        items := items + [Item(Key(f.ino, EXTENT_ITEM, 0), ExtentData(|f.content|, 0, 0, 0, 0) + f.content)];
      } else {
        var block := next;
        var count := Blocks(|f.content|);
        next := next + count;
        var data := ExtentData(|f.content|, 1, block * BLOCK_SIZE, count * BLOCK_SIZE, |f.content|);
        items := items + [Item(Key(f.ino, EXTENT_ITEM, 0), data)];
        extents := extents + [Extent(block, f.content)];
      }
    }
    return Placement(SortItems(items), extents, next);
  }

  /** Moving the data moves no item and changes no size. */
  lemma {:induction false} PlaceShape(fixed: seq<Item>, files: seq<File>, a: nat, b: nat, n: nat)
    requires n <= |files|
    ensures
      var p, q := Place(fixed, files, a, n), Place(fixed, files, b, n);
      SameShape(p.items, q.items) && p.next - a == q.next - b >= 0
  {
    hide ExtentData, InodeData;
    if n > 0 { PlaceShape(fixed, files, a, b, n - 1); }
  }

  /** Extents that follow one another without gaps from one block to another. */
  ghost predicate Tiles(extents: seq<Extent>, from: nat, to: nat) {
    if extents == [] then from == to else
      var last := extents[|extents| - 1];
      Tiles(extents[..|extents| - 1], from, last.block) && last.block + Blocks(|last.content|) == to
  }

  lemma {:induction false} PlaceTiles(fixed: seq<Item>, files: seq<File>, first: nat, n: nat)
    requires n <= |files|
    ensures var p := Place(fixed, files, first, n); Tiles(p.extents, first, p.next)
  {
    hide ExtentData, InodeData;
    if n > 0 {
      PlaceTiles(fixed, files, first, n - 1);
      var p := Place(fixed, files, first, n - 1);
      var e := Extent(p.next, files[n - 1].content);
      assert (p.extents + [e])[..|p.extents|] == p.extents;
    }
  }

  predicate Within(e: Extent, b: nat) { e.block <= b < e.block + Blocks(|e.content|) }

  lemma {:induction false} TilesBounds(extents: seq<Extent>, from: nat, to: nat, i: nat)
    requires Tiles(extents, from, to)
    ensures from <= to && (i < |extents| ==>
      from <= extents[i].block && extents[i].block + Blocks(|extents[i].content|) <= to)
  {
    if extents != [] {
      var front, last := extents[..|extents| - 1], extents[|extents| - 1];
      TilesBounds(front, from, last.block, i);
    }
  }

  /** Extents that tile a range do not overlap and leave no block out. */
  lemma {:induction false} TilesCover(extents: seq<Extent>, from: nat, to: nat, b: nat)
    requires Tiles(extents, from, to)
    ensures from <= b < to <==> exists i :: 0 <= i < |extents| && Within(extents[i], b)
    ensures forall i, j :: 0 <= i < j < |extents| ==> !(Within(extents[i], b) && Within(extents[j], b))
  {
    if extents != [] {
      var front, last := extents[..|extents| - 1], extents[|extents| - 1];
      TilesCover(front, from, last.block, b);
      TilesBounds(front, from, last.block, 0);
      assert forall i {:trigger extents[i]} :: 0 <= i < |front| ==> front[i] == extents[i];
      if last.block <= b < to { assert Within(extents[|extents| - 1], b); }
      if from <= b < last.block {
        var i :| 0 <= i < |front| && Within(front[i], b);
        assert Within(extents[i], b);
      }
    }
  }

  // ---- the number of tree blocks ------------------------------------------

  /** Blocks of the tree for some items. */
  ghost function TreeCount(items: seq<Item>): nat
    requires Leaves(items).Some?
  {
    TreeBlocks(|Leaves(items).value|)
  }

  /** Where the data goes does not change the number of tree blocks. */
  lemma CountKept(fixed: seq<Item>, files: seq<File>, a: nat, b: nat)
    ensures
      var p, q := SortItems(Place(fixed, files, a, |files|).items), SortItems(Place(fixed, files, b, |files|).items);
      Leaves(p).None? == Leaves(q).None? && (Leaves(p).Some? ==> TreeCount(p) == TreeCount(q))
  {
    hide Place, Leaves, SortItems;
    PlaceShape(fixed, files, a, b, |files|);
    SortShape(Place(fixed, files, a, |files|).items, Place(fixed, files, b, |files|).items);
    LeavesShape(SortItems(Place(fixed, files, a, |files|).items), SortItems(Place(fixed, files, b, |files|).items));
  }

  lemma {:induction false} RangeSize(s: set<nat>, a: nat, b: nat)
    requires a <= b && forall x: nat {:trigger x in s} :: x in s <==> a <= x < b
    ensures |s| == b - a
    decreases b
  {
    if a < b {
      RangeSize(s - {b - 1}, a, b - 1);
    } else {
      assert s == {};
    }
  }

  /** A written tree has exactly that many blocks. */
  lemma WrittenCount(blocks: map<nat, Block>, leaves: seq<seq<Item>>, start: nat)
    requires LeavesOk(leaves) && WrittenTo(blocks, leaves, start, Height(|leaves|), 0)
    ensures |blocks| == TreeBlocks(|leaves|) > 0
    ensures forall b: nat {:trigger b in blocks} :: b in blocks <==> start <= b < start + TreeBlocks(|leaves|)
  {
    hide Right, Height, LevelSize;
    BaseShift(start, |leaves|, Height(|leaves|));
    RangeSize(blocks.Keys, start, start + TreeBlocks(|leaves|));
    assert |blocks| == |blocks.Keys|;
    TopIsOne(|leaves|);
  }

  /** The written tree is what the search needs. */
  lemma WrittenHolds(blocks: map<nat, Block>, disk: map<nat, Block>, leaves: seq<seq<Item>>, start: nat)
    requires LeavesOk(leaves) && WrittenTo(blocks, leaves, start, Height(|leaves|), 0)
    requires forall b {:trigger b in blocks} :: b in blocks ==> b in disk && disk[b] == blocks[b]
    ensures Holds(disk, leaves, start)
  {
    hide NodeAt, Height, LevelSize, Base;
    forall i: nat, j: nat {:trigger Right(disk, leaves, start, i, j)} | i < Height(|leaves|)
      && j < LevelSize(|leaves|, i)
      ensures Right(disk, leaves, start, i, j)
    {
      assert Right(blocks, leaves, start, i, j);
    }
  }

  // ---- depth --------------------------------------------------------------

  function Power(k: nat): (p: nat)
    ensures p > 0
  {
    if k == 0 then 1 else FANOUT * Power(k - 1)
  }

  lemma {:induction false} HeightBound(n: nat, k: nat)
    requires n <= Power(k)
    ensures Height(n) <= k + 1
    decreases k
  {
    if n > 1 {
      AbovePower(n, Power(k - 1));
      HeightBound(Above(n), k - 1);
    }
  }

  lemma AbovePower(n: nat, p: nat)
    requires n <= FANOUT * p
    ensures Above(n) <= p
  {
    var q := Above(n);
    assert FANOUT == 122;
    assert 122 * q <= n + 121;
  }

  /** Trees on a disk with 64-bit block numbers stay within the driver's depth. */
  lemma DepthFits(n: nat)
    requires n < 0x1_0000_0000_0000_0000
    ensures Height(n) <= MAX_DEPTH
  {
    assert Power(2) == 14884 && Power(4) == 14884 * 14884 by { assert Power(1) == 122; assert Power(3) == 122 * 14884; }
    assert Power(6) == 14884 * 14884 * 14884 && Power(8) == 14884 * 14884 * 14884 * 14884 by {
      assert Power(5) == 122 * 14884 * 14884;
      assert Power(7) == 122 * 14884 * 14884 * 14884;
    }
    assert Power(10) == 14884 * Power(8) by { assert Power(9) == 122 * Power(8); }
    HeightBound(n, 10);
  }
}
