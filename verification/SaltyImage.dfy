/** The whole SaltyFS image: two passes, bitmap, writing, and reading a file back the way
    the driver does. */
module SaltyImage {
  import opened Bits
  import opened SaltyTree
  import opened SaltySearch
  import opened SaltyBuild
  import opened SaltyLayout
  import Manifest

  datatype DiskBlock = Super(total: nat, used: nat, root: nat, logStart: nat, logSize: nat)
    | Map(bits: seq<nat>) | Zero | Tree(node: Block) | Data(bytes: seq<nat>)

  datatype Image = Image(blocks: seq<DiskBlock>, bitmap: seq<nat>, root: nat, treeStart: nat, dataStart: nat,
                         extents: seq<Extent>, used: nat)
  datatype Error = TooSmall | BadItems | CountChanged | Full
  datatype Result = Ok(image: Image) | Err(error: Error)

  const MIN_BLOCKS: nat := 16
  const LOG_MAX: nat := 16384
  const WORD: nat := 0x1_0000_0000_0000_0000

  // ---- layout -------------------------------------------------------------

  function BitmapBlocks(total: nat): nat { (total + BLOCK_SIZE * 8 - 1) / (BLOCK_SIZE * 8) }

  function LogSize(total: nat): nat {
    var n := if total / 8 < LOG_MAX then total / 8 else LOG_MAX;
    if n < 1 then 1 else n
  }

  function TreeStart(total: nat): nat { 2 + BitmapBlocks(total) + LogSize(total) }

  // ---- bitmap -------------------------------------------------------------

  predicate Marked(bitmap: seq<nat>, b: nat)
    requires b < 8 * |bitmap|
  {
    Bit(bitmap[b / 8], b % 8)
  }

  /** Bit b is set exactly for the blocks below used. */
  method BuildBitmap(blocks: nat, used: nat) returns (bitmap: array<nat>)
    requires used <= BLOCK_SIZE * 8 * blocks
    ensures fresh(bitmap) && bitmap.Length == blocks * BLOCK_SIZE
    ensures forall b: nat {:trigger Marked(bitmap[..], b)} :: b < 8 * bitmap.Length ==>
      (Marked(bitmap[..], b) <==> b < used)
  {
    hide Bit, Or, Pow2;
    bitmap := new nat[blocks * BLOCK_SIZE](_ => 0);
    forall b: nat | b < 8 * bitmap.Length ensures !Bit(bitmap[b / 8], b % 8) { BitZero(b % 8); }
    for i := 0 to used
      invariant forall b: nat {:trigger Bit(bitmap[b / 8], b % 8)} :: b < 8 * bitmap.Length ==>
        (Bit(bitmap[b / 8], b % 8) <==> b < i)
    {
      ghost var before := bitmap[..];
      bitmap[i / 8] := Or(bitmap[i / 8], Pow2(i % 8));
      forall b: nat {:trigger Bit(bitmap[b / 8], b % 8)} | b < 8 * bitmap.Length
        ensures Bit(bitmap[b / 8], b % 8) <==> b < i + 1
      {
        assert Bit(before[b / 8], b % 8) <==> b < i;
        if b / 8 == i / 8 {
          BitOr(before[i / 8], Pow2(i % 8), b % 8);
          BitPow2(i % 8, b % 8);
        }
      }
    }
    forall b: nat | b < 8 * bitmap.Length ensures Marked(bitmap[..], b) <==> b < used {
      assert Bit(bitmap[b / 8], b % 8) <==> b < used;
    }
  }

  // ---- writing ------------------------------------------------------------

  function ZeroBlocks(n: nat): (s: seq<DiskBlock>)
    ensures |s| == n && forall i {:trigger s[i]} :: 0 <= i < n ==> s[i] == Zero
  {
    seq(n, _ => Zero)
  }

  function Gap(pos: nat, target: nat): nat { if target > pos then target - pos else 0 }

  function Padded(content: seq<nat>): (p: seq<nat>)
    ensures |p| == BLOCK_SIZE * Blocks(|content|) && content <= p
  {
    if |content| % BLOCK_SIZE == 0 then content
    else content + seq(BLOCK_SIZE - |content| % BLOCK_SIZE, _ => 0)
  }

  function Chunk(content: seq<nat>, k: nat): (c: seq<nat>)
    requires k < Blocks(|content|)
    ensures |c| == BLOCK_SIZE
  {
    Padded(content)[BLOCK_SIZE * k..BLOCK_SIZE * (k + 1)]
  }

  /** The extent's blocks hold its content. */
  ghost predicate OnDisk(blocks: seq<DiskBlock>, e: Extent) {
    && e.block + Blocks(|e.content|) <= |blocks|
    && forall k: nat {:trigger Chunk(e.content, k)} :: k < Blocks(|e.content|) ==>
      blocks[e.block + k] == Data(Chunk(e.content, k))
  }

  method WriteContent(out: seq<DiskBlock>, content: seq<nat>) returns (more: seq<DiskBlock>)
    ensures out <= more && |more| == |out| + Blocks(|content|) && OnDisk(more, Extent(|out|, content))
  {
    hide Padded, Blocks;
    var padded := Padded(content);
    more := out;
    for k := 0 to Blocks(|content|)
      invariant |more| == |out| + k && out <= more
      invariant forall m: nat {:trigger Chunk(content, m)} :: m < k ==> more[|out| + m] == Data(Chunk(content, m))
    {
      more := more + [Data(padded[BLOCK_SIZE * k..BLOCK_SIZE * (k + 1)])];
    }
  }

  /** Extents in order, with the gap before each filled by zeros. */
  method WriteExtents(out: seq<DiskBlock>, extents: seq<Extent>, from: nat, to: nat) returns (more: seq<DiskBlock>)
    requires Tiles(extents, from, to) && |out| == from
    ensures out <= more && |more| == to
    ensures forall i {:trigger extents[i]} :: 0 <= i < |extents| ==> OnDisk(more, extents[i])
  {
    hide Tiles, Blocks, OnDisk;
    more := out;
    TilesNone(extents[..0], from);
    for n := 0 to |extents|
      invariant out <= more && Tiles(extents[..n], from, |more|)
      invariant forall i {:trigger extents[i]} :: 0 <= i < n ==> OnDisk(more, extents[i])
    {
      var e := extents[n];
      TilesMeet(extents, from, to, n, |more|);
      var filled := more + ZeroBlocks(Gap(|more|, e.block));
      assert filled == more;
      var next := WriteContent(filled, e.content);
      assert Extent(|filled|, e.content) == e;
      forall i {:trigger extents[i]} | 0 <= i < n + 1 ensures OnDisk(next, extents[i]) {
        if i < n { OnDiskKept(more, next, extents[i]); }
      }
      TilesStep(extents, from, n, |more|);
      more := next;
    }
    assert extents[..|extents|] == extents;
    TilesEnd(extents, from, to, |more|);
  }

  lemma TilesNone(extents: seq<Extent>, from: nat)
    requires extents == []
    ensures Tiles(extents, from, from)
  {
  }

  lemma OnDiskKept(a: seq<DiskBlock>, b: seq<DiskBlock>, e: Extent)
    requires OnDisk(a, e) && a <= b
    ensures OnDisk(b, e)
  {
    hide Blocks;
  }

  lemma {:induction false} TilesPrefix(extents: seq<Extent>, from: nat, to: nat, n: nat)
    requires Tiles(extents, from, to) && n <= |extents|
    ensures Tiles(extents[..n], from, if n < |extents| then extents[n].block else to)
    decreases |extents|
  {
    hide Blocks;
    if n == |extents| {
      assert extents[..n] == extents;
    } else {
      var front := extents[..|extents| - 1];
      TilesPrefix(front, from, extents[|extents| - 1].block, n);
      assert front[..n] == extents[..n];
    }
  }

  lemma {:induction false} TilesEnd(extents: seq<Extent>, from: nat, to: nat, end: nat)
    requires Tiles(extents, from, to) && Tiles(extents, from, end)
    ensures to == end
  {
  }

  lemma TilesMeet(extents: seq<Extent>, from: nat, to: nat, n: nat, end: nat)
    requires Tiles(extents, from, to) && n < |extents| && Tiles(extents[..n], from, end)
    ensures extents[n].block == end
  {
    hide Tiles;
    TilesPrefix(extents, from, to, n);
    TilesEnd(extents[..n], from, extents[n].block, end);
  }

  lemma TilesStep(extents: seq<Extent>, from: nat, n: nat, end: nat)
    requires n < |extents| && Tiles(extents[..n], from, end) && extents[n].block == end
    ensures Tiles(extents[..n + 1], from, end + Blocks(|extents[n].content|))
  {
    hide Blocks;
    assert extents[..n + 1][..n] == extents[..n];
  }

  /** Superblocks, bitmap and log. */
  ghost predicate HeadOf(out: seq<DiskBlock>, super: DiskBlock, bitmap: seq<nat>, treeStart: nat) {
    && |out| >= treeStart >= 2 + |bitmap| / BLOCK_SIZE && out[0] == super && out[1] == super
    && (forall j: nat {:trigger out[2 + j]} :: j < |bitmap| / BLOCK_SIZE ==>
      out[2 + j] == Map(bitmap[BLOCK_SIZE * j..BLOCK_SIZE * (j + 1)]))
    && (forall b {:trigger out[b]} :: 2 + |bitmap| / BLOCK_SIZE <= b < treeStart ==> out[b] == Zero)
  }

  method WriteHead(super: DiskBlock, bitmap: seq<nat>, logSize: nat) returns (out: seq<DiskBlock>)
    ensures |out| == 2 + |bitmap| / BLOCK_SIZE + logSize && HeadOf(out, super, bitmap, |out|)
  {
    out := [super, super];
    for j := 0 to |bitmap| / BLOCK_SIZE
      invariant |out| == 2 + j && out[0] == super && out[1] == super
      invariant forall m: nat {:trigger out[2 + m]} :: m < j ==>
        out[2 + m] == Map(bitmap[BLOCK_SIZE * m..BLOCK_SIZE * (m + 1)])
    {
      out := out + [Map(bitmap[BLOCK_SIZE * j..BLOCK_SIZE * (j + 1)])];
    }
    out := out + ZeroBlocks(logSize);
  }

  method WriteTree(out: seq<DiskBlock>, tree: map<nat, Block>) returns (more: seq<DiskBlock>)
    requires forall b: nat {:trigger b in tree} :: b in tree <==> |out| <= b < |out| + |tree|
    ensures out <= more && |more| == |out| + |tree|
    ensures forall b {:trigger b in tree} :: b in tree ==> more[b] == Tree(tree[b])
  {
    more := out;
    for n := 0 to |tree|
      invariant out <= more && |more| == |out| + n
      invariant forall b {:trigger b in tree} :: b in tree && b < |out| + n ==> more[b] == Tree(tree[b])
    {
      more := more + [Tree(tree[|out| + n])];
    }
  }

  // ---- the image ----------------------------------------------------------

  /** The sorted metadata with data from a block on. */
  function Metadata(fixed: seq<Item>, files: seq<File>, first: nat): seq<Item> {
    SortItems(Place(fixed, files, first, |files|).items)
  }

  ghost predicate Buildable(fixed: seq<Item>, files: seq<File>, first: nat) {
    Metadata(fixed, files, first) != [] && Leaves(Metadata(fixed, files, first)).Some?
  }

  /** Blocks the image needs in all: everything before the tree, the tree, the data. */
  ghost function Needed(fixed: seq<Item>, files: seq<File>, total: nat): nat
    requires Buildable(fixed, files, 0)
  {
    TreeStart(total) + TreeCount(Metadata(fixed, files, 0)) + Place(fixed, files, 0, |files|).next
  }

  /** What an image holds. */
  ghost predicate Sound(im: Image, total: nat, fixed: seq<Item>, files: seq<File>) {
    && Buildable(fixed, files, im.dataStart)
    && var p := Place(fixed, files, im.dataStart, |files|);
    && var leaves := Leaves(Metadata(fixed, files, im.dataStart)).value;
    && |im.blocks| == total && im.extents == p.extents && im.used == p.next <= total
    && im.treeStart == TreeStart(total) && im.dataStart == im.treeStart + TreeBlocks(|leaves|)
    && |im.bitmap| == BitmapBlocks(total) * BLOCK_SIZE
    && (forall b: nat {:trigger Marked(im.bitmap, b)} :: b < 8 * |im.bitmap| ==>
      (Marked(im.bitmap, b) <==> b < im.used))
    && HeadOf(im.blocks, Super(total, im.used, im.root, 2 + BitmapBlocks(total), LogSize(total)), im.bitmap,
      im.treeStart)
    && LeavesOk(leaves) && Holds(Nodes(im.blocks), leaves, im.treeStart)
    && im.root == Base(im.treeStart, |leaves|, Height(|leaves|) - 1)
    && (forall i {:trigger im.extents[i]} :: 0 <= i < |im.extents| ==> OnDisk(im.blocks, im.extents[i]))
  }

  /** The tree blocks of a disk. */
  function Nodes(blocks: seq<DiskBlock>): map<nat, Block> {
    map b: nat | b < |blocks| && blocks[b].Tree? :: blocks[b].node
  }

  lemma NeededIs(fixed: seq<Item>, files: seq<File>, total: nat, first: nat)
    requires Buildable(fixed, files, first)
    ensures Buildable(fixed, files, 0)
      && TreeCount(Metadata(fixed, files, first)) == TreeCount(Metadata(fixed, files, 0))
    ensures Place(fixed, files, first, |files|).next == first + Place(fixed, files, 0, |files|).next
  {
    hide Place, Leaves, SortItems, TreeCount;
    CountKept(fixed, files, first, 0);
    PlaceShape(fixed, files, first, 0, |files|);
    SortLength(Place(fixed, files, first, |files|).items, Place(fixed, files, 0, |files|).items);
  }

  lemma SortLength(a: seq<Item>, b: seq<Item>)
    requires |a| == |b|
    ensures (SortItems(a) == []) == (SortItems(b) == [])
  {
    assert |SortItems(a)| == |SortItems(b)|;
  }

  lemma BuildableEverywhere(fixed: seq<Item>, files: seq<File>, a: nat, b: nat)
    ensures Buildable(fixed, files, a) == Buildable(fixed, files, b)
  {
    if Buildable(fixed, files, a) { MovedBuildable(fixed, files, a, b); }
    if Buildable(fixed, files, b) { MovedBuildable(fixed, files, b, a); }
  }

  lemma MovedBuildable(fixed: seq<Item>, files: seq<File>, a: nat, b: nat)
    requires Buildable(fixed, files, a)
    ensures Buildable(fixed, files, b)
  {
    hide Place, Leaves, SortItems, TreeCount;
    CountKept(fixed, files, a, b);
    PlaceShape(fixed, files, a, b, |files|);
    SortLength(Place(fixed, files, a, |files|).items, Place(fixed, files, b, |files|).items);
  }

  /** The tree from sorted items, with the number of its blocks. */
  method TreeOf(items: seq<Item>, start: nat) returns (r: Option<(nat, map<nat, Block>)>)
    ensures r.None? <==> items == [] || Leaves(items).None?
    ensures r.Some? ==>
      var leaves := Leaves(items).value;
      && LeavesOk(leaves) && WrittenTo(r.value.1, leaves, start, Height(|leaves|), 0)
      && r.value.0 == Base(start, |leaves|, Height(|leaves|) - 1) && |r.value.1| == TreeCount(items)
      && forall b: nat {:trigger b in r.value.1} :: b in r.value.1 <==> start <= b < start + |r.value.1|
  {
    hide Leaves, WrittenTo, Height;
    r := BuildTree(items, start);
    if r.Some? { WrittenCount(r.value.1, Leaves(items).value, start); }
  }

  /** The image, or the error the tool stops with. The two passes never disagree. */
  method CreateImage(size: nat, fixed: seq<Item>, files: seq<File>) returns (r: Result)
    ensures r == Err(TooSmall) <==> size / BLOCK_SIZE < 16
    ensures r == Err(BadItems) <==> size / BLOCK_SIZE >= 16 && !Buildable(fixed, files, 0)
    ensures r == Err(Full) <==>
      size / BLOCK_SIZE >= 16 && Buildable(fixed, files, 0)
          && Needed(fixed, files, size / BLOCK_SIZE) > size / BLOCK_SIZE
    ensures r != Err(CountChanged)
    ensures r.Ok? ==> Sound(r.image, size / BLOCK_SIZE, fixed, files)
  {
    hide Place, Leaves, SortItems, WrittenTo, Holds, Height, HeadOf, BitmapBlocks, LogSize, OnDisk, Base, TreeBlocks;
    var total := size / BLOCK_SIZE;
    if total < MIN_BLOCKS { return Err(TooSmall); }
    var bitmapBlocks, logSize := BitmapBlocks(total), LogSize(total);
    var treeStart := 2 + bitmapBlocks + logSize;
    var probe := BuildMetadata(fixed, files, treeStart + 1);
    BuildableEverywhere(fixed, files, 0, treeStart + 1);
    var probed := TreeOf(probe.items, treeStart);
    if probed.None? { return Err(BadItems); }
    var dataStart := treeStart + |probed.value.1|;
    var final := BuildMetadata(fixed, files, dataStart);
    BuildableEverywhere(fixed, files, 0, dataStart);
    NeededIs(fixed, files, total, treeStart + 1);
    NeededIs(fixed, files, total, dataStart);
    var tree := TreeOf(final.items, treeStart);
    if tree.None? || |tree.value.1| != |probed.value.1| { return Err(CountChanged); }
    if final.next > total { return Err(Full); }
    BitmapRoom(total);
    var bitmap := BuildBitmap(bitmapBlocks, final.next);
    BitmapExact(bitmapBlocks);
    var super := Super(total, final.next, tree.value.0, 2 + bitmapBlocks, logSize);
    var head := WriteHead(super, bitmap[..], logSize);
    var body := WriteTree(head, tree.value.1);
    PlaceTiles(fixed, files, dataStart, |files|);
    var full := WriteExtents(body, final.extents, dataStart, final.next);
    var blocks := full + ZeroBlocks(total - |full|);
    HeadKept(head, blocks, super, bitmap[..], treeStart);
    TreeKept(body, blocks, tree.value.1);
    WrittenHolds(tree.value.1, Nodes(blocks), Leaves(final.items).value, treeStart);
    forall i {:trigger final.extents[i]} | 0 <= i < |final.extents| ensures OnDisk(blocks, final.extents[i]) {
      OnDiskKept(full, blocks, final.extents[i]);
    }
    return Ok(Image(blocks, bitmap[..], tree.value.0, treeStart, dataStart, final.extents, final.next));
  }

  lemma BitmapRoom(total: nat)
    ensures total <= BLOCK_SIZE * 8 * BitmapBlocks(total)
  {
  }

  lemma BitmapExact(n: nat)
    ensures n * BLOCK_SIZE / BLOCK_SIZE == n
  {
  }

  lemma HeadKept(a: seq<DiskBlock>, b: seq<DiskBlock>, super: DiskBlock, bitmap: seq<nat>, treeStart: nat)
    requires HeadOf(a, super, bitmap, treeStart) && a <= b
    ensures HeadOf(b, super, bitmap, treeStart)
  {
    assert forall i {:trigger b[i]} :: 0 <= i < |a| ==> a[i] == b[i];
  }

  lemma TreeKept(a: seq<DiskBlock>, b: seq<DiskBlock>, tree: map<nat, Block>)
    requires a <= b && forall x {:trigger x in tree} :: x in tree ==> x < |a| && a[x] == Tree(tree[x])
    ensures forall x {:trigger x in tree} :: x in tree ==> x in Nodes(b) && Nodes(b)[x] == tree[x]
  {
  }
}
