/** Levels above the leaves, block numbers, and the driver's search through them. */
module SaltySearch {
  import opened SaltyTree

  datatype Ptr = Ptr(key: Key, block: nat)
  datatype Block = LeafBlock(items: seq<Item>) | NodeBlock(level: nat, ptrs: seq<Ptr>)

  // ---- shape of the tree --------------------------------------------------

  function Above(n: nat): nat { (n + FANOUT - 1) / FANOUT }

  /** Nodes on level i over n leaves. */
  function LevelSize(n: nat, i: nat): nat { if i == 0 then n else Above(LevelSize(n, i - 1)) }

  /** Levels until a single root remains. */
  function Height(n: nat): (h: nat)
    ensures h >= 1
    decreases n
  {
    if n <= 1 then 1 else 1 + Height(Above(n))
  }

  /** The first block of level i; levels are numbered one after another, leaves first. */
  function Base(start: nat, n: nat, i: nat): nat { if i == 0 then start
      else Base(start, n, i - 1) + LevelSize(n, i - 1) }

  ghost predicate LeavesOk(leaves: seq<seq<Item>>) {
    leaves != [] && forall i {:trigger leaves[i]} :: 0 <= i < |leaves| ==> leaves[i] != []
  }

  lemma AboveIndex(n: nat, j: nat)
    requires j < Above(n)
    ensures FANOUT * j < n
  {
  }

  /** The smallest key below node j of level i. */
  function FirstKey(leaves: seq<seq<Item>>, i: nat, j: nat): Key
    requires LeavesOk(leaves) && j < LevelSize(|leaves|, i)
    decreases i
  {
    if i == 0 then leaves[j][0].key else
      AboveIndex(LevelSize(|leaves|, i - 1), j);
      FirstKey(leaves, i - 1, FANOUT * j)
  }

  function Smaller(a: nat, b: nat): nat { if a < b then a else b }

  /** The number of children of node j, over a level of n nodes. */
  function ChildCount(n: nat, j: nat): (c: nat)
    requires j < Above(n)
    ensures 0 < c <= FANOUT && FANOUT * j + c <= n && (FANOUT * j + c == n || c == FANOUT)
  {
    AboveIndex(n, j);
    Smaller(FANOUT, n - FANOUT * j)
  }

  function NodeAt(leaves: seq<seq<Item>>, start: nat, i: nat, j: nat): Block
    requires LeavesOk(leaves) && j < LevelSize(|leaves|, i)
  {
    if i == 0 then LeafBlock(leaves[j]) else
      var n := LevelSize(|leaves|, i - 1);
      NodeBlock(i, seq(ChildCount(n, j), c requires 0 <= c < ChildCount(n, j) =>
        Ptr(FirstKey(leaves, i - 1, FANOUT * j + c), Base(start, |leaves|, i - 1) + FANOUT * j + c)))
  }

  function BlockSize(b: Block): nat {
    match b
    case LeafBlock(items) => LeafSize(items)
    case NodeBlock(_, ptrs) => NODE_HEADER + |ptrs| * POINTER_SIZE
  }

  /** Every block of the tree fits. */
  lemma BlocksFit(leaves: seq<seq<Item>>, start: nat, i: nat, j: nat)
    requires LeavesOk(leaves) && j < LevelSize(|leaves|, i)
    requires forall l {:trigger leaves[l]} :: 0 <= l < |leaves| ==> GoodLeaf(leaves[l])
    ensures BlockSize(NodeAt(leaves, start, i, j)) <= BLOCK_SIZE
  {
    hide LeafSize, FirstKey, Base;
  }

  /** Node m of level k is on the disk. */
  ghost predicate Right(blocks: map<nat, Block>, leaves: seq<seq<Item>>, start: nat, k: nat, m: nat)
    requires LeavesOk(leaves) && m < LevelSize(|leaves|, k)
  {
    var b := Base(start, |leaves|, k) + m;
    b in blocks && blocks[b] == NodeAt(leaves, start, k, m)
  }

  /** Every node of every level is on the disk. */
  ghost predicate Holds(disk: map<nat, Block>, leaves: seq<seq<Item>>, start: nat)
    requires LeavesOk(leaves)
  {
    forall i: nat, j: nat {:trigger Right(disk, leaves, start, i, j)} ::
      i < Height(|leaves|) && j < LevelSize(|leaves|, i) ==> Right(disk, leaves, start, i, j)
  }

  // ---- the top level is one node ------------------------------------------

  lemma {:induction false} LevelSizeShift(n: nat, i: nat)
    ensures LevelSize(Above(n), i) == LevelSize(n, i + 1)
  {
    if i > 0 { LevelSizeShift(n, i - 1); }
  }

  lemma {:induction false} TopIsOne(n: nat)
    requires n > 0
    ensures LevelSize(n, Height(n) - 1) == 1
    decreases n
  {
    if n > 1 {
      TopIsOne(Above(n));
      LevelSizeShift(n, Height(Above(n)) - 1);
    }
  }

  // ---- keys ---------------------------------------------------------------

  /** First keys grow from leaf to leaf. */
  ghost predicate Ascending(leaves: seq<seq<Item>>)
    requires LeavesOk(leaves)
  {
    forall a, b {:trigger leaves[a], leaves[b]} :: 0 <= a < b < |leaves| ==> Less(leaves[a][0].key, leaves[b][0].key)
  }

  lemma {:induction false} FirstKeysGrow(leaves: seq<seq<Item>>, i: nat, a: nat, b: nat)
    requires LeavesOk(leaves) && Ascending(leaves) && a < b < LevelSize(|leaves|, i)
    ensures Less(FirstKey(leaves, i, a), FirstKey(leaves, i, b))
    decreases i
  {
    if i > 0 {
      AboveIndex(LevelSize(|leaves|, i - 1), b);
      FirstKeysGrow(leaves, i - 1, FANOUT * a, FANOUT * b);
    }
  }

  // ---- the driver's search ------------------------------------------------

  /** The child to follow: the rightmost pointer whose key is at most the search key, the
      first one if there is none. */
  function Choose(ptrs: seq<Ptr>, key: Key, i: nat): (c: nat)
    requires 0 < |ptrs| && i <= |ptrs|
    ensures c < |ptrs|
    decreases |ptrs| - i
  {
    if i == |ptrs| || Less(key, ptrs[i].key) then (if i == 0 then 0 else i - 1) else Choose(ptrs, key, i + 1)
  }

  function SearchFrom(disk: map<nat, Block>, block: nat, key: Key, depth: nat): Option<seq<Item>>
    requires depth <= MAX_DEPTH
    decreases MAX_DEPTH - depth
  {
    if depth == MAX_DEPTH || block !in disk then None
    else match disk[block]
      case LeafBlock(items) => Some(items)
      case NodeBlock(_, ptrs) =>
        if ptrs == [] then None else SearchFrom(disk, ptrs[Choose(ptrs, key, 0)].block, key, depth + 1)
  }

  method Search(disk: map<nat, Block>, root: nat, key: Key) returns (leaf: Option<seq<Item>>)
    ensures leaf == SearchFrom(disk, root, key, 0)
  {
    var current := root;
    for depth := 0 to MAX_DEPTH
      invariant SearchFrom(disk, root, key, 0) == SearchFrom(disk, current, key, depth)
    {
      if current !in disk { return None; }
      match disk[current] {
        case LeafBlock(items) => return Some(items);
        case NodeBlock(_, ptrs) =>
          if |ptrs| == 0 { return None; }
          var child := ptrs[0].block;
          var i := 0;
          while i < |ptrs| && !Less(key, ptrs[i].key)
            invariant i <= |ptrs| && Choose(ptrs, key, 0) == Choose(ptrs, key, i)
            invariant child == ptrs[if i == 0 then 0 else i - 1].block
          {
            child := ptrs[i].block;
            i := i + 1;
          }
          current := child;
      }
    }
    return None;
  }

  /** Over ascending keys, the chosen child covers the key: it starts at or before it
      unless it is the first, and the next one starts after it. */
  lemma {:induction false} ChooseHolds(ptrs: seq<Ptr>, key: Key, i: nat)
    requires 0 < |ptrs| && i <= |ptrs| && (i > 0 ==> !Less(key, ptrs[i - 1].key))
    requires forall a, b {:trigger ptrs[a], ptrs[b]} :: 0 <= a < b < |ptrs| ==> Less(ptrs[a].key, ptrs[b].key)
    ensures
      var c := Choose(ptrs, key, i);
      && (c > 0 || i > 0 || !Less(key, ptrs[0].key) ==> !Less(key, ptrs[c].key))
      && (c + 1 < |ptrs| ==> Less(key, ptrs[c + 1].key))
    decreases |ptrs| - i
  {
    if i < |ptrs| && !Less(key, ptrs[i].key) {
      ChooseHolds(ptrs, key, i + 1);
    } else if i == 0 && 1 < |ptrs| {
      assert Less(ptrs[0].key, ptrs[1].key);
    }
  }

  // ---- the search finds the right leaf ------------------------------------

  /** Node j of level i covers the key. */
  ghost predicate Covers(leaves: seq<seq<Item>>, i: nat, j: nat, key: Key)
    requires LeavesOk(leaves) && j < LevelSize(|leaves|, i)
  {
    && (j > 0 ==> !Less(key, FirstKey(leaves, i, j)))
    && (j + 1 < LevelSize(|leaves|, i) ==> Less(key, FirstKey(leaves, i, j + 1)))
  }

  lemma PointerAt(leaves: seq<seq<Item>>, start: nat, i: nat, j: nat, ptrs: seq<Ptr>, a: nat)
    requires LeavesOk(leaves) && i > 0 && j < LevelSize(|leaves|, i) && ptrs == NodeAt(leaves, start, i, j).ptrs
      && a < |ptrs|
    ensures FANOUT * j + a < LevelSize(|leaves|, i - 1) && ptrs[a].key == FirstKey(leaves, i - 1, FANOUT * j + a)
  {
    hide FirstKey, Base;
  }

  /** Pointer keys grow. */
  lemma PointersGrow(leaves: seq<seq<Item>>, start: nat, i: nat, j: nat, ptrs: seq<Ptr>)
    requires LeavesOk(leaves) && Ascending(leaves) && i > 0 && j < LevelSize(|leaves|, i)
    requires ptrs == NodeAt(leaves, start, i, j).ptrs
    ensures forall a, b {:trigger ptrs[a], ptrs[b]} :: 0 <= a < b < |ptrs| ==> Less(ptrs[a].key, ptrs[b].key)
  {
    hide FirstKey, Base, Less, Ascending, NodeAt, LevelSize, LeavesOk;
    forall a, b {:trigger ptrs[a], ptrs[b]} | 0 <= a < b < |ptrs| ensures Less(ptrs[a].key, ptrs[b].key) {
      PointerAt(leaves, start, i, j, ptrs, a);
      PointerAt(leaves, start, i, j, ptrs, b);
      FirstKeysGrow(leaves, i - 1, FANOUT * j + a, FANOUT * j + b);
    }
  }

  /** One step down keeps the key covered. */
  lemma StepDown(leaves: seq<seq<Item>>, start: nat, i: nat, j: nat, key: Key)
    requires LeavesOk(leaves) && Ascending(leaves) && i > 0 && j < LevelSize(|leaves|, i) && Covers(leaves, i, j, key)
    ensures
      var ptrs := NodeAt(leaves, start, i, j).ptrs;
      && ptrs != []
      && var c := FANOUT * j + Choose(ptrs, key, 0);
      && c < LevelSize(|leaves|, i - 1) && Covers(leaves, i - 1, c, key)
      && ptrs[Choose(ptrs, key, 0)].block == Base(start, |leaves|, i - 1) + c
  {
    hide FirstKey, Base, Less, Ascending, Choose;
    var n := LevelSize(|leaves|, i - 1);
    var ptrs := NodeAt(leaves, start, i, j).ptrs;
    assert |ptrs| == ChildCount(n, j);
    PointersGrow(leaves, start, i, j, ptrs);
    ChooseHolds(ptrs, key, 0);
    var c := Choose(ptrs, key, 0);
    NodeBoundary(leaves, i, j);
    assert ptrs[c].key == FirstKey(leaves, i - 1, FANOUT * j + c);
    if c + 1 < |ptrs| { assert ptrs[c + 1].key == FirstKey(leaves, i - 1, FANOUT * j + c + 1); }
  }

  lemma NodeBoundary(leaves: seq<seq<Item>>, i: nat, j: nat)
    requires LeavesOk(leaves) && i > 0 && j < LevelSize(|leaves|, i)
    ensures FANOUT * j < LevelSize(|leaves|, i - 1) && FirstKey(leaves, i, j) == FirstKey(leaves, i - 1, FANOUT * j)
    ensures
      var n, c := LevelSize(|leaves|, i - 1), FANOUT * j + ChildCount(LevelSize(|leaves|, i - 1), j);
      c < n ==> j + 1 < LevelSize(|leaves|, i) && FirstKey(leaves, i, j + 1) == FirstKey(leaves, i - 1, c)
  {
    AboveIndex(LevelSize(|leaves|, i - 1), j);
  }

  lemma {:induction false} SearchReaches(disk: map<nat, Block>, leaves: seq<seq<Item>>, start: nat, i: nat, j: nat,
      key: Key, depth: nat)
    requires LeavesOk(leaves) && Ascending(leaves) && Holds(disk, leaves, start)
    requires i < Height(|leaves|) && j < LevelSize(|leaves|, i) && Covers(leaves, i, j, key) && depth + i < MAX_DEPTH
    ensures exists p ::
      0 <= p < |leaves| && Covers(leaves, 0, p, key)
          && SearchFrom(disk, Base(start, |leaves|, i) + j, key, depth) == Some(leaves[p])
    decreases i
  {
    hide FirstKey, Choose, Height, LevelSize, Base, NodeAt, Covers, SearchFrom, Ascending;
    var b := NodeAt(leaves, start, i, j);
    assert Right(disk, leaves, start, i, j);
    NodeKind(leaves, start, i, j);
    SearchStep(disk, Base(start, |leaves|, i) + j, key, depth);
    if i == 0 {
      assert LevelSize(|leaves|, 0) == |leaves| by { LeafLevel(|leaves|); }
    } else {
      StepDown(leaves, start, i, j, key);
      var c := FANOUT * j + Choose(b.ptrs, key, 0);
      SearchReaches(disk, leaves, start, i - 1, c, key, depth + 1);
    }
  }

  lemma NodeKind(leaves: seq<seq<Item>>, start: nat, i: nat, j: nat)
    requires LeavesOk(leaves) && j < LevelSize(|leaves|, i)
    ensures var b := NodeAt(leaves, start, i, j);
      if i == 0 then j < |leaves| && b == LeafBlock(leaves[j]) else b.NodeBlock?
  {
    hide FirstKey, Base;
  }

  lemma SearchStep(disk: map<nat, Block>, block: nat, key: Key, depth: nat)
    requires depth < MAX_DEPTH && block in disk
    ensures disk[block].LeafBlock? ==> SearchFrom(disk, block, key, depth) == Some(disk[block].items)
    ensures disk[block].NodeBlock? && disk[block].ptrs != [] ==>
      SearchFrom(disk, block, key, depth) == SearchFrom(disk, disk[block].ptrs[Choose(disk[block].ptrs, key, 0)].block,
          key, depth + 1)
  {
    hide Choose;
  }

  lemma LeafLevel(n: nat)
    ensures LevelSize(n, 0) == n
  {
  }

  // ---- and the leaf has the item ------------------------------------------

  /** The first item with the key, as the driver scans a leaf. */
  function FindIn(items: seq<Item>, key: Key): Option<seq<nat>> {
    if items == [] then None else if items[0].key == key then Some(items[0].data) else FindIn(items[1..], key)
  }

  method LeafFind(items: seq<Item>, key: Key) returns (r: Option<seq<nat>>)
    ensures r == FindIn(items, key)
  {
    assert items[0..] == items;
    for i := 0 to |items|
      invariant FindIn(items, key) == FindIn(items[i..], key)
    {
      assert items[i..][1..] == items[i + 1..];
      if items[i].key == key { return Some(items[i].data); }
    }
    return None;
  }

  lemma {:induction false} FindConcat(a: seq<Item>, b: seq<Item>, key: Key)
    ensures FindIn(a + b, key) == if FindIn(a, key).Some? then FindIn(a, key) else FindIn(b, key)
  {
    if a == [] {
      assert a + b == b;
    } else {
      FindConcat(a[1..], b, key);
      assert (a + b)[1..] == a[1..] + b;
    }
  }

  lemma {:induction false} FindNothing(items: seq<Item>, key: Key)
    requires forall x {:trigger x in items} :: x in items ==> x.key != key
    ensures FindIn(items, key).None?
  {
    if items != [] {
      var rest := items[1..];
      assert items[0] in items && forall x {:trigger x in rest} :: x in rest ==> x in items;
      FindNothing(rest, key);
    }
  }

  /** Leaves to the left hold smaller keys. */
  ghost predicate Separated(leaves: seq<seq<Item>>) {
    forall q, r, x, y {:trigger x in leaves[q], y in leaves[r]} ::
      0 <= q < r < |leaves| && x in leaves[q] && y in leaves[r] ==> Less(x.key, y.key)
  }

  lemma {:induction false} InFlat(leaves: seq<seq<Item>>, q: nat, x: Item)
    requires q < |leaves| && x in leaves[q]
    ensures x in Flat(leaves)
  {
    if q < |leaves| - 1 { InFlat(leaves[..|leaves| - 1], q, x); }
  }

  lemma {:induction false} SortedSeparated(leaves: seq<seq<Item>>)
    requires Sorted(Flat(leaves))
    ensures Separated(leaves) && forall q {:trigger leaves[q]} :: 0 <= q < |leaves| ==> Sorted(leaves[q])
  {
    if leaves != [] {
      var front, last := leaves[..|leaves| - 1], leaves[|leaves| - 1];
      var a := Flat(front);
      assert Flat(leaves) == a + last;
      SortedParts(a, last);
      SortedSeparated(front);
      forall q, r, x, y | 0 <= q < r < |leaves| && x in leaves[q] && y in leaves[r] ensures Less(x.key, y.key) {
        if r == |leaves| - 1 {
          InFlat(front, q, x);
        } else {
          assert x in front[q] && y in front[r];
        }
      }
    }
  }

  lemma SortedParts(a: seq<Item>, b: seq<Item>)
    requires Sorted(a + b)
    ensures Sorted(a) && Sorted(b) && forall x, y {:trigger x in a, y in b} :: x in a && y in b ==> Less(x.key, y.key)
  {
    var s := a + b;
    assert forall i {:trigger a[i]} :: 0 <= i < |a| ==> s[i] == a[i];
    assert forall i {:trigger b[i]} :: 0 <= i < |b| ==> s[|a| + i] == b[i];
  }

  /** Only the covering leaf can hold the key. */
  lemma OtherLeavesLack(leaves: seq<seq<Item>>, p: nat, q: nat, key: Key)
    requires LeavesOk(leaves) && Separated(leaves) && p < |leaves| && q < |leaves| && p != q
      && Covers(leaves, 0, p, key)
    requires Sorted(leaves[q])
    ensures forall x {:trigger x in leaves[q]} :: x in leaves[q] ==> x.key != key
  {
    assert leaves[p][0] in leaves[p];
    if p + 1 < |leaves| { assert leaves[p + 1][0] in leaves[p + 1]; }
    forall x | x in leaves[q] ensures x.key != key {
      var m :| 0 <= m < |leaves[q]| && leaves[q][m] == x;
      assert m > 0 ==> Less(leaves[q][0].key, leaves[q][m].key);
      if q > p + 1 { assert Less(leaves[p + 1][0].key, x.key); }
    }
  }

  lemma {:induction false} FindInFlat(leaves: seq<seq<Item>>, p: nat, n: nat, key: Key)
    requires p < |leaves| && n <= |leaves|
    requires forall q, x {:trigger x in leaves[q]} :: 0 <= q < |leaves| && q != p && x in leaves[q] ==> x.key != key
    ensures FindIn(Flat(leaves[..n]), key) == if p < n then FindIn(leaves[p], key) else None
  {
    if n > 0 {
      FindInFlat(leaves, p, n - 1, key);
      assert leaves[..n] == leaves[..n - 1] + [leaves[n - 1]];
      FlatAppend(leaves[..n - 1], leaves[n - 1]);
      FindConcat(Flat(leaves[..n - 1]), leaves[n - 1], key);
      if n - 1 != p { FindNothing(leaves[n - 1], key); }
    }
  }

  /** What a search answers, for keys present and absent, is what the item list says. */
  lemma SearchFinds(disk: map<nat, Block>, leaves: seq<seq<Item>>, start: nat, key: Key)
    requires LeavesOk(leaves) && Sorted(Flat(leaves)) && Holds(disk, leaves, start) && Height(|leaves|) <= MAX_DEPTH
    ensures
      var leaf := SearchFrom(disk, Base(start, |leaves|, Height(|leaves|) - 1), key, 0);
      leaf.Some? && Sorted(leaf.value) && FindIn(leaf.value, key) == FindIn(Flat(leaves), key)
  {
    hide Holds, SearchFrom, FindIn, Flat, Sorted, Separated, Ascending, Covers, Height, Base, LevelSize;
    SortedSeparated(leaves);
    SeparatedAscends(leaves);
    TopCovers(leaves, key);
    LeafLevel(|leaves|);
    SearchReaches(disk, leaves, start, Height(|leaves|) - 1, 0, key, 0);
    var p :| 0 <= p < |leaves| && Covers(leaves, 0, p, key)
      && SearchFrom(disk, Base(start, |leaves|, Height(|leaves|) - 1) + 0, key, 0) == Some(leaves[p]);
    forall q, x {:trigger x in leaves[q]} | 0 <= q < |leaves| && q != p && x in leaves[q] ensures x.key != key {
      OtherLeavesLack(leaves, p, q, key);
    }
    FindInFlat(leaves, p, |leaves|, key);
    assert leaves[..|leaves|] == leaves;
  }

  lemma TopCovers(leaves: seq<seq<Item>>, key: Key)
    requires LeavesOk(leaves)
    ensures LevelSize(|leaves|, Height(|leaves|) - 1) == 1 && Covers(leaves, Height(|leaves|) - 1, 0, key)
  {
    hide FirstKey;
    TopIsOne(|leaves|);
  }

  lemma SeparatedAscends(leaves: seq<seq<Item>>)
    requires LeavesOk(leaves) && Separated(leaves)
    ensures Ascending(leaves)
  {
    forall a, b {:trigger leaves[a], leaves[b]} | 0 <= a < b < |leaves|
      ensures Less(leaves[a][0].key, leaves[b][0].key) {
      assert leaves[a][0] in leaves[a] && leaves[b][0] in leaves[b];
    }
  }
}
