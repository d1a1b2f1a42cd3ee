/** Building the tree blocks level by level. */
module SaltyBuild {
  import opened SaltyTree
  import opened SaltySearch

  /** A node before it has a block number: its first key and its children's indices. */
  datatype Info = Info(level: nat, first: Key, lo: nat, count: nat)

  function InfoAt(leaves: seq<seq<Item>>, i: nat, j: nat): Info
    requires LeavesOk(leaves) && j < LevelSize(|leaves|, i)
  {
    if i == 0 then Info(0, FirstKey(leaves, 0, j), j, 0)
    else Info(i, FirstKey(leaves, i, j), FANOUT * j, ChildCount(LevelSize(|leaves|, i - 1), j))
  }

  ghost predicate IsLevel(nodes: seq<Info>, leaves: seq<seq<Item>>, i: nat)
    requires LeavesOk(leaves)
  {
    |nodes| == LevelSize(|leaves|, i) && forall j {:trigger nodes[j]} :: 0 <= j < |nodes| ==>
        nodes[j] == InfoAt(leaves, i, j)
  }

  method LeafLevelNodes(leaves: seq<seq<Item>>) returns (nodes: seq<Info>)
    requires LeavesOk(leaves)
    ensures IsLevel(nodes, leaves, 0)
  {
    nodes := [];
    for j := 0 to |leaves|
      invariant |nodes| == j && forall k {:trigger nodes[k]} :: 0 <= k < j ==> nodes[k] == InfoAt(leaves, 0, k)
    {
      nodes := nodes + [Info(0, leaves[j][0].key, j, 0)];
    }
  }

  /** Group the nodes of a level. */
  method NextLevel(current: seq<Info>, ghost leaves: seq<seq<Item>>, ghost i: nat) returns (next: seq<Info>)
    requires LeavesOk(leaves) && IsLevel(current, leaves, i) && current != []
    ensures IsLevel(next, leaves, i + 1)
  {
    hide FirstKey;
    next := [];
    var at := 0;
    while at < |current|
      invariant at == FANOUT * |next| && |next| <= Above(|current|)
      invariant forall k {:trigger next[k]} :: 0 <= k < |next| ==> next[k] == InfoAt(leaves, i + 1, k)
    {
      var j := |next|;
      Grouping(|current|, j);
      var count := if at + FANOUT <= |current| then FANOUT else |current| - at;
      assert count == ChildCount(|current|, j);
      GroupFirst(leaves, i, j);
      next := next + [Info(current[at].level + 1, current[at].first, at, count)];
      at := at + FANOUT;
    }
    GroupingEnds(|current|, |next|);
  }

  lemma Grouping(n: nat, j: nat)
    requires FANOUT * j < n
    ensures j < Above(n)
  {
  }

  lemma GroupingEnds(n: nat, j: nat)
    requires FANOUT * j >= n && j <= Above(n)
    ensures j == Above(n)
  {
    var q := Above(n);
    assert FANOUT == 122;
    assert 122 * q <= n + 121;
  }

  lemma GroupFirst(leaves: seq<seq<Item>>, i: nat, j: nat)
    requires LeavesOk(leaves) && j < Above(LevelSize(|leaves|, i))
    ensures FANOUT * j < LevelSize(|leaves|, i) && FirstKey(leaves, i + 1, j) == FirstKey(leaves, i, FANOUT * j)
  {
    AboveIndex(LevelSize(|leaves|, i), j);
  }

  /** All levels, leaves first, until one node is left. */
  method BuildLevels(leaves: seq<seq<Item>>) returns (levels: seq<seq<Info>>)
    requires LeavesOk(leaves)
    ensures |levels| == Height(|leaves|)
    ensures forall i {:trigger levels[i]} :: 0 <= i < |levels| ==> IsLevel(levels[i], leaves, i)
  {
    hide IsLevel, Height, LevelSize;
    var current := LeafLevelNodes(leaves);
    levels := [current];
    LevelFacts(current, leaves, 0);
    LeafLevel(|leaves|);
    while |current| > 1
      invariant |levels| > 0 && current == levels[|levels| - 1] && |current| == LevelSize(|leaves|, |levels| - 1) > 0
      invariant forall i {:trigger levels[i]} :: 0 <= i < |levels| ==> IsLevel(levels[i], leaves, i)
      invariant |levels| - 1 + Height(|current|) == Height(|leaves|)
      decreases |current|
    {
      var next := NextLevel(current, leaves, |levels| - 1);
      LevelFacts(next, leaves, |levels|);
      LevelShrinks(|leaves|, |levels|);
      HeightStep(|current|);
      levels := levels + [next];
      current := next;
    }
    HeightOne(|current|);
  }

  lemma LevelFacts(nodes: seq<Info>, leaves: seq<seq<Item>>, i: nat)
    requires LeavesOk(leaves) && IsLevel(nodes, leaves, i)
    ensures |nodes| == LevelSize(|leaves|, i)
  {
  }

  lemma LevelShrinks(n: nat, i: nat)
    requires i > 0
    ensures LevelSize(n, i) == Above(LevelSize(n, i - 1))
  {
  }

  lemma HeightStep(n: nat)
    requires n > 1
    ensures Height(n) == 1 + Height(Above(n)) && 0 < Above(n) < n
  {
    AboveShrinks(n);
    hide Above;
  }

  lemma AboveShrinks(n: nat)
    requires n > 1
    ensures 0 < Above(n) < n
  {
    var q := Above(n);
    assert FANOUT == 122;
    assert 122 * q <= n + 121 < 122 * q + 122;
  }

  lemma HeightOne(n: nat)
    requires n == 1
    ensures Height(n) == 1
  {
  }

  // ---- numbering and writing ----------------------------------------------

  /** Blocks in the whole tree. */
  function TreeBlocks(n: nat): nat { Base(0, n, Height(n)) }

  lemma {:induction false} BaseShift(start: nat, n: nat, i: nat)
    ensures Base(start, n, i) == start + Base(0, n, i)
  {
    if i > 0 { BaseShift(start, n, i - 1); }
  }

  lemma {:induction false} BaseGrows(start: nat, n: nat, i: nat, k: nat)
    requires i < k
    ensures Base(start, n, i) + LevelSize(n, i) <= Base(start, n, k)
    decreases k
  {
    hide LevelSize;
    if i < k - 1 { BaseGrows(start, n, i, k - 1); }
  }

  /** The blocks below position (i, j) are there and are the right ones. */
  ghost predicate WrittenTo(blocks: map<nat, Block>, leaves: seq<seq<Item>>, start: nat, i: nat, j: nat)
    requires LeavesOk(leaves)
  {
    && (forall b {:trigger b in blocks} :: b in blocks <==> start <= b < Base(start, |leaves|, i) + j)
    && (forall k: nat, m: nat {:trigger Right(blocks, leaves, start, k, m)} ::
          m < LevelSize(|leaves|, k) && (k < i || (k == i && m < j)) ==> Right(blocks, leaves, start, k, m))
  }

  lemma WriteOne(blocks: map<nat, Block>, leaves: seq<seq<Item>>, start: nat, i: nat, j: nat)
    requires LeavesOk(leaves) && WrittenTo(blocks, leaves, start, i, j) && j < LevelSize(|leaves|, i)
    ensures WrittenTo(blocks[Base(start, |leaves|, i) + j := NodeAt(leaves, start, i, j)], leaves, start, i, j + 1)
  {
    hide NodeAt, LevelSize, Base;
    BaseShift(start, |leaves|, i);
    var at := Base(start, |leaves|, i) + j;
    var more := blocks[at := NodeAt(leaves, start, i, j)];
    forall k: nat, m: nat {:trigger Right(more, leaves, start, k, m)} | m < LevelSize(|leaves|, k)
      && (k < i || (k == i && m < j + 1))
      ensures Right(more, leaves, start, k, m)
    {
      if k < i {
        BaseGrows(start, |leaves|, k, i);
        assert Right(blocks, leaves, start, k, m);
      } else if m < j {
        assert Right(blocks, leaves, start, k, m);
      }
    }
  }

  lemma WriteLevel(blocks: map<nat, Block>, leaves: seq<seq<Item>>, start: nat, i: nat)
    requires LeavesOk(leaves) && WrittenTo(blocks, leaves, start, i, LevelSize(|leaves|, i))
    ensures WrittenTo(blocks, leaves, start, i + 1, 0)
  {
    assert Base(start, |leaves|, i + 1) == Base(start, |leaves|, i) + LevelSize(|leaves|, i);
    hide Right, LevelSize, Base;
  }

  /** The pointers of an internal node. */
  method Pointers(node: Info, below: seq<Info>, base: nat, ghost leaves: seq<seq<Item>>, ghost start: nat,
      ghost i: nat, ghost j: nat)
    returns (ptrs: seq<Ptr>)
    requires LeavesOk(leaves) && i > 0 && IsLevel(below, leaves, i - 1) && j < LevelSize(|leaves|, i)
    requires node == InfoAt(leaves, i, j) && base == Base(start, |leaves|, i - 1)
    ensures NodeAt(leaves, start, i, j) == NodeBlock(i, ptrs)
  {
    hide FirstKey, Base;
    ptrs := [];
    ghost var all := NodeAt(leaves, start, i, j).ptrs;
    for c := 0 to node.count
      invariant |ptrs| == c && forall d {:trigger ptrs[d]} :: 0 <= d < c ==> ptrs[d] == all[d]
    {
      ptrs := ptrs + [Ptr(below[node.lo + c].first, base + node.lo + c)];
    }
    assert ptrs == all;
  }

  /** Number the nodes, leaves first and root last, and write their blocks. */
  method WriteBlocks(levels: seq<seq<Info>>, leaves: seq<seq<Item>>, start: nat)
      returns (root: nat, blocks: map<nat, Block>)
    requires LeavesOk(leaves) && |levels| == Height(|leaves|)
    requires forall i {:trigger levels[i]} :: 0 <= i < |levels| ==> IsLevel(levels[i], leaves, i)
    ensures WrittenTo(blocks, leaves, start, Height(|leaves|), 0)
    ensures root == Base(start, |leaves|, Height(|leaves|) - 1)
  {
    hide IsLevel, WrittenTo, NodeAt, LevelSize, Height;
    blocks := map[];
    var next: nat, below: nat := start, start;
    NothingWritten(leaves, start);
    for i := 0 to |levels|
      invariant next == Base(start, |leaves|, i) && (i > 0 ==> below == Base(start, |leaves|, i - 1))
      invariant WrittenTo(blocks, leaves, start, i, 0)
    {
      LevelFacts(levels[i], leaves, i);
      for j := 0 to |levels[i]|
        invariant WrittenTo(blocks, leaves, start, i, j)
      {
        var b := NodeToBlock(levels, leaves, start, i, j, below);
        WriteOne(blocks, leaves, start, i, j);
        blocks := blocks[next + j := b];
      }
      WriteLevel(blocks, leaves, start, i);
      below, next := next, next + |levels[i]|;
    }
    root := below;
  }

  method NodeToBlock(levels: seq<seq<Info>>, leaves: seq<seq<Item>>, ghost start: nat, i: nat, j: nat, below: nat)
      returns (b: Block)
    requires LeavesOk(leaves) && i < |levels| && forall k {:trigger levels[k]} :: 0 <= k < |levels| ==>
      IsLevel(levels[k], leaves, k)
    requires j < |levels[i]| && (i > 0 ==> below == Base(start, |leaves|, i - 1))
    ensures j < LevelSize(|leaves|, i) && b == NodeAt(leaves, start, i, j)
  {
    hide FirstKey, Base;
    assert IsLevel(levels[i], leaves, i);
    if levels[i][j].level == 0 {
      b := LeafBlock(leaves[levels[i][j].lo]);
    } else {
      var ptrs := Pointers(levels[i][j], levels[i - 1], below, leaves, start, i, j);
      b := NodeBlock(i, ptrs);
    }
  }

  lemma NothingWritten(leaves: seq<seq<Item>>, start: nat)
    requires LeavesOk(leaves)
    ensures WrittenTo(map[], leaves, start, 0, 0)
  {
  }

  /** The whole build, from sorted items: no items, or one too large for a block, is an
      error; otherwise the tree's blocks are exactly the numbers from start on. */
  method BuildTree(items: seq<Item>, start: nat) returns (r: Option<(nat, map<nat, Block>)>)
    ensures r.None? <==> items == [] || Leaves(items).None?
    ensures r.Some? ==>
      var leaves := Leaves(items).value;
      && LeavesOk(leaves) && WrittenTo(r.value.1, leaves, start, Height(|leaves|), 0)
      && r.value.0 == Base(start, |leaves|, Height(|leaves|) - 1)
  {
    hide Leaves, WrittenTo, Height;
    if |items| == 0 { return None; }
    var split := SplitLeafItems(items);
    if split.None? { return None; }
    SplitHolds(items);
    var levels := BuildLevels(split.value);
    var root, blocks := WriteBlocks(levels, split.value, start);
    return Some((root, blocks));
  }
}
