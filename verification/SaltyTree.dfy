/** The metadata tree of a SaltyFS image: leaf splitting, level building, and the file
    system driver's search. */
module SaltyTree {
  datatype Option<T> = None | Some(value: T)

  const BLOCK_SIZE: nat := 4096
  const NODE_HEADER: nat := 64
  const ITEM_SIZE: nat := 25
  const POINTER_SIZE: nat := 33
  const FANOUT: nat := (BLOCK_SIZE - NODE_HEADER) / POINTER_SIZE
  const MAX_DEPTH: nat := 16

  // ---- keys and items -----------------------------------------------------

  datatype Key = Key(obj: nat, kind: nat, off: nat)

  predicate Less(a: Key, b: Key) {
    a.obj < b.obj || (a.obj == b.obj && (a.kind < b.kind || (a.kind == b.kind && a.off < b.off)))
  }

  predicate AtMost(a: Key, b: Key) { !Less(b, a) }

  datatype Item = Item(key: Key, data: seq<nat>)

  predicate Sorted(items: seq<Item>) {
    forall i, j :: 0 <= i < j < |items| ==> Less(items[i].key, items[j].key)
  }

  function DataSize(items: seq<Item>): nat {
    if items == [] then 0 else DataSize(items[..|items| - 1]) + |items[|items| - 1].data|
  }

  function LeafSize(items: seq<Item>): nat { NODE_HEADER + |items| * ITEM_SIZE + DataSize(items) }

  lemma DataSizeAppend(items: seq<Item>, it: Item)
    ensures DataSize(items + [it]) == DataSize(items) + |it.data|
  {
    assert (items + [it])[..|items|] == items;
  }

  // ---- splitting into leaves ----------------------------------------------

  /** One item more: it joins the current leaf, or starts the next one. */
  datatype Filling = Filling(leaves: seq<seq<Item>>, cur: seq<Item>)

  predicate Joins(f: Filling, it: Item) { LeafSize(f.cur + [it]) <= BLOCK_SIZE || f.cur == [] }

  function Fill(f: Filling, it: Item): Filling {
    if Joins(f, it) then f.(cur := f.cur + [it]) else Filling(f.leaves + [f.cur], [it])
  }

  /** The state after n items, None once one item is larger than a block. */
  function FillAll(items: seq<Item>, n: nat): Option<Filling>
    requires n <= |items|
  {
    if n == 0 then Some(Filling([], [])) else
      var f := FillAll(items, n - 1);
      if f.None? || LeafSize([items[n - 1]]) > BLOCK_SIZE then None else Some(Fill(f.value, items[n - 1]))
  }

  function Finish(f: Filling): seq<seq<Item>> { if f.cur == [] then f.leaves else f.leaves + [f.cur] }

  function Leaves(items: seq<Item>): Option<seq<seq<Item>>> {
    var f := FillAll(items, |items|);
    if f.None? then None else Some(Finish(f.value))
  }

  method SplitLeafItems(items: seq<Item>) returns (r: Option<seq<seq<Item>>>)
    ensures r == Leaves(items)
  {
    var leaves, cur, size := [], [], 0;
    for n := 0 to |items|
      invariant FillAll(items, n) == Some(Filling(leaves, cur)) && size == DataSize(cur)
    {
      var it := items[n];
      SingleSize(it);
      DataSizeAppend(cur, it);
      var need := NODE_HEADER + (|cur| + 1) * ITEM_SIZE + size + |it.data|;
      if need > BLOCK_SIZE && cur != [] {
        leaves := leaves + [cur];
        cur, size := [], 0;
        need := NODE_HEADER + ITEM_SIZE + |it.data|;
      }
      if need > BLOCK_SIZE {
        assert LeafSize([it]) > BLOCK_SIZE;
        FillStops(items, n + 1);
        return None;
      }
      assert LeafSize([it]) <= BLOCK_SIZE;
      DataSizeAppend(cur, it);
      cur := cur + [it];
      size := size + |it.data|;
    }
    if cur != [] { leaves := leaves + [cur]; }
    return Some(leaves);
  }

  lemma SingleSize(it: Item)
    ensures LeafSize([it]) == NODE_HEADER + ITEM_SIZE + |it.data| && [] + [it] == [it]
  {
    assert [it][..0] == [];
    assert DataSize([]) == 0;
  }

  lemma {:induction false} FillStops(items: seq<Item>, n: nat)
    requires n <= |items| && FillAll(items, n).None?
    ensures FillAll(items, |items|).None?
    decreases |items| - n
  {
    if n < |items| { FillStops(items, n + 1); }
  }

  function Flat(leaves: seq<seq<Item>>): seq<Item> {
    if leaves == [] then [] else Flat(leaves[..|leaves| - 1]) + leaves[|leaves| - 1]
  }

  lemma FlatAppend(leaves: seq<seq<Item>>, leaf: seq<Item>)
    ensures Flat(leaves + [leaf]) == Flat(leaves) + leaf
  {
    assert (leaves + [leaf])[..|leaves|] == leaves;
  }

  predicate GoodLeaf(leaf: seq<Item>) { leaf != [] && LeafSize(leaf) <= BLOCK_SIZE }

  /** So far nothing is lost, and every leaf fits. */
  ghost predicate FillingOk(f: Filling, prefix: seq<Item>) {
    && Flat(f.leaves) + f.cur == prefix
    && (forall i {:trigger f.leaves[i]} :: 0 <= i < |f.leaves| ==> GoodLeaf(f.leaves[i]))
    && (f.cur != [] ==> GoodLeaf(f.cur)) && (f.cur == [] ==> f.leaves == [])
  }

  lemma FillStep(f: Filling, it: Item, prefix: seq<Item>)
    requires FillingOk(f, prefix) && LeafSize([it]) <= BLOCK_SIZE
    ensures FillingOk(Fill(f, it), prefix + [it])
  {
    hide LeafSize, Flat;
    if Joins(f, it) {
      assert f.cur == [] ==> f.cur + [it] == [it];
      assert Flat(f.leaves) + (f.cur + [it]) == Flat(f.leaves) + f.cur + [it];
    } else {
      FlatAppend(f.leaves, f.cur);
    }
  }

  lemma {:induction false} FillHolds(items: seq<Item>, n: nat)
    requires n <= |items|
    ensures FillAll(items, n).Some? ==> FillingOk(FillAll(items, n).value, items[..n])
  {
    hide LeafSize, Fill;
    if n == 0 {
      assert Flat([]) == [];
    } else {
      FillHolds(items, n - 1);
      if FillAll(items, n).Some? {
        FillStep(FillAll(items, n - 1).value, items[n - 1], items[..n - 1]);
        assert items[..n] == items[..n - 1] + [items[n - 1]];
      }
    }
  }

  lemma {:induction false} FillFails(items: seq<Item>, n: nat)
    requires n <= |items|
    ensures FillAll(items, n).None? <==> exists i :: 0 <= i < n && LeafSize([items[i]]) > BLOCK_SIZE
  {
    hide LeafSize, Fill;
    if n > 0 { FillFails(items, n - 1); }
  }

  /** Splitting keeps every item in order, makes only leaves that fit, and fails exactly
      when one item alone does not fit. */
  lemma SplitHolds(items: seq<Item>)
    ensures Leaves(items).None? <==> exists i :: 0 <= i < |items| && LeafSize([items[i]]) > BLOCK_SIZE
    ensures Leaves(items).Some? ==>
      var leaves := Leaves(items).value;
      && Flat(leaves) == items && (items != [] ==> leaves != [])
      && (forall i {:trigger leaves[i]} :: 0 <= i < |leaves| ==> GoodLeaf(leaves[i]))
  {
    hide LeafSize;
    FillHolds(items, |items|);
    FillFails(items, |items|);
    assert items[..|items|] == items;
    if Leaves(items).Some? {
      var f := FillAll(items, |items|).value;
      FlatAppend(f.leaves, f.cur);
      assert f.cur == [] ==> Flat(f.leaves) + f.cur == Flat(f.leaves);
      assert items != [] && f.cur == [] ==> f.leaves != [];
    }
  }
}
