/** Memory objects: page tables with a copy-on-write parent, child lists and
    reference counts.  The radix tree is the sequence of its leaf entries. */
module MoState {
  const TAG_UNTYPED: nat := 1
  const TAG_BUSY: nat := 2
  const TAG_RANGE: nat := 4096

  /** Object 0 and slot 0 stand for null and for no parent. */
  datatype Mo = Mo(pageCount: nat, cowChild: bool, pages: seq<nat>, cowParent: nat,
                   firstChild: nat, nextSibling: nat, refCount: nat)

  /** The objects, the capability slots that name parents, and the pages given back to
      the frame allocator and to untyped free lists, in order. */
  datatype Heap = Heap(mos: seq<Mo>, slots: seq<nat>, pmm: seq<nat>, ut: seq<nat>)

  function Get(pages: seq<nat>, i: nat): nat { if i < |pages| then pages[i] else 0 }
  predicate Busy(entry: nat) { entry / TAG_BUSY % 2 == 1 }
  predicate FromUntyped(entry: nat) { entry % 2 == TAG_UNTYPED }
  function Phys(entry: nat): nat { entry - entry % TAG_RANGE }
  predicate Committed(entry: nat) { entry != 0 && !Busy(entry) && Phys(entry) != 0 }

  function ParentOf(h: Heap, x: nat): nat
    requires x < |h.mos| && h.mos[x].cowParent < |h.slots|
  {
    h.slots[h.mos[x].cowParent]
  }

  /** x's parent chain is well founded: ranks fall along it. */
  ghost predicate Ranked(h: Heap, rank: seq<nat>, live: set<nat>) {
    && |rank| == |h.mos|
    && (forall x {:trigger x in live} :: x in live ==>
          && 0 < x < |h.mos|
          && h.mos[x].cowParent < |h.slots|
          && (h.mos[x].cowParent != 0 ==>
                ParentOf(h, x) in live && ParentOf(h, x) < |h.mos| && rank[ParentOf(h, x)] < rank[x]))
  }

  // ---- resolution ---------------------------------------------------------

  datatype Found = Missing | Found(phys: nat, depth: nat) {
    function Deeper(): Found { if Missing? then Missing else Found(phys, depth + 1) }
  }

  /** What x contributes and inherits at index i, as an ancestor: busy entries are
      skipped. */
  ghost function Inherited(h: Heap, rank: seq<nat>, live: set<nat>, x: nat, i: nat): Found
    requires Ranked(h, rank, live) && x in live
    decreases rank[x]
  {
    if Committed(Get(h.mos[x].pages, i)) then Found(Phys(Get(h.mos[x].pages, i)), 0)
    else FromParent(h, rank, live, x, i)
  }

  ghost function FromParent(h: Heap, rank: seq<nat>, live: set<nat>, x: nat, i: nat): Found
    requires Ranked(h, rank, live) && x in live
    decreases rank[x], 0
  {
    if h.mos[x].cowParent == 0 then Missing else Inherited(h, rank, live, ParentOf(h, x), i).Deeper()
  }

  /** Page i of x. */
  ghost function Resolved(h: Heap, rank: seq<nat>, live: set<nat>, x: nat, i: nat): Found
    requires Ranked(h, rank, live) && x in live
  {
    if i >= h.mos[x].pageCount || Busy(Get(h.mos[x].pages, i)) then Missing
    else Inherited(h, rank, live, x, i)
  }

  predicate SamePage(a: Found, b: Found) { a.Missing? == b.Missing? && (a.Found? ==> a.phys == b.phys) }

  // ---- child lists --------------------------------------------------------

  ghost predicate Threaded(mos: seq<Mo>, head: nat, list: seq<nat>) {
    && head == (if list == [] then 0 else list[0])
    && (forall i {:trigger list[i]} :: 0 <= i < |list| ==> 0 < list[i] < |mos|)
    && (forall i {:trigger mos[list[i]]} :: 0 <= i < |list| ==>
          mos[list[i]].nextSibling == (if i + 1 < |list| then list[i + 1] else 0))
  }

  ghost predicate Distinct(list: seq<nat>) {
    forall i, j :: 0 <= i < j < |list| ==> list[i] != list[j]
  }

  /** kids[p] is p's child list, and it holds exactly the live objects whose parent is
      p; each of them holds a reference through a slot of its own. */
  ghost predicate Exact(h: Heap, rank: seq<nat>, live: set<nat>, kids: seq<seq<nat>>) {
    && Ranked(h, rank, live)
    && |kids| == |h.mos|
    && (forall x, y :: x in live && y in live && x != y && h.mos[x].cowParent != 0 ==>
          h.mos[x].cowParent != h.mos[y].cowParent)
    && (forall p {:trigger kids[p]} :: p in live ==>
          && Threaded(h.mos, h.mos[p].firstChild, kids[p])
          && Distinct(kids[p])
          && |kids[p]| <= h.mos[p].refCount
          && (forall c {:trigger c in kids[p]} :: c in kids[p] ==>
                c in live && h.mos[c].cowParent != 0 && ParentOf(h, c) == p))
    && (forall c :: c in live && h.mos[c].cowParent != 0 ==> c in kids[ParentOf(h, c)])
  }
}
