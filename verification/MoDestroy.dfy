/** What destroying a memory object does: the objects that go with it, the pages that
    are given back, and what the survivors resolve to. */
module MoDestroy {
  import opened MoState

  // ---- pages given back ---------------------------------------------------

  /** Committed pages from the frame allocator, in index order. */
  function PmmPages(pages: seq<nat>): seq<nat> {
    if pages == [] then [] else
      var e := pages[|pages| - 1];
      PmmPages(pages[..|pages| - 1]) + if Committed(e) && !FromUntyped(e) then [Phys(e)] else []
  }

  /** Committed pages carved from untyped memory, in index order. */
  function UtPages(pages: seq<nat>): seq<nat> {
    if pages == [] then [] else
      var e := pages[|pages| - 1];
      UtPages(pages[..|pages| - 1]) + if Committed(e) && FromUntyped(e) then [Phys(e)] else []
  }

  function AllPmm(mos: seq<Mo>, gone: seq<nat>): seq<nat>
    requires forall i :: 0 <= i < |gone| ==> gone[i] < |mos|
  {
    if gone == [] then [] else PmmPages(mos[gone[0]].pages) + AllPmm(mos, gone[1..])
  }

  function AllUt(mos: seq<Mo>, gone: seq<nat>): seq<nat>
    requires forall i :: 0 <= i < |gone| ==> gone[i] < |mos|
  {
    if gone == [] then [] else UtPages(mos[gone[0]].pages) + AllUt(mos, gone[1..])
  }

  predicate NoPages(pages: seq<nat>) {
    forall i :: 0 <= i < |pages| ==> pages[i] == 0
  }

  lemma {:induction false} NoPagesReleasesNone(pages: seq<nat>)
    requires NoPages(pages)
    ensures PmmPages(pages) == [] && UtPages(pages) == []
  {
    if pages != [] { NoPagesReleasesNone(pages[..|pages| - 1]); }
  }

  // ---- the steps of a destroy, on values ----------------------------------

  function Release(h: Heap, o: nat): Heap
    requires o < |h.mos|
  {
    h.(mos := h.mos[o := h.mos[o].(pages := [])],
       pmm := h.pmm + PmmPages(h.mos[o].pages), ut := h.ut + UtPages(h.mos[o].pages))
  }

  /** Take the j-th child off p's list. */
  function UnlinkAt(mos: seq<Mo>, p: nat, list: seq<nat>, j: nat): (r: seq<Mo>)
    requires p < |mos| && j < |list| && forall i :: 0 <= i < |list| ==> list[i] < |mos|
    ensures |r| == |mos|
  {
    var o := list[j];
    var next := mos[o].nextSibling;
    var m := if j == 0 then mos[p := mos[p].(firstChild := next)]
             else mos[list[j - 1] := mos[list[j - 1]].(nextSibling := next)];
    m[o := m[o].(nextSibling := 0)]
  }

  /** Release o's pages, take it off its parent's list and drop its reference. */
  function Detach(h: Heap, o: nat, p: nat, list: seq<nat>, j: nat): (r: Heap)
    requires o < |h.mos| && p < |h.mos| && j < |list| && h.mos[p].refCount > 0
    requires forall i :: 0 <= i < |list| ==> list[i] < |h.mos|
    ensures |r.mos| == |h.mos| && |r.slots| == |h.slots|
  {
    var h1 := Release(h, o);
    var m := UnlinkAt(h1.mos, p, list, j);
    h1.(mos := m[p := m[p].(refCount := if m[p].refCount > 0 then m[p].refCount - 1 else 0)])
  }

  /** Give back the slot through which o named its parent. */
  function FreeOwn(h: Heap, o: nat, slot: nat): Heap
    requires o < |h.mos| && slot < |h.slots|
  {
    h.(slots := h.slots[slot := 0], mos := h.mos[o := h.mos[o].(cowParent := 0)])
  }

  /** Hand p's only child r to p's parent g, and p's slot to r. */
  function Repoint(h: Heap, p: nat, r: nat, g: nat): (k: Heap)
    requires p < |h.mos| && r < |h.mos| && g < |h.mos| && h.mos[r].cowParent < |h.slots|
    ensures |k.mos| == |h.mos| && |k.slots| == |h.slots|
  {
    var m1 := h.mos[r := h.mos[r].(cowParent := h.mos[p].cowParent, nextSibling := h.mos[g].firstChild)];
    var m2 := m1[p := m1[p].(cowParent := 0, firstChild := 0)];
    h.(slots := h.slots[h.mos[r].cowParent := 0], mos := m2[g := m2[g].(firstChild := r)])
  }

  function Collapse(h: Heap, p: nat, r: nat, g: nat): (k: Heap)
    requires p < |h.mos| && r < |h.mos| && g < |h.mos| && h.mos[r].cowParent < |h.slots|
    ensures |k.mos| == |h.mos| && |k.slots| == |h.slots|
  {
    Release(Repoint(h, p, r, g), p)
  }

  // ---- what a destroy leaves ----------------------------------------------

  function Last(s: seq<nat>): nat
    requires s != []
  {
    s[|s| - 1]
  }

  ghost predicate ParentLink(h: Heap, gone: seq<nat>, i: nat)
    requires i < |gone| - 1 && gone[i] < |h.mos|
  {
    0 < h.mos[gone[i]].cowParent < |h.slots| && ParentOf(h, gone[i]) == gone[i + 1]
  }

  /** gone runs from o up the parent chain. */
  ghost predicate ChainUp(h: Heap, live: set<nat>, o: nat, gone: seq<nat>) {
    && gone != [] && gone[0] == o && Distinct(gone)
    && (forall i {:trigger gone[i]} :: 0 <= i < |gone| ==> gone[i] in live && gone[i] < |h.mos|)
    && h.mos[Last(gone)].cowParent < |h.slots|
    && (forall i {:trigger ParentLink(h, gone, i)} :: 0 <= i < |gone| - 1 ==> ParentLink(h, gone, i))
  }

  /** p could be collapsed into its parent when it loses a child. */
  ghost predicate Collapsible(h: Heap, kids: seq<seq<nat>>, p: nat)
    requires p < |h.mos| && p < |kids|
  {
    var m := h.mos[p];
    m.refCount == 2 && m.cowChild && m.cowParent != 0 && NoPages(m.pages) && |kids[p]| > 1
  }

  /** Which objects go: the parent goes with its last reference, and an empty
      intermediate parent goes when one child, r, is left to it. */
  ghost predicate Reasons(h: Heap, live: set<nat>, kids: seq<seq<nat>>, o: nat, gone: seq<nat>, r: nat)
    requires ChainUp(h, live, o, gone) && |kids| == |h.mos|
  {
    && LastReferences(h, gone, r)
    && (r != 0 ==> Collapses(h, live, kids, gone, r))
    && (r == 0 && h.mos[Last(gone)].cowParent != 0 ==> Stops(h, live, kids, gone))
  }

  ghost predicate LastReferences(h: Heap, gone: seq<nat>, r: nat)
    requires forall i {:trigger gone[i]} :: 0 <= i < |gone| ==> gone[i] < |h.mos|
  {
    forall i {:trigger gone[i]} :: 0 < i < |gone| && (i < |gone| - 1 || r == 0) ==> h.mos[gone[i]].refCount == 1
  }

  ghost predicate Collapses(h: Heap, live: set<nat>, kids: seq<seq<nat>>, gone: seq<nat>, r: nat)
    requires gone != [] && Last(gone) < |h.mos| == |kids| && h.mos[Last(gone)].cowParent < |h.slots|
  {
    && |gone| >= 2 && Collapsible(h, kids, Last(gone))
    && r in live && r !in gone && r in kids[Last(gone)]
    && ParentOf(h, Last(gone)) in live && ParentOf(h, Last(gone)) !in gone
  }

  /** The parent of the last object keeps other references, and is not collapsible. */
  ghost predicate Stops(h: Heap, live: set<nat>, kids: seq<seq<nat>>, gone: seq<nat>)
    requires gone != [] && Last(gone) < |h.mos| == |kids| && h.mos[Last(gone)].cowParent < |h.slots|
  {
    var top := ParentOf(h, Last(gone));
    top in live && top !in gone && top < |h.mos| && h.mos[top].refCount >= 2 && !Collapsible(h, kids, top)
  }

  /** x loses a reference and a child: it is the parent of the last object to go. */
  ghost predicate Loses(h: Heap, gone: seq<nat>, r: nat, x: nat)
    requires gone != [] && Last(gone) < |h.mos| && h.mos[Last(gone)].cowParent < |h.slots|
  {
    r == 0 && h.mos[Last(gone)].cowParent != 0 && x == ParentOf(h, Last(gone))
  }

  function Without(list: seq<nat>, x: nat): seq<nat> {
    if list == [] then [] else (if list[0] == x then [] else [list[0]]) + Without(list[1..], x)
  }

  /** x's child list afterwards.  A collapse puts r on its new parent's list and leaves
      the collapsed object there too. */
  ghost function KidsAfter(h: Heap, kids: seq<seq<nat>>, gone: seq<nat>, r: nat, x: nat): seq<nat>
    requires gone != [] && Last(gone) < |h.mos| && h.mos[Last(gone)].cowParent < |h.slots| && x < |kids|
  {
    if Loses(h, gone, r, x) then Without(kids[x], Last(gone))
    else if r != 0 && x == ParentOf(h, Last(gone)) then [r] + kids[x]
    else kids[x]
  }

  ghost predicate Survives(h: Heap, g: Heap, kids: seq<seq<nat>>, gone: seq<nat>, r: nat, x: nat)
    requires gone != [] && Last(gone) < |h.mos| && h.mos[Last(gone)].cowParent < |h.slots|
    requires x < |h.mos| && |g.mos| == |h.mos| == |kids| && |g.slots| == |h.slots| && h.mos[x].cowParent < |h.slots|
  {
    var a, b := h.mos[x], g.mos[x];
    && b.pageCount == a.pageCount && b.cowChild == a.cowChild && b.pages == a.pages
    && b.cowParent == (if r != 0 && x == r then h.mos[Last(gone)].cowParent else a.cowParent)
    && (b.cowParent != 0 ==> g.slots[b.cowParent] == h.slots[b.cowParent])
    && (x != r && a.cowParent != 0 ==> ParentOf(h, x) !in gone)
    && b.refCount == (if Loses(h, gone, r, x) then a.refCount - 1 else a.refCount)
    && Threaded(g.mos, b.firstChild, KidsAfter(h, kids, gone, r, x))
  }

  /** The whole effect of destroying o. */
  ghost predicate Effect(h: Heap, g: Heap, live: set<nat>, kids: seq<seq<nat>>, o: nat, gone: seq<nat>, r: nat) {
    && |g.mos| == |h.mos| == |kids| && |g.slots| == |h.slots|
    && ChainUp(h, live, o, gone)
    && Reasons(h, live, kids, o, gone, r)
    && g.pmm == h.pmm + AllPmm(h.mos, gone) && g.ut == h.ut + AllUt(h.mos, gone)
    && (forall x {:trigger x in live} :: x in live && x !in gone ==>
          x < |h.mos| && h.mos[x].cowParent < |h.slots| && Survives(h, g, kids, gone, r, x))
  }

  // ---- what survivors resolve to ------------------------------------------

  ghost function After(live: set<nat>, gone: seq<nat>): set<nat> {
    set x | x in live && x !in gone
  }

  /** A survivor keeps its parent, or takes its parent's parent when that had no
      pages of its own. */
  lemma ParentAfter(h: Heap, g: Heap, rank: seq<nat>, live: set<nat>, kids: seq<seq<nat>>,
                    o: nat, gone: seq<nat>, r: nat, x: nat)
    requires Exact(h, rank, live, kids) && Effect(h, g, live, kids, o, gone, r) && x in live && x !in gone
    ensures 0 < x < |h.mos| == |g.mos| == |rank| && h.mos[x].cowParent < |h.slots| && g.mos[x].cowParent < |g.slots|
    ensures g.mos[x].pages == h.mos[x].pages && g.mos[x].pageCount == h.mos[x].pageCount
    ensures g.mos[x].cowParent == 0 <==> h.mos[x].cowParent == 0
    ensures h.mos[x].cowParent != 0 ==>
      var y, q := ParentOf(g, x), ParentOf(h, x);
      && y in live && y !in gone && y < |h.mos| && rank[y] < rank[x]
      && (y == q || (q in live && q < |h.mos| && h.mos[q].cowParent < |h.slots| && h.mos[q].cowParent != 0
                     && NoPages(h.mos[q].pages) && y == ParentOf(h, q)))
  {
    hide Threaded, NoPages, PmmPages, UtPages, AllPmm, AllUt;
    assert Last(gone) in live;
  }

  lemma RankedAfter(h: Heap, g: Heap, rank: seq<nat>, live: set<nat>, kids: seq<seq<nat>>, o: nat, gone: seq<nat>,
      r: nat)
    requires Exact(h, rank, live, kids) && Effect(h, g, live, kids, o, gone, r)
    ensures Ranked(g, rank, After(live, gone))
  {
    hide Exact, Effect;
    assert |rank| == |g.mos| by { RankSize(h, g, rank, live, kids, o, gone, r); }
    forall x | x in After(live, gone)
      ensures 0 < x < |g.mos| && g.mos[x].cowParent < |g.slots|
      ensures g.mos[x].cowParent != 0 ==>
        ParentOf(g, x) in After(live, gone) && ParentOf(g, x) < |g.mos| && rank[ParentOf(g, x)] < rank[x]
    {
      ParentAfter(h, g, rank, live, kids, o, gone, r, x);
    }
  }

  lemma RankSize(h: Heap, g: Heap, rank: seq<nat>, live: set<nat>, kids: seq<seq<nat>>, o: nat, gone: seq<nat>, r: nat)
    requires Exact(h, rank, live, kids) && Effect(h, g, live, kids, o, gone, r)
    ensures |rank| == |g.mos| && Ranked(h, rank, live)
  {
  }

  lemma {:induction false} InheritedKept(h: Heap, g: Heap, rank: seq<nat>, live: set<nat>, kids: seq<seq<nat>>,
                                         o: nat, gone: seq<nat>, r: nat, x: nat, i: nat)
    requires Exact(h, rank, live, kids) && Effect(h, g, live, kids, o, gone, r) && x in live && x !in gone
    requires Ranked(g, rank, After(live, gone)) && Ranked(h, rank, live)
    ensures SamePage(Inherited(g, rank, After(live, gone), x, i), Inherited(h, rank, live, x, i))
    decreases rank[x]
  {
    hide Exact, Effect;
    ParentAfter(h, g, rank, live, kids, o, gone, r, x);
    if h.mos[x].cowParent != 0 {
      var y, q := ParentOf(g, x), ParentOf(h, x);
      InheritedKept(h, g, rank, live, kids, o, gone, r, y, i);
      assert FromParent(g, rank, After(live, gone), x, i) == Inherited(g, rank, After(live, gone), y, i).Deeper();
      assert FromParent(h, rank, live, x, i) == Inherited(h, rank, live, q, i).Deeper();
      if y != q {
        assert Get(h.mos[q].pages, i) == 0;
        assert Inherited(h, rank, live, q, i) == FromParent(h, rank, live, q, i);
        assert FromParent(h, rank, live, q, i) == Inherited(h, rank, live, y, i).Deeper();
      }
    }
  }

  /** No survivor sees a different page. */
  lemma ResolveKept(h: Heap, g: Heap, rank: seq<nat>, live: set<nat>, kids: seq<seq<nat>>,
                    o: nat, gone: seq<nat>, r: nat, x: nat, i: nat)
    requires Exact(h, rank, live, kids) && Effect(h, g, live, kids, o, gone, r) && x in live && x !in gone
    ensures Ranked(g, rank, After(live, gone))
    ensures SamePage(Resolved(g, rank, After(live, gone), x, i), Resolved(h, rank, live, x, i))
  {
    RankedAfter(h, g, rank, live, kids, o, gone, r);
    InheritedKept(h, g, rank, live, kids, o, gone, r, x, i);
  }
}
