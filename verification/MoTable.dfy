/** Memory objects in place: the object table, the capability slots that name parents,
    and the release of pages. */
module MoTable {
  import opened MoState
  import opened MoDestroy
  import opened MoSteps
  import opened MoAfter
  import opened MoPages

  const BATCH_SIZE: nat := 128

  function Under(f: Found, n: nat): Found { if f.Missing? then Missing else Found(f.phys, f.depth + n) }

  class Objects {
    const mos: array<Mo>
    const slots: array<nat>
    /** Pages given back to the frame allocator, and to untyped free lists. */
    var pmm: seq<nat>
    var ut: seq<nat>

    ghost function View(): Heap
      reads this, mos, slots
    {
      Heap(mos[..], slots[..], pmm, ut)
    }

    constructor (m: seq<Mo>, s: seq<nat>)
      ensures View() == Heap(m, s, [], []) && fresh(mos) && fresh(slots)
    {
      mos := new Mo[|m|](i requires 0 <= i < |m| => m[i]);
      slots := new nat[|s|](i requires 0 <= i < |s| => s[i]);
      pmm, ut := [], [];
      new;
      assert mos[..] == m && slots[..] == s;
    }

    /** Page resolution: own entry, else up the parent chain, with the depth. */
    method ResolvePageDepth(o: nat, index: nat, ghost rank: seq<nat>, ghost live: set<nat>) returns (f: Found)
      requires Ranked(View(), rank, live) && o in live
      ensures f == Resolved(View(), rank, live, o, index)
      ensures o < mos.Length && Resolves(View(), live, o, index, f)
    {
      hide Resolves;
      ResolvedResolves(View(), rank, live, o, index);
      if index >= mos[o].pageCount { return Missing; }
      var entry := Get(mos[o].pages, index);
      if entry != 0 {
        if Busy(entry) { return Missing; }
        if Phys(entry) != 0 { return Found(Phys(entry), 0); }
      }
      assert Resolved(View(), rank, live, o, index) == Inherited(View(), rank, live, o, index)
        == FromParent(View(), rank, live, o, index);
      if mos[o].cowParent == 0 { return Missing; }
      var depth := 0;
      var slot := mos[o].cowParent;
      ghost var x := o;
      while slot != 0
        invariant x in live && slot == mos[x].cowParent
        invariant Resolved(View(), rank, live, o, index) == Under(FromParent(View(), rank, live, x, index), depth)
        decreases rank[x]
      {
        var p := slots[slot];
        depth := depth + 1;
        x := p;
        var e := Get(mos[p].pages, index);
        if e != 0 && !Busy(e) && Phys(e) != 0 { return Found(Phys(e), depth); }
        slot := mos[p].cowParent;
      }
      return Missing;
    }

    /** Push a batch of pages on their untyped's free list. */
    method Flush(batch: array<nat>, n: nat)
      requires n <= batch.Length
      modifies `ut
      ensures ut == old(ut) + batch[..n]
    {
      for b := 0 to n
        invariant ut == old(ut) + batch[..b]
      {
        ut := ut + [batch[b]];
      }
    }

    /** Give back every committed page, untyped pages in batches. */
    method ReleasePages(o: nat)
      requires o < mos.Length
      modifies this, mos
      ensures View() == Release(old(View()), o)
      ensures GaveBack(old(pmm), pmm, old(mos[o].pages), false) && GaveBack(old(ut), ut, old(mos[o].pages), true)
    {
      hide GaveBack;
      ReleaseGivesBack(View(), o);
      var batch := new nat[BATCH_SIZE];
      var len := 0;
      var pages := mos[o].pages;
      for i := 0 to |pages|
        invariant fresh(batch) && len <= BATCH_SIZE && mos[..] == old(mos[..])
        invariant pmm == old(pmm) + PmmPages(pages[..i])
        invariant ut + batch[..len] == old(ut) + UtPages(pages[..i])
      {
        hide PmmPages, UtPages;
        var entry := pages[i];
        OnePageMore(pages, i);
        if entry != 0 && !Busy(entry) && Phys(entry) != 0 {
          AppendOne(old(ut), UtPages(pages[..i]), Phys(entry));
          AppendOne(old(pmm), PmmPages(pages[..i]), Phys(entry));
          if FromUntyped(entry) {
            if len == BATCH_SIZE {
              Flush(batch, BATCH_SIZE);
              len := 0;
            }
            AppendOne(ut, batch[..len], Phys(entry));
            ghost var held := batch[..len];
            batch[len] := Phys(entry);
            assert batch[..len + 1] == held + [Phys(entry)];
            len := len + 1;
          } else {
            pmm := pmm + [Phys(entry)];
          }
        }
      }
      assert pages[..|pages|] == pages;
      Flush(batch, len);
      mos[o] := mos[o].(pages := []);
    }

    /** Take a child off its parent's list; an object that is not there changes nothing. */
    method RemoveFromChildList(p: nat, child: nat, ghost list: seq<nat>) returns (ghost j: nat)
      requires p < mos.Length && 0 < child < mos.Length
      requires Threaded(mos[..], mos[p].firstChild, list) && Distinct(list) && p !in list
      modifies mos
      ensures child in list ==> j < |list| && list[j] == child && mos[..] == UnlinkAt(old(mos[..]), p, list, j)
      ensures child !in list ==> mos[..] == old(mos[..])
    {
      j := 0;
      if mos[p].firstChild == child {
        mos[p] := mos[p].(firstChild := mos[child].nextSibling);
        mos[child] := mos[child].(nextSibling := 0);
        return;
      }
      var prev := mos[p].firstChild;
      while prev != 0
        invariant mos[..] == old(mos[..]) && j <= |list| && prev == (if j < |list| then list[j] else 0)
        invariant child !in list[..j] && (j < |list| ==> list[j] != child)
        decreases |list| - j
      {
        assert mos[..][list[j]].nextSibling == if j + 1 < |list| then list[j + 1] else 0;
        if mos[prev].nextSibling == child {
          mos[prev] := mos[prev].(nextSibling := mos[child].nextSibling);
          mos[child] := mos[child].(nextSibling := 0);
          j := j + 1;
          return;
        }
        prev := mos[prev].nextSibling;
        j := j + 1;
      }
    }

    method HasPages(p: nat) returns (found: bool)
      requires p < mos.Length
      ensures found <==> !NoPages(mos[p].pages)
    {
      found := false;
      for i := 0 to |mos[p].pages|
        invariant found <==> !NoPages(mos[p].pages[..i])
      {
        if mos[p].pages[i] != 0 { found := true; }
      }
    }
  
    /** Hand the only child of the emptied parent p to p's own parent. */
    method RepointChild(p: nat, ghost gp: nat)
      requires 0 < p < mos.Length && mos[p].cowParent < slots.Length && mos[p].cowParent != 0
      requires 0 < mos[p].firstChild < mos.Length && mos[p].firstChild != p
      requires 0 < mos[mos[p].firstChild].cowParent < slots.Length
      requires mos[mos[p].firstChild].cowParent != mos[p].cowParent
      requires gp == slots[mos[p].cowParent] && 0 < gp < mos.Length && gp != p && gp != mos[p].firstChild
      modifies mos, slots
      ensures View() == Repoint(old(View()), p, old(mos[p].firstChild), gp)
    {
      var remaining := mos[p].firstChild;
      var oldCap := mos[remaining].cowParent;
      mos[remaining] := mos[remaining].(cowParent := mos[p].cowParent);
      mos[p] := mos[p].(cowParent := 0);
      if oldCap != 0 { slots[oldCap] := 0; }
      mos[p] := mos[p].(firstChild := 0);
      mos[remaining] := mos[remaining].(nextSibling := 0);
      if mos[remaining].cowParent != 0 {
        var grand := slots[mos[remaining].cowParent];
        if grand != 0 {
          mos[remaining] := mos[remaining].(nextSibling := mos[grand].firstChild);
          mos[grand] := mos[grand].(firstChild := remaining);
        }
      }
    }
  
    /** Destroy an object without children.  Its parent goes too when this was the last
        reference to it, and so on up the chain; an emptied intermediate parent is
        collapsed.  The effect is stated from exact child lists; an object without a
        parent only gives back its pages. */
    method Destroy(o: nat, ghost rank: seq<nat>, ghost live: set<nat>, ghost kids: seq<seq<nat>>)
      returns (ghost gone: seq<nat>, ghost r: nat)
      requires o < mos.Length && o < |rank|
      requires mos[o].cowParent == 0 || (Exact(View(), rank, live, kids) && o in live && kids[o] == [])
      modifies this, mos, slots
      ensures old(mos[o].cowParent) == 0 ==> View() == Release(old(View()), o)
      ensures old(Exact(View(), rank, live, kids) && o in live && kids[o] == []) ==>
        Effect(old(View()), View(), live, kids, o, gone, r)
      ensures old(Exact(View(), rank, live, kids) && o in live && kids[o] == []) ==>
        Returns(old(View()), View(), gone)
      decreases rank[o], 1
    {
      hide Exact, Effect, Release, Returns;
      ghost var h := View();
      ReleasePages(o);
      ReleaseTouches(h, o);
      KidsSize(h, rank, live, kids);
      if mos[o].cowParent == 0 {
        gone, r := [o], 0;
        if Exact(h, rank, live, kids) && o in live && kids[o] == [] { EffectRoot(h, rank, live, kids, o); }
      } else {
        gone, r := LeaveParent(o, rank, live, kids, h);
      }
      if Exact(h, rank, live, kids) && o in live && kids[o] == [] { DestroyReturns(h, View(), live, kids, o, gone, r); }
    }

    /** Take o off its parent's list and drop its reference. */
    method DropReference(p: nat, o: nat, ghost h: Heap, ghost rank: seq<nat>, ghost live: set<nat>,
        ghost kids: seq<seq<nat>>)
      returns (ghost j: nat)
      requires Exact(h, rank, live, kids) && o in live && kids[o] == [] && h.mos[o].cowParent != 0
        && p == ParentOf(h, o)
      requires View() == Release(h, o)
      modifies mos
      ensures p < |h.mos| == |kids| && Leaving(h, rank, live, kids, o, p, j) && h.mos[p].refCount > 0
      ensures forall i {:trigger kids[p][i]} :: 0 <= i < |kids[p]| ==> kids[p][i] < |h.mos|
      ensures View() == Detach(h, o, p, kids[p], j)
    {
      hide Exact;
      ghost var k := ChildIndex(h, rank, live, kids, o);
      LeavingFacts(h, rank, live, kids, o, p, k);
      ReleaseThreads(h, o, h.mos[p].firstChild, kids[p]);
      assert kids[p][k] in kids[p];
      j := RemoveFromChildList(p, o, kids[p]);
      mos[p] := mos[p].(refCount := mos[p].refCount - 1);
    }

    /** One child left, no pages of its own, and a parent to hand it to. */
    method CanCollapse(p: nat, left: nat) returns (yes: bool)
      requires p < mos.Length && left == mos[p].refCount
      ensures yes <==>
        left == 1 && mos[p].cowChild && mos[p].cowParent != 0 && NoPages(mos[p].pages) && mos[p].firstChild != 0
    {
      if left == 1 && mos[p].cowChild && mos[p].cowParent != 0 {
        var has := HasPages(p);
        return !has && mos[p].firstChild != 0;
      }
      return false;
    }

    /** Detach from the parent, then cascade or collapse. */
    method LeaveParent(o: nat, ghost rank: seq<nat>, ghost live: set<nat>, ghost kids: seq<seq<nat>>, ghost h: Heap)
      returns (ghost gone: seq<nat>, ghost r: nat)
      requires o < mos.Length && o < |rank| && o < |h.mos| && View() == Release(h, o) && h.mos[o].cowParent != 0
      requires Exact(h, rank, live, kids) && o in live && kids[o] == []
      modifies this, mos, slots
      ensures Effect(h, View(), live, kids, o, gone, r)
      decreases rank[o], 0
    {
      hide Exact, Effect, Release, Detach, Collapse, Repoint;
      ReleaseTouches(h, o);
      ghost var k := ChildIndex(h, rank, live, kids, o);
      LeavingFacts(h, rank, live, kids, o, ParentOf(h, o), k);
      var slot := mos[o].cowParent;
      var p := slots[slot];
      ghost var j := DropReference(p, o, h, rank, live, kids);
      ghost var d := View();
      var left := mos[p].refCount;
      MayCollapse(h, rank, live, kids, o, p, j, d);
      RankFalls(h, rank, live, kids, o, p, j);
      if left == 0 {
        DetachExact(h, rank, live, kids, o, p, j, d);
        NoChildrenLeft(d, rank, live - {o}, KidsLess(kids, p, j), p);
        ghost var above;
        above, r := Destroy(p, rank, live - {o}, KidsLess(kids, p, j));
        EffectCascade(h, rank, live, kids, o, p, j, d, View(), above, r);
        gone := [o] + above;
      } else {
        var collapse := CanCollapse(p, left);
        if collapse {
          ghost var gp := ParentOf(h, p);
          r := mos[p].firstChild;
          CollapsingFacts(h, rank, live, kids, o, p, j, d, r, gp);
          CollapsingSlots(h, rank, live, kids, o, p, j, d, r, gp);
          RepointChild(p, gp);
          RepointTouches(d, p, r, gp);
          ghost var alone, none := Destroy(p, rank, live, kids);
          CollapseIs(d, p, r, gp);
          EffectCollapse(h, rank, live, kids, o, p, j, d, r, gp);
          gone := [o, p];
        } else {
          EffectStop(h, rank, live, kids, o, p, j, d);
          gone, r := [o], 0;
        }
      }
      slots[slot] := 0;
      mos[o] := mos[o].(cowParent := 0);
    }
  }

  lemma AppendOne(a: seq<nat>, b: seq<nat>, x: nat)
    ensures a + (b + [x]) == (a + b) + [x]
  {
  }

  lemma OnePageMore(pages: seq<nat>, i: nat)
    requires i < |pages|
    ensures
      var e := pages[i];
      && PmmPages(pages[..i + 1]) == PmmPages(pages[..i]) + (if Committed(e) && !FromUntyped(e) then [Phys(e)] else [])
      && UtPages(pages[..i + 1]) == UtPages(pages[..i]) + (if Committed(e) && FromUntyped(e) then [Phys(e)] else [])
  {
    assert pages[..i + 1][..i] == pages[..i];
  }

  lemma ReleaseTouches(h: Heap, o: nat)
    requires o < |h.mos|
    ensures Release(h, o).mos == h.mos[o := h.mos[o].(pages := [])] && Release(h, o).slots == h.slots
  {
  }

  lemma ChildIndex(h: Heap, rank: seq<nat>, live: set<nat>, kids: seq<seq<nat>>, o: nat) returns (j: nat)
    requires Exact(h, rank, live, kids) && o in live && kids[o] == [] && h.mos[o].cowParent != 0
    ensures o < |h.mos| && h.mos[o].cowParent < |h.slots| && Leaving(h, rank, live, kids, o, ParentOf(h, o), j)
  {
    assert o in kids[ParentOf(h, o)];
    j :| 0 <= j < |kids[ParentOf(h, o)]| && kids[ParentOf(h, o)][j] == o;
  }

  lemma KidsSize(h: Heap, rank: seq<nat>, live: set<nat>, kids: seq<seq<nat>>)
    ensures Exact(h, rank, live, kids) ==> |kids| == |h.mos| == |rank|
  {
  }

  lemma ReleaseThreads(h: Heap, o: nat, head: nat, list: seq<nat>)
    requires o < |h.mos| && Threaded(h.mos, head, list)
    ensures Threaded(Release(h, o).mos, head, list)
  {
    var m := Release(h, o).mos;
    assert forall i {:trigger m[list[i]]} :: 0 <= i < |list| ==> m[list[i]].nextSibling == h.mos[list[i]].nextSibling;
  }

  lemma RankFalls(h: Heap, rank: seq<nat>, live: set<nat>, kids: seq<seq<nat>>, o: nat, p: nat, j: nat)
    requires Leaving(h, rank, live, kids, o, p, j)
    ensures p < |rank| && o < |rank| && rank[p] < rank[o]
  {
  }

  lemma NoChildrenLeft(d: Heap, rank: seq<nat>, live: set<nat>, kids: seq<seq<nat>>, p: nat)
    requires Exact(d, rank, live, kids) && p in live && p < |d.mos| && d.mos[p].refCount == 0
    ensures p < |kids| && kids[p] == []
  {
  }

  lemma MayCollapse(h: Heap, rank: seq<nat>, live: set<nat>, kids: seq<seq<nat>>, o: nat, p: nat, j: nat, d: Heap)
    requires Leaving(h, rank, live, kids, o, p, j) && p < |h.mos| == |kids| && o < |h.mos| && h.mos[p].refCount > 0
    requires forall i {:trigger kids[p][i]} :: 0 <= i < |kids[p]| ==> kids[p][i] < |h.mos|
    requires d == Detach(h, o, p, kids[p], j)
    ensures d.mos[p].refCount == h.mos[p].refCount - 1
    ensures
      var m := d.mos[p];
      (m.refCount == 1 && m.cowChild && m.cowParent != 0 && NoPages(m.pages) && m.firstChild != 0) <==>
          Collapsible(h, kids, p)
    ensures Collapsible(h, kids, p) ==>
      h.mos[p].cowParent < |h.slots| && Collapsing(h, rank, live, kids, o, p, j, d, d.mos[p].firstChild, ParentOf(h, p))
  {
    hide Detach, NoPages;
    LeavingFacts(h, rank, live, kids, o, p, j);
    DetachTouches(h, o, p, kids[p], j, p);
    DetachThreadsParent(h, o, p, kids[p], j);
    var rest := kids[p][..j] + kids[p][j + 1..];
    assert d.mos[p].firstChild != 0 <==> rest != [];
  }

  lemma CollapsingSlots(h: Heap, rank: seq<nat>, live: set<nat>, kids: seq<seq<nat>>, o: nat, p: nat, j: nat, d: Heap,
      r: nat, gp: nat)
    requires Collapsing(h, rank, live, kids, o, p, j, d, r, gp) && r < |d.mos| == |h.mos|
    ensures d.slots == h.slots && d.mos[r].cowParent == h.mos[r].cowParent && d.mos[p].cowParent == h.mos[p].cowParent
    ensures h.mos[r].cowParent != h.mos[p].cowParent
  {
    hide Detach, NoPages;
    CollapsingFacts(h, rank, live, kids, o, p, j, d, r, gp);
    LeavingFacts(h, rank, live, kids, o, p, j);
    DetachTouches(h, o, p, kids[p], j, r);
    DetachTouches(h, o, p, kids[p], j, p);
    DetachLogs(h, o, p, kids[p], j);
  }

  lemma RepointTouches(d: Heap, p: nat, r: nat, gp: nat)
    requires p < |d.mos| && r < |d.mos| && gp < |d.mos| && d.mos[r].cowParent < |d.slots| && p != r && p != gp
    ensures Repoint(d, p, r, gp).mos[p].cowParent == 0
  {
  }

  lemma CollapseIs(d: Heap, p: nat, r: nat, gp: nat)
    requires p < |d.mos| && r < |d.mos| && gp < |d.mos| && d.mos[r].cowParent < |d.slots|
    ensures Collapse(d, p, r, gp) == Release(Repoint(d, p, r, gp), p)
  {
  }
}
