/** The state a destroy leaves behind: exact again unless an object was collapsed. */
module MoAfter {
  import opened MoState
  import opened MoDestroy
  import opened MoSteps

  /** An object without a parent goes alone. */
  lemma EffectRoot(h: Heap, rank: seq<nat>, live: set<nat>, kids: seq<seq<nat>>, o: nat)
    requires Exact(h, rank, live, kids) && o in live && kids[o] == [] && h.mos[o].cowParent == 0
    ensures Effect(h, Release(h, o), live, kids, o, [o], 0)
  {
    hide Survives, PmmPages, UtPages, Threaded;
    AllCons(h.mos, o, []);
    assert [o] == [o] + [];
    var g := Release(h, o);
    forall x {:trigger x in live} | x in live && x !in [o]
      ensures x < |h.mos| && h.mos[x].cowParent < |h.slots| && Survives(h, g, kids, [o], 0, x)
    {
      RootSurvives(h, rank, live, kids, o, x);
    }
  }

  lemma RootSurvives(h: Heap, rank: seq<nat>, live: set<nat>, kids: seq<seq<nat>>, o: nat, x: nat)
    requires Exact(h, rank, live, kids) && o in live && kids[o] == [] && h.mos[o].cowParent == 0 && x in live && x != o
    ensures Survives(h, Release(h, o), kids, [o], 0, x)
  {
    hide PmmPages, UtPages;
    var m := Release(h, o).mos;
    assert forall i {:trigger m[kids[x][i]]} :: 0 <= i < |kids[x]| ==>
      m[kids[x][i]].nextSibling == h.mos[kids[x][i]].nextSibling;
    if h.mos[x].cowParent != 0 { assert x in kids[ParentOf(h, x)]; }
  }

  // ---- lists --------------------------------------------------------------

  /** Links determine the list. */
  lemma {:induction false} ThreadedUnique(mos: seq<Mo>, head: nat, a: seq<nat>, b: seq<nat>)
    requires Threaded(mos, head, a) && Threaded(mos, head, b)
    ensures a == b
    decreases |a|
  {
    if a != [] && b != [] {
      TailThreaded(mos, head, a);
      TailThreaded(mos, head, b);
      ThreadedUnique(mos, mos[head].nextSibling, a[1..], b[1..]);
    }
  }

  lemma TailThreaded(mos: seq<Mo>, head: nat, a: seq<nat>)
    requires a != [] && Threaded(mos, head, a)
    ensures head < |mos| && a[0] == head && Threaded(mos, mos[head].nextSibling, a[1..])
  {
    var t := a[1..];
    assert mos[a[0]].nextSibling == if 1 < |a| then a[1] else 0;
    forall i {:trigger mos[t[i]]} | 0 <= i < |t|
      ensures mos[t[i]].nextSibling == if i + 1 < |t| then t[i + 1] else 0
    {
      assert t[i] == a[i + 1];
      assert mos[a[i + 1]].nextSibling == if i + 2 < |a| then a[i + 2] else 0;
    }
    assert Threaded(mos, mos[head].nextSibling, t);
  }

  ghost function AllKidsAfter(h: Heap, kids: seq<seq<nat>>, gone: seq<nat>): seq<seq<nat>>
    requires gone != [] && Last(gone) < |h.mos| && h.mos[Last(gone)].cowParent < |h.slots|
  {
    seq(|kids|, x requires 0 <= x < |kids| => KidsAfter(h, kids, gone, 0, x))
  }

  lemma {:induction false} WithoutFacts(list: seq<nat>, x: nat)
    requires Distinct(list)
    ensures Distinct(Without(list, x)) && |Without(list, x)| == (if x in list then |list| - 1 else |list|)
    ensures forall c {:trigger c in Without(list, x)} :: c in Without(list, x) <==> c in list && c != x
  {
    if x in list {
      var j :| 0 <= j < |list| && list[j] == x;
      WithoutAt(list, j);
      var rest := list[..j] + list[j + 1..];
      forall c ensures c in rest <==> c in list && c != x {
        if c in list && c != x {
          var k :| 0 <= k < |list| && list[k] == c;
          assert rest[if k < j then k else k - 1] == c;
        }
      }
    } else {
      WithoutAbsent(list, x);
    }
  }

  lemma KidsAfterExact(h: Heap, g: Heap, rank: seq<nat>, live: set<nat>, kids: seq<seq<nat>>, o: nat, gone: seq<nat>,
      p: nat)
    requires Exact(h, rank, live, kids) && Effect(h, g, live, kids, o, gone, 0) && p in live && p !in gone
    requires gone != [] && Last(gone) in live && Last(gone) < |h.mos| && h.mos[Last(gone)].cowParent < |h.slots|
    ensures
      var list := KidsAfter(h, kids, gone, 0, p);
      && p < |h.mos| && |g.mos| == |h.mos|
      && Threaded(g.mos, g.mos[p].firstChild, list) && Distinct(list) && |list| <= g.mos[p].refCount
      && (forall c {:trigger c in list} :: c in list <==>
            (c in live && c !in gone && c < |h.mos| && 0 < h.mos[c].cowParent < |h.slots| && ParentOf(h, c) == p))
  {
    hide Threaded, PmmPages, UtPages, AllPmm, AllUt;
    assert Survives(h, g, kids, gone, 0, p);
    var list := KidsAfter(h, kids, gone, 0, p);
    WithoutFacts(kids[p], Last(gone));
    forall c | c in kids[p] && c != Last(gone) ensures c !in gone {
      OnlyLastLeaves(h, live, o, gone, p, c);
    }
    assert Last(gone) in kids[p] ==> Loses(h, gone, 0, p);
  }

  /** Of a survivor's children only the last object of the chain goes. */
  lemma OnlyLastLeaves(h: Heap, live: set<nat>, o: nat, gone: seq<nat>, p: nat, c: nat)
    requires ChainUp(h, live, o, gone) && p !in gone && c < |h.mos| && h.mos[c].cowParent < |h.slots|
    requires ParentOf(h, c) == p && c != Last(gone)
    ensures c !in gone
  {
    forall k | 0 <= k < |gone| ensures gone[k] != c {
      assert k + 1 < |gone| ==> gone[k + 1] in gone && ParentLink(h, gone, k);
    }
  }

  /** Without a collapse, the child lists and reference counts are exact again. */
  lemma ExactAfter(h: Heap, g: Heap, rank: seq<nat>, live: set<nat>, kids: seq<seq<nat>>, o: nat, gone: seq<nat>)
    requires Exact(h, rank, live, kids) && Effect(h, g, live, kids, o, gone, 0)
    ensures gone != [] && Last(gone) < |h.mos| && h.mos[Last(gone)].cowParent < |h.slots|
    ensures Exact(g, rank, After(live, gone), AllKidsAfter(h, kids, gone))
  {
    hide Threaded, Effect;
    EffectAt(h, g, live, kids, o, gone, 0);
    RankedAfter(h, g, rank, live, kids, o, gone, 0);
    var kids', live' := AllKidsAfter(h, kids, gone), After(live, gone);
    forall x | x in live'
      ensures g.mos[x].cowParent == h.mos[x].cowParent && (h.mos[x].cowParent != 0 ==> ParentOf(g, x) == ParentOf(h, x))
    {
      assert Survives(h, g, kids, gone, 0, x);
    }
    forall p | p in live'
      ensures Threaded(g.mos, g.mos[p].firstChild, kids'[p]) && Distinct(kids'[p]) && |kids'[p]| <= g.mos[p].refCount
      ensures forall c {:trigger c in kids'[p]} :: c in kids'[p] <==>
        c in live' && g.mos[c].cowParent != 0 && ParentOf(g, c) == p
    {
      KidsAfterExact(h, g, rank, live, kids, o, gone, p);
    }
  }

  /** A collapse leaves the collapsed object on its parent's list, so no reading of the
      links is exact. */
  lemma CollapseLeavesDangling(h: Heap, g: Heap, rank: seq<nat>, live: set<nat>, kids: seq<seq<nat>>, o: nat,
      gone: seq<nat>, r: nat,
                               kids': seq<seq<nat>>)
    requires Exact(h, rank, live, kids) && Effect(h, g, live, kids, o, gone, r) && r != 0
    ensures !Exact(g, rank, After(live, gone), kids')
  {
    hide Threaded, PmmPages, UtPages, AllPmm, AllUt, NoPages;
    var q := Last(gone);
    var gp := ParentOf(h, q);
    assert Survives(h, g, kids, gone, r, gp);
    assert q in kids[gp];
    assert q in [r] + kids[gp];
    if Exact(g, rank, After(live, gone), kids') {
      ThreadedUnique(g.mos, g.mos[gp].firstChild, kids'[gp], [r] + kids[gp]);
    }
  }
}
