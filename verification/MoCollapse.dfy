/** When a destroy collapses an object, told from the heap before it, and what that means
    for the child lists afterwards. */
module MoCollapse {
  import opened MoState
  import opened MoDestroy
  import opened MoAfter
  import opened MoTable

  /** Walk up while each parent goes with its last reference; the first one that stays is
      collapsed if it has no pages, a parent, and one child besides the one it loses. */
  ghost predicate WillCollapse(h: Heap, rank: seq<nat>, live: set<nat>, kids: seq<seq<nat>>, o: nat)
    requires Ranked(h, rank, live) && |kids| == |h.mos| && o in live
    decreases rank[o]
  {
    h.mos[o].cowParent != 0 &&
    var p := ParentOf(h, o);
    if h.mos[p].refCount == 1 then WillCollapse(h, rank, live, kids, p) else Collapsible(h, kids, p)
  }

  /** The chain above the first object has the same reasons. */
  lemma ReasonsTail(h: Heap, live: set<nat>, kids: seq<seq<nat>>, o: nat, gone: seq<nat>, r: nat)
    requires |kids| == |h.mos| && ChainUp(h, live, o, gone) && Reasons(h, live, kids, o, gone, r)
    requires |gone| >= 3 || (|gone| == 2 && r == 0)
    ensures ChainUp(h, live, gone[1], gone[1..]) && Reasons(h, live, kids, gone[1], gone[1..], r)
  {
    hide Collapsible;
    var t := gone[1..];
    assert Last(t) == Last(gone) && forall x {:trigger x in t} :: x in t ==> x in gone;
    forall i {:trigger ParentLink(h, t, i)} | 0 <= i < |t| - 1 ensures ParentLink(h, t, i) {
      assert ParentLink(h, gone, i + 1);
    }
  }

  lemma {:induction false} CollapseForeseen(h: Heap, rank: seq<nat>, live: set<nat>, kids: seq<seq<nat>>, o: nat,
      gone: seq<nat>, r: nat)
    requires Ranked(h, rank, live) && |kids| == |h.mos| && o in live
    requires ChainUp(h, live, o, gone) && Reasons(h, live, kids, o, gone, r)
    ensures r != 0 <==> WillCollapse(h, rank, live, kids, o)
    decreases |gone|
  {
    if |gone| > 1 {
      assert ParentLink(h, gone, 0);
      if |gone| > 2 || r == 0 {
        assert h.mos[gone[1]].refCount == 1;
        ReasonsTail(h, live, kids, o, gone, r);
        CollapseForeseen(h, rank, live, kids, gone[1], gone[1..], r);
      }
    }
  }

  /** After a destroy the links can be read as exact child lists if and only if no object
      was to be collapsed. */
  lemma ExactUnlessCollapse(h: Heap, g: Heap, rank: seq<nat>, live: set<nat>, kids: seq<seq<nat>>, o: nat,
      gone: seq<nat>, r: nat)
    requires Exact(h, rank, live, kids) && o in live && Effect(h, g, live, kids, o, gone, r)
    ensures (exists after :: Exact(g, rank, After(live, gone), after)) <==> !WillCollapse(h, rank, live, kids, o)
  {
    CollapseForeseen(h, rank, live, kids, o, gone, r);
    hide Exact, Effect, WillCollapse;
    if r == 0 {
      ExactAfter(h, g, rank, live, kids, o, gone);
    } else {
      forall after ensures !Exact(g, rank, After(live, gone), after) {
        CollapseLeavesDangling(h, g, rank, live, kids, o, gone, r, after);
      }
    }
  }

  // ---- a heap where it happens --------------------------------------------

  /** Object 1 has the empty copy-on-write child 2, and that has the children 3 and 4. */
  const FAMILY: seq<Mo> := [
    Mo(0, false, [], 0, 0, 0, 0),
    Mo(1, false, [0x1000], 0, 2, 0, 2),
    Mo(1, true, [], 1, 3, 0, 2),
    Mo(1, true, [], 2, 0, 4, 1),
    Mo(1, true, [], 3, 0, 0, 1)]
  const NAMES: seq<nat> := [0, 1, 2, 2]
  const FAMILY_RANK: seq<nat> := [0, 0, 1, 2, 2]
  const FAMILY_KIDS: seq<seq<nat>> := [[], [2], [3, 4], [], []]
  const FAMILY_LIVE: set<nat> := {1, 2, 3, 4}

  ghost const BEFORE: Heap := Heap(FAMILY, NAMES, [], [])

  lemma FamilyRanked()
    ensures Ranked(BEFORE, FAMILY_RANK, FAMILY_LIVE)
    ensures ParentOf(BEFORE, 2) == 1 && ParentOf(BEFORE, 3) == 2 && ParentOf(BEFORE, 4) == 2
  {
  }

  lemma FamilyLists(p: nat)
    requires p in FAMILY_LIVE
    ensures Threaded(FAMILY, FAMILY[p].firstChild, FAMILY_KIDS[p]) && Distinct(FAMILY_KIDS[p])
    ensures |FAMILY_KIDS[p]| <= FAMILY[p].refCount
  {
    if p == 1 {
      assert FAMILY_KIDS[p] == [2];
    } else if p == 2 {
      assert FAMILY_KIDS[p] == [3, 4];
    }
  }

  lemma FamilyExact()
    ensures Exact(BEFORE, FAMILY_RANK, FAMILY_LIVE, FAMILY_KIDS)
  {
    hide Threaded, Distinct, Ranked;
    FamilyRanked();
    forall p | p in FAMILY_LIVE
      ensures Threaded(FAMILY, FAMILY[p].firstChild, FAMILY_KIDS[p]) && Distinct(FAMILY_KIDS[p])
        && |FAMILY_KIDS[p]| <= FAMILY[p].refCount
    {
      FamilyLists(p);
    }
    assert BEFORE.mos == FAMILY && BEFORE.slots == NAMES;
  }

  lemma FamilyCollapses()
    ensures Ranked(BEFORE, FAMILY_RANK, FAMILY_LIVE) && WillCollapse(BEFORE, FAMILY_RANK, FAMILY_LIVE, FAMILY_KIDS, 3)
  {
    FamilyRanked();
    hide Ranked;
    assert Collapsible(BEFORE, FAMILY_KIDS, 2);
  }

  /** Destroying object 3 hands object 4 to object 1 and leaves the dead object 2 behind
      it on object 1's list. */
  method EmptyParentLingers() returns (t: Objects)
    ensures t.mos.Length == 5 && t.mos[1].firstChild == 4 && t.mos[4].nextSibling == 2 && t.mos[2].nextSibling == 0
    ensures !exists after :: Exact(t.View(), FAMILY_RANK, {1, 4}, after)
  {
    hide Exact, Effect, WillCollapse;
    FamilyExact();
    FamilyCollapses();
    t := new Objects(FAMILY, NAMES);
    assert t.View() == BEFORE;
    ghost var gone, r := t.Destroy(3, FAMILY_RANK, FAMILY_LIVE, FAMILY_KIDS);
    FamilyGone(t.View(), gone, r);
    FamilyAfter(t.View(), gone, r);
    ExactUnlessCollapse(BEFORE, t.View(), FAMILY_RANK, FAMILY_LIVE, FAMILY_KIDS, 3, gone, r);
  }

  lemma FamilyGone(g: Heap, gone: seq<nat>, r: nat)
    requires Effect(BEFORE, g, FAMILY_LIVE, FAMILY_KIDS, 3, gone, r)
    ensures gone == [3, 2] && r == 4 && After(FAMILY_LIVE, gone) == {1, 4}
  {
    hide PmmPages, UtPages, AllPmm, AllUt, Survives, WillCollapse;
    FamilyCollapses();
    CollapseForeseen(BEFORE, FAMILY_RANK, FAMILY_LIVE, FAMILY_KIDS, 3, gone, r);
    assert ParentLink(BEFORE, gone, 0);
    assert gone[1] == 2;
    assert r in [3, 4];
  }

  lemma FamilyAfter(g: Heap, gone: seq<nat>, r: nat)
    requires Effect(BEFORE, g, FAMILY_LIVE, FAMILY_KIDS, 3, gone, r) && gone == [3, 2] && r == 4
    ensures |g.mos| == 5 && g.mos[1].firstChild == 4 && g.mos[4].nextSibling == 2 && g.mos[2].nextSibling == 0
  {
    hide PmmPages, UtPages, AllPmm, AllUt, Reasons, ChainUp;
    assert 1 in FAMILY_LIVE;
    assert Survives(BEFORE, g, FAMILY_KIDS, gone, r, 1);
    var list := [4, 2];
    assert KidsAfter(BEFORE, FAMILY_KIDS, gone, r, 1) == list;
    assert g.mos[list[0]].nextSibling == 2 && g.mos[list[1]].nextSibling == 0;
  }
}
