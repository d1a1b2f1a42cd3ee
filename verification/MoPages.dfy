/** Page entries read as the kernel documents them: a frame address in the bits above the
    twelfth, bit 0 for a page from untyped memory, bit 1 for a page being committed. */
module MoPages {
  import opened MoState
  import opened MoDestroy

  /** The entry holds frame k, and says where frame k came from. */
  predicate HoldsFrame(entry: nat, k: nat, untyped: bool) {
    k > 0 && entry / 4096 == k && entry % 4 == if untyped then 1 else 0
  }

  predicate Holds(entry: nat) {
    entry >= 4096 && entry % 4 < 2
  }

  /** Whatever the low twelve bits hold, they do not reach the address. */
  lemma EntryParts(k: nat, t: nat)
    requires t < 4096
    ensures
      var e := 4096 * k + t;
      && Phys(e) == 4096 * k
      && (FromUntyped(e) <==> t % 2 == 1)
      && (Busy(e) <==> t / 2 % 2 == 1)
      && (Committed(e) <==> k > 0 && t % 4 < 2)
  {
    var e := 4096 * k + t;
    assert e / 4096 == k && e % 4096 == t;
    assert e / 2 == 2048 * k + t / 2 && e % 2 == t % 2 && e / 2 % 2 == t / 2 % 2;
    assert t % 4 == t / 2 % 2 * 2 + t % 2;
  }

  lemma EntryMeans(e: nat)
    ensures Committed(e) <==> Holds(e)
    ensures Committed(e) ==> Phys(e) == 4096 * (e / 4096) && HoldsFrame(e, e / 4096, FromUntyped(e))
    ensures Busy(e) <==> e % 4 >= 2
  {
    EntryParts(e / 4096, e % 4096);
    assert e == 4096 * (e / 4096) + e % 4096;
    assert e % 4 == e % 4096 % 4 && e % 2 == e % 4 % 2;
  }

  // ---- resolution ---------------------------------------------------------

  /** The objects of path, each the copy-on-write parent of the one before. */
  ghost predicate Lineage(h: Heap, live: set<nat>, path: seq<nat>) {
    && path != [] && path[0] in live && path[0] < |h.mos| && h.mos[path[0]].cowParent < |h.slots|
    && (|path| > 1 ==>
          h.mos[path[0]].cowParent != 0 && path[1] == ParentOf(h, path[0]) && Lineage(h, live, path[1..]))
  }

  ghost predicate EntryHeld(h: Heap, x: nat, i: nat) {
    x < |h.mos| && Holds(Get(h.mos[x].pages, i))
  }

  /** Only the last of the path has page i. */
  ghost predicate LastHolds(h: Heap, path: seq<nat>, i: nat) {
    path != [] && if |path| == 1 then EntryHeld(h, path[0], i)
                  else !EntryHeld(h, path[0], i) && LastHolds(h, path[1..], i)
  }

  lemma {:induction false} InheritedFrom(h: Heap, rank: seq<nat>, live: set<nat>, path: seq<nat>, i: nat)
    requires Ranked(h, rank, live) && Lineage(h, live, path) && LastHolds(h, path, i)
    ensures path[|path| - 1] < |h.mos|
    ensures Inherited(h, rank, live, path[0], i)
         == Found(4096 * (Get(h.mos[path[|path| - 1]].pages, i) / 4096), |path| - 1)
    decreases |path|
  {
    hide Phys, Busy, Holds;
    EntryMeans(Get(h.mos[path[0]].pages, i));
    if |path| > 1 { InheritedFrom(h, rank, live, path[1..], i); }
  }

  /** Page i of x is the frame of the nearest ancestor that has one, with the number of
      steps to it, and frames are told by the entry's bits from the twelfth up. */
  lemma ResolvesToNearest(h: Heap, rank: seq<nat>, live: set<nat>, path: seq<nat>, i: nat, k: nat, untyped: bool)
    requires Ranked(h, rank, live) && Lineage(h, live, path) && LastHolds(h, path, i)
    requires path[|path| - 1] < |h.mos| && HoldsFrame(Get(h.mos[path[|path| - 1]].pages, i), k, untyped)
    requires i < h.mos[path[0]].pageCount && Get(h.mos[path[0]].pages, i) % 4 < 2
    ensures Resolved(h, rank, live, path[0], i) == Found(4096 * k, |path| - 1)
  {
    hide Phys, Busy, Holds;
    EntryMeans(Get(h.mos[path[0]].pages, i));
    InheritedFrom(h, rank, live, path, i);
  }

  /** From x up, the last of the path is the first with page i. */
  ghost predicate Reaches(h: Heap, live: set<nat>, x: nat, path: seq<nat>, i: nat) {
    path != [] && path[0] == x && Lineage(h, live, path) && LastHolds(h, path, i)
  }

  lemma {:induction false} InheritedPath(h: Heap, rank: seq<nat>, live: set<nat>, x: nat, i: nat)
      returns (path: seq<nat>)
    requires Ranked(h, rank, live) && x in live && x < |h.mos|
    requires Inherited(h, rank, live, x, i).Found?
    ensures Reaches(h, live, x, path, i)
    decreases rank[x]
  {
    hide Phys, Busy, Holds;
    EntryMeans(Get(h.mos[x].pages, i));
    if EntryHeld(h, x, i) {
      path := [x];
    } else {
      var up := InheritedPath(h, rank, live, ParentOf(h, x), i);
      path := [x] + up;
      assert path[1..] == up;
    }
  }

  /** A page resolves to nothing exactly when it is past the end, is being committed, or
      neither the object nor any ancestor has it. */
  lemma ResolvesToNothing(h: Heap, rank: seq<nat>, live: set<nat>, x: nat, i: nat)
    requires Ranked(h, rank, live) && x in live && x < |h.mos|
    ensures Resolved(h, rank, live, x, i).Missing? <==>
      || i >= h.mos[x].pageCount || Get(h.mos[x].pages, i) % 4 >= 2
      || !exists path :: Reaches(h, live, x, path, i)
  {
    hide Phys, Busy, Holds, Reaches, Inherited;
    EntryMeans(Get(h.mos[x].pages, i));
    if Inherited(h, rank, live, x, i).Found? {
      var path := InheritedPath(h, rank, live, x, i);
    }
    forall path | Reaches(h, live, x, path, i) ensures Inherited(h, rank, live, x, i).Found? {
      ReachesFinds(h, rank, live, x, path, i);
    }
  }

  lemma ReachesFinds(h: Heap, rank: seq<nat>, live: set<nat>, x: nat, path: seq<nat>, i: nat)
    requires Ranked(h, rank, live) && x in live && Reaches(h, live, x, path, i)
    ensures Inherited(h, rank, live, x, i).Found?
  {
    InheritedFrom(h, rank, live, path, i);
  }

  /** What the walk up the parents gives, told from the entries' bits. */
  ghost predicate Resolves(h: Heap, live: set<nat>, x: nat, i: nat, f: Found)
    requires x < |h.mos|
  {
    if i >= h.mos[x].pageCount || Get(h.mos[x].pages, i) % 4 >= 2 then f == Missing
    else
      && (f.Missing? <==> !exists path :: Reaches(h, live, x, path, i))
      && (forall path :: Reaches(h, live, x, path, i) ==>
            && path[|path| - 1] < |h.mos|
            && f == Found(4096 * (Get(h.mos[path[|path| - 1]].pages, i) / 4096), |path| - 1))
  }

  lemma ResolvedResolves(h: Heap, rank: seq<nat>, live: set<nat>, x: nat, i: nat)
    requires Ranked(h, rank, live) && x in live && x < |h.mos|
    ensures Resolves(h, live, x, i, Resolved(h, rank, live, x, i))
  {
    hide Phys, Busy, Holds, Inherited;
    ResolvesToNothing(h, rank, live, x, i);
    EntryMeans(Get(h.mos[x].pages, i));
    forall path | Reaches(h, live, x, path, i)
      ensures path[|path| - 1] < |h.mos|
      ensures Inherited(h, rank, live, x, i)
           == Found(4096 * (Get(h.mos[path[|path| - 1]].pages, i) / 4096), |path| - 1)
    {
      InheritedFrom(h, rank, live, path, i);
    }
  }

  // ---- release ------------------------------------------------------------

  /** Where in an object's table frame k is held. */
  ghost function Places(pages: seq<nat>, k: nat, untyped: bool): set<nat> {
    set i | 0 <= i < |pages| && HoldsFrame(pages[i], k, untyped)
  }

  /** Over several objects. */
  ghost function PlacesIn(mos: seq<Mo>, gone: seq<nat>, k: nat, untyped: bool): nat
    requires forall i {:trigger gone[i]} :: 0 <= i < |gone| ==> gone[i] < |mos|
  {
    if gone == [] then 0 else |Places(mos[gone[0]].pages, k, untyped)| + PlacesIn(mos, gone[1..], k, untyped)
  }

  lemma PlacesGrow(pages: seq<nat>, k: nat, untyped: bool)
    requires pages != []
    ensures
      var n := |pages| - 1;
      |Places(pages, k, untyped)|
        == |Places(pages[..n], k, untyped)| + if HoldsFrame(pages[n], k, untyped) then 1 else 0
  {
    var n := |pages| - 1;
    var less := Places(pages[..n], k, untyped);
    assert Places(pages, k, untyped) == if HoldsFrame(pages[n], k, untyped) then less + {n} else less;
  }

  /** An object's frames go back where they came from, each as often as it is held: frames
      from untyped memory to the free lists, the others to the frame allocator. */
  lemma {:induction false} ReleaseReturns(pages: seq<nat>, k: nat)
    ensures multiset(PmmPages(pages))[4096 * k] == |Places(pages, k, false)|
    ensures multiset(UtPages(pages))[4096 * k] == |Places(pages, k, true)|
    decreases |pages|
  {
    hide Phys, Busy, FromUntyped, HoldsFrame, Holds;
    if pages != [] {
      var n := |pages| - 1;
      var e := pages[n];
      ReleaseReturns(pages[..n], k);
      PlacesGrow(pages, k, false);
      PlacesGrow(pages, k, true);
      EntryHolds(e, k);
    }
  }

  lemma EntryHolds(e: nat, k: nat)
    ensures HoldsFrame(e, k, false) <==> Committed(e) && !FromUntyped(e) && Phys(e) == 4096 * k
    ensures HoldsFrame(e, k, true) <==> Committed(e) && FromUntyped(e) && Phys(e) == 4096 * k
  {
    EntryMeans(e);
    if Phys(e) == 4096 * k && Committed(e) { assert e / 4096 == k; }
  }

  /** Nothing else goes back. */
  lemma {:induction false} ReleaseOnlyFrames(pages: seq<nat>, p: nat)
    requires p in PmmPages(pages) || p in UtPages(pages)
    ensures p > 0 && p % 4096 == 0
    decreases |pages|
  {
    hide Phys, Busy, FromUntyped, HoldsFrame, Holds;
    var n := |pages| - 1;
    EntryMeans(pages[n]);
    EntryBound(pages[n]);
    if p in PmmPages(pages[..n]) || p in UtPages(pages[..n]) { ReleaseOnlyFrames(pages[..n], p); }
  }

  lemma EntryBound(e: nat)
    ensures Holds(e) ==> 4096 * (e / 4096) > 0 && 4096 * (e / 4096) % 4096 == 0
  {
  }

  /** Frame by frame, what was given back between two lists of frames. */
  ghost predicate GaveBack(before: seq<nat>, after: seq<nat>, pages: seq<nat>, untyped: bool) {
    forall k: nat {:trigger Places(pages, k, untyped)} ::
      multiset(after)[4096 * k] == multiset(before)[4096 * k] + |Places(pages, k, untyped)|
  }

  lemma ReleaseGivesBack(h: Heap, o: nat)
    requires o < |h.mos|
    ensures
      var g, pages := Release(h, o), h.mos[o].pages;
      GaveBack(h.pmm, g.pmm, pages, false) && GaveBack(h.ut, g.ut, pages, true)
  {
    hide PmmPages, UtPages;
    forall k: nat
      ensures multiset(PmmPages(h.mos[o].pages))[4096 * k] == |Places(h.mos[o].pages, k, false)|
      ensures multiset(UtPages(h.mos[o].pages))[4096 * k] == |Places(h.mos[o].pages, k, true)|
    {
      ReleaseReturns(h.mos[o].pages, k);
    }
  }

  lemma {:induction false} AllReturns(mos: seq<Mo>, gone: seq<nat>, k: nat)
    requires forall i {:trigger gone[i]} :: 0 <= i < |gone| ==> gone[i] < |mos|
    ensures multiset(AllPmm(mos, gone))[4096 * k] == PlacesIn(mos, gone, k, false)
    ensures multiset(AllUt(mos, gone))[4096 * k] == PlacesIn(mos, gone, k, true)
    decreases |gone|
  {
    hide PmmPages, UtPages, Places;
    if gone != [] {
      ReleaseReturns(mos[gone[0]].pages, k);
      AllReturns(mos, gone[1..], k);
    }
  }

  ghost predicate Returns(h: Heap, g: Heap, gone: seq<nat>) {
    && (forall i {:trigger gone[i]} :: 0 <= i < |gone| ==> gone[i] < |h.mos|)
    && (forall k: nat {:trigger PlacesIn(h.mos, gone, k, false)} ::
          multiset(g.pmm)[4096 * k] == multiset(h.pmm)[4096 * k] + PlacesIn(h.mos, gone, k, false))
    && (forall k: nat {:trigger PlacesIn(h.mos, gone, k, true)} ::
          multiset(g.ut)[4096 * k] == multiset(h.ut)[4096 * k] + PlacesIn(h.mos, gone, k, true))
  }

  /** A destroy, with all it cascades to, returns every frame of the destroyed objects to
      where it came from, as often as they held it, and no other frame. */
  lemma DestroyReturns(h: Heap, g: Heap, live: set<nat>, kids: seq<seq<nat>>, o: nat, gone: seq<nat>, r: nat)
    requires Effect(h, g, live, kids, o, gone, r)
    ensures Returns(h, g, gone)
  {
    hide AllPmm, AllUt, PlacesIn;
    forall k: nat
      ensures multiset(AllPmm(h.mos, gone))[4096 * k] == PlacesIn(h.mos, gone, k, false)
      ensures multiset(AllUt(h.mos, gone))[4096 * k] == PlacesIn(h.mos, gone, k, true)
    {
      AllReturns(h.mos, gone, k);
    }
  }
}
