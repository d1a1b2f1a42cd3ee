/** One destroy, step by step: each way it can end has the stated effect. */
module MoSteps {
  import opened MoState
  import opened MoDestroy

  lemma {:induction false} WithoutAt(list: seq<nat>, j: nat)
    requires Distinct(list) && j < |list|
    ensures Without(list, list[j]) == list[..j] + list[j + 1..]
  {
    var rest := list[1..];
    if j == 0 {
      WithoutAbsent(rest, list[0]);
    } else {
      assert rest[j - 1] == list[j];
      WithoutAt(rest, j - 1);
      assert list[..j] == [list[0]] + rest[..j - 1];
      assert rest[j..] == list[j + 1..];
    }
  }

  lemma WithoutAbsent(list: seq<nat>, x: nat)
    requires x !in list
    ensures Without(list, x) == list
  {
    if list != [] { WithoutAbsent(list[1..], x); }
  }

  /** o, the j-th child of p, is about to go. */
  ghost predicate Leaving(h: Heap, rank: seq<nat>, live: set<nat>, kids: seq<seq<nat>>, o: nat, p: nat, j: nat) {
    && Exact(h, rank, live, kids) && o in live && kids[o] == [] && h.mos[o].cowParent != 0
    && p == ParentOf(h, o) && j < |kids[p]| && kids[p][j] == o
  }

  lemma LeavingFacts(h: Heap, rank: seq<nat>, live: set<nat>, kids: seq<seq<nat>>, o: nat, p: nat, j: nat)
    requires Leaving(h, rank, live, kids, o, p, j)
    ensures 0 < o < |h.mos| && 0 < p < |h.mos| == |kids| == |rank| && p in live && p != o
    ensures h.mos[p].refCount >= |kids[p]| > 0 && Distinct(kids[p]) && p !in kids[p]
    ensures forall i {:trigger kids[p][i]} :: 0 <= i < |kids[p]| ==> kids[p][i] < |h.mos|
    ensures Threaded(h.mos, h.mos[p].firstChild, kids[p])
    ensures h.mos[o].cowParent < |h.slots|
  {
    forall i | 0 <= i < |kids[p]| ensures kids[p][i] < |h.mos| { assert kids[p][i] in kids[p]; }
  }

  lemma DetachTouches(h: Heap, o: nat, p: nat, list: seq<nat>, j: nat, x: nat)
    requires o < |h.mos| && p < |h.mos| && j < |list| && h.mos[p].refCount > 0 && x < |h.mos|
    requires forall i {:trigger list[i]} :: 0 <= i < |list| ==> list[i] < |h.mos|
    requires list[j] == o && p != o && p !in list && Distinct(list)
    ensures
      var a, b := h.mos[x], Detach(h, o, p, list, j).mos[x];
      && b.pageCount == a.pageCount && b.cowChild == a.cowChild && b.cowParent == a.cowParent
      && b.pages == (if x == o then [] else a.pages)
      && b.refCount == (if x == p then a.refCount - 1 else a.refCount)
      && b.firstChild == (if x == p && j == 0 then h.mos[o].nextSibling else a.firstChild)
      && b.nextSibling == (if x == o then 0 else if j > 0 && x == list[j - 1] then h.mos[o].nextSibling
        else a.nextSibling)
  {
    assert j > 0 ==> list[j - 1] != o;
  }

  lemma DetachLogs(h: Heap, o: nat, p: nat, list: seq<nat>, j: nat)
    requires o < |h.mos| && p < |h.mos| && j < |list| && h.mos[p].refCount > 0
    requires forall i {:trigger list[i]} :: 0 <= i < |list| ==> list[i] < |h.mos|
    ensures
      var d := Detach(h, o, p, list, j);
      d.slots == h.slots && d.pmm == h.pmm + PmmPages(h.mos[o].pages) && d.ut == h.ut + UtPages(h.mos[o].pages)
  {
  }

  /** p's list without its j-th element. */
  lemma DetachThreadsParent(h: Heap, o: nat, p: nat, list: seq<nat>, j: nat)
    requires o < |h.mos| && p < |h.mos| && j < |list| && h.mos[p].refCount > 0
    requires forall i {:trigger list[i]} :: 0 <= i < |list| ==> list[i] < |h.mos|
    requires list[j] == o && p != o && p !in list && Distinct(list) && Threaded(h.mos, h.mos[p].firstChild, list)
    ensures
      var d := Detach(h, o, p, list, j);
      Threaded(d.mos, d.mos[p].firstChild, list[..j] + list[j + 1..])
  {
    hide Detach;
    var d, rest := Detach(h, o, p, list, j), list[..j] + list[j + 1..];
    DetachTouches(h, o, p, list, j, p);
    assert d.mos[p].firstChild == if rest == [] then 0 else rest[0];
    assert forall i {:trigger rest[i]} :: 0 <= i < |rest| ==> 0 < rest[i] < |d.mos|;
    forall i {:trigger d.mos[rest[i]]} | 0 <= i < |rest|
      ensures d.mos[rest[i]].nextSibling == (if i + 1 < |rest| then rest[i + 1] else 0)
    {
      var k := if i < j then i else i + 1;
      DetachNext(h, o, p, list, j, k);
    }
    assert Threaded(d.mos, d.mos[p].firstChild, rest);
  }

  lemma DetachNext(h: Heap, o: nat, p: nat, list: seq<nat>, j: nat, k: nat)
    requires o < |h.mos| && p < |h.mos| && j < |list| && h.mos[p].refCount > 0
    requires forall i {:trigger list[i]} :: 0 <= i < |list| ==> list[i] < |h.mos|
    requires list[j] == o && p != o && p !in list && Distinct(list) && Threaded(h.mos, h.mos[p].firstChild, list)
    requires k < |list| && k != j
    ensures
      var d := Detach(h, o, p, list, j);
      var n := if k + 1 == j then k + 2 else k + 1;
      d.mos[list[k]].nextSibling == if n < |list| then list[n] else 0
  {
    hide Detach;
    DetachTouches(h, o, p, list, j, list[k]);
    assert list[k] != list[j];
    if j > 0 && k != j - 1 { assert list[k] != list[j - 1]; }
  }

  /** A list that shares nothing with p's is untouched. */
  lemma DetachThreadsOther(h: Heap, o: nat, p: nat, list: seq<nat>, j: nat, q: nat, other: seq<nat>)
    requires o < |h.mos| && p < |h.mos| && j < |list| && h.mos[p].refCount > 0
    requires forall i {:trigger list[i]} :: 0 <= i < |list| ==> list[i] < |h.mos|
    requires list[j] == o && p != o && p !in list && Distinct(list)
    requires q < |h.mos| && q != p && Threaded(h.mos, h.mos[q].firstChild, other)
    requires forall c {:trigger c in other} :: c in other ==> c !in list
    ensures
      var d := Detach(h, o, p, list, j);
      Threaded(d.mos, d.mos[q].firstChild, other)
  {
    hide Detach;
    var d := Detach(h, o, p, list, j);
    DetachTouches(h, o, p, list, j, q);
    forall i | 0 <= i < |other|
      ensures 0 < other[i] < |d.mos| && d.mos[other[i]].nextSibling == (if i + 1 < |other| then other[i + 1] else 0)
    {
      assert other[i] in other;
      DetachTouches(h, o, p, list, j, other[i]);
    }
  }

  ghost function KidsLess(kids: seq<seq<nat>>, p: nat, j: nat): (k: seq<seq<nat>>)
    requires p < |kids| && j < |kids[p]|
    ensures |k| == |kids|
  {
    kids[p := kids[p][..j] + kids[p][j + 1..]]
  }

  lemma DetachRanked(h: Heap, rank: seq<nat>, live: set<nat>, kids: seq<seq<nat>>, o: nat, p: nat, j: nat, d: Heap)
    requires Leaving(h, rank, live, kids, o, p, j) && p < |h.mos| && o < |h.mos| && h.mos[p].refCount > 0
    requires forall i {:trigger kids[p][i]} :: 0 <= i < |kids[p]| ==> kids[p][i] < |h.mos|
    requires d == Detach(h, o, p, kids[p], j)
    ensures Ranked(d, rank, live - {o})
    ensures forall x :: x in live ==> x < |h.mos| && d.mos[x].cowParent == h.mos[x].cowParent < |h.slots|
    ensures forall x :: x in live && h.mos[x].cowParent != 0 ==> ParentOf(d, x) == ParentOf(h, x)
  {
    hide Detach, Threaded;
    LeavingFacts(h, rank, live, kids, o, p, j);
    DetachLogs(h, o, p, kids[p], j);
    forall x | x in live
      ensures x < |h.mos| && d.mos[x].cowParent == h.mos[x].cowParent < |h.slots|
      ensures h.mos[x].cowParent != 0 ==>
        ParentOf(h, x) in live && rank[ParentOf(h, x)] < rank[x] && ParentOf(h, x) != o
    {
      DetachTouches(h, o, p, kids[p], j, x);
      if h.mos[x].cowParent != 0 { assert x in kids[ParentOf(h, x)]; }
    }
  }

  lemma DetachKids(h: Heap, rank: seq<nat>, live: set<nat>, kids: seq<seq<nat>>, o: nat, p: nat, j: nat, d: Heap,
      q: nat)
    requires Leaving(h, rank, live, kids, o, p, j) && p < |h.mos| && o < |h.mos| && h.mos[p].refCount > 0
    requires forall i {:trigger kids[p][i]} :: 0 <= i < |kids[p]| ==> kids[p][i] < |h.mos|
    requires d == Detach(h, o, p, kids[p], j) && q in live && q != o
    ensures
      var list := KidsLess(kids, p, j)[q];
      && q < |h.mos|
      && Threaded(d.mos, d.mos[q].firstChild, list) && Distinct(list) && |list| <= d.mos[q].refCount
      && (forall c {:trigger c in list} :: c in list ==>
            c in live && c != o && h.mos[c].cowParent != 0 && ParentOf(h, c) == q)
  {
    hide Detach, Threaded;
    LeavingFacts(h, rank, live, kids, o, p, j);
    DetachTouches(h, o, p, kids[p], j, q);
    var list := KidsLess(kids, p, j)[q];
    if q == p {
      DetachThreadsParent(h, o, p, kids[p], j);
      forall i | 0 <= i < |list| ensures list[i] != o && list[i] in kids[p] {
        assert list[i] == kids[p][if i < j then i else i + 1];
      }
    } else {
      DetachThreadsOther(h, o, p, kids[p], j, q, kids[q]);
    }
  }

  lemma DetachExact(h: Heap, rank: seq<nat>, live: set<nat>, kids: seq<seq<nat>>, o: nat, p: nat, j: nat, d: Heap)
    requires Leaving(h, rank, live, kids, o, p, j) && p < |h.mos| && o < |h.mos| && h.mos[p].refCount > 0
    requires forall i {:trigger kids[p][i]} :: 0 <= i < |kids[p]| ==> kids[p][i] < |h.mos|
    requires d == Detach(h, o, p, kids[p], j)
    ensures Exact(d, rank, live - {o}, KidsLess(kids, p, j))
  {
    hide Detach, Threaded;
    LeavingFacts(h, rank, live, kids, o, p, j);
    DetachRanked(h, rank, live, kids, o, p, j, d);
    var kids' := KidsLess(kids, p, j);
    forall q | q in live - {o}
      ensures Threaded(d.mos, d.mos[q].firstChild, kids'[q]) && Distinct(kids'[q]) && |kids'[q]| <= d.mos[q].refCount
      ensures forall c {:trigger c in kids'[q]} :: c in kids'[q] ==>
        c in live - {o} && d.mos[c].cowParent != 0 && ParentOf(d, c) == q
    {
      DetachKids(h, rank, live, kids, o, p, j, d, q);
    }
    forall c | c in live - {o} && d.mos[c].cowParent != 0
      ensures c in kids'[ParentOf(d, c)]
    {
      var q := ParentOf(h, c);
      assert c in kids[q];
      if q == p {
        var k :| 0 <= k < |kids[p]| && kids[p][k] == c;
        assert kids'[p][if k < j then k else k - 1] == c;
      }
    }
  }

  lemma AllCons(mos: seq<Mo>, o: nat, rest: seq<nat>)
    requires o < |mos| && forall i {:trigger rest[i]} :: 0 <= i < |rest| ==> rest[i] < |mos|
    ensures AllPmm(mos, [o] + rest) == PmmPages(mos[o].pages) + AllPmm(mos, rest)
    ensures AllUt(mos, [o] + rest) == UtPages(mos[o].pages) + AllUt(mos, rest)
  {
    assert ([o] + rest)[1..] == rest;
  }

  // ---- ending one: the parent stays ---------------------------------------

  lemma FreeOwnThreads(h: Heap, o: nat, slot: nat, head: nat, list: seq<nat>)
    requires o < |h.mos| && slot < |h.slots| && Threaded(h.mos, head, list)
    ensures Threaded(FreeOwn(h, o, slot).mos, head, list)
  {
    var m := FreeOwn(h, o, slot).mos;
    assert forall i {:trigger m[list[i]]} :: 0 <= i < |list| ==> m[list[i]].nextSibling == h.mos[list[i]].nextSibling;
  }

  lemma StopSurvives(h: Heap, rank: seq<nat>, live: set<nat>, kids: seq<seq<nat>>, o: nat, p: nat, j: nat, d: Heap,
      x: nat)
    requires Leaving(h, rank, live, kids, o, p, j) && p < |h.mos| && o < |h.mos| && h.mos[p].refCount > 0
    requires forall i {:trigger kids[p][i]} :: 0 <= i < |kids[p]| ==> kids[p][i] < |h.mos|
    requires d == Detach(h, o, p, kids[p], j) && x in live && x != o && h.mos[o].cowParent < |h.slots|
    ensures x < |h.mos| == |kids| && h.mos[x].cowParent < |h.slots|
    ensures Survives(h, FreeOwn(d, o, h.mos[o].cowParent), kids, [o], 0, x)
  {
    hide Detach, Threaded;
    LeavingFacts(h, rank, live, kids, o, p, j);
    DetachTouches(h, o, p, kids[p], j, x);
    DetachLogs(h, o, p, kids[p], j);
    DetachKids(h, rank, live, kids, o, p, j, d, x);
    FreeOwnThreads(d, o, h.mos[o].cowParent, d.mos[x].firstChild, KidsLess(kids, p, j)[x]);
    WithoutAt(kids[p], j);
    if h.mos[x].cowParent != 0 { assert x in kids[ParentOf(h, x)]; }
  }

  lemma EffectStop(h: Heap, rank: seq<nat>, live: set<nat>, kids: seq<seq<nat>>, o: nat, p: nat, j: nat, d: Heap)
    requires Leaving(h, rank, live, kids, o, p, j) && p < |h.mos| && o < |h.mos| && h.mos[p].refCount >= 2
    requires forall i {:trigger kids[p][i]} :: 0 <= i < |kids[p]| ==> kids[p][i] < |h.mos|
    requires d == Detach(h, o, p, kids[p], j) && h.mos[o].cowParent < |h.slots|
    requires |kids| == |h.mos| && !Collapsible(h, kids, p)
    ensures Effect(h, FreeOwn(d, o, h.mos[o].cowParent), live, kids, o, [o], 0)
  {
    hide Detach, Threaded, Survives;
    LeavingFacts(h, rank, live, kids, o, p, j);
    DetachLogs(h, o, p, kids[p], j);
    var g := FreeOwn(d, o, h.mos[o].cowParent);
    AllCons(h.mos, o, []);
    assert [o] == [o] + [];
    forall x {:trigger x in live} | x in live && x !in [o]
      ensures x < |h.mos| && h.mos[x].cowParent < |h.slots| && Survives(h, g, kids, [o], 0, x)
    {
      StopSurvives(h, rank, live, kids, o, p, j, d, x);
    }
  }

  // ---- ending two: the parent goes with its last reference ----------------

  lemma {:induction false} AllSame(m: seq<Mo>, n: seq<Mo>, gone: seq<nat>)
    requires |m| == |n| && forall i {:trigger gone[i]} :: 0 <= i < |gone| ==>
      gone[i] < |m| && m[gone[i]].pages == n[gone[i]].pages
    ensures AllPmm(m, gone) == AllPmm(n, gone) && AllUt(m, gone) == AllUt(n, gone)
  {
    if gone != [] { AllSame(m, n, gone[1..]); }
  }

  lemma EffectAt(d: Heap, e: Heap, live: set<nat>, kids: seq<seq<nat>>, p: nat, gone: seq<nat>, r: nat)
    requires Effect(d, e, live, kids, p, gone, r)
    ensures |e.mos| == |d.mos| == |kids| && |e.slots| == |d.slots|
    ensures gone != [] && gone[0] == p && Last(gone) in live && Last(gone) < |d.mos|
      && d.mos[Last(gone)].cowParent < |d.slots|
    ensures forall x {:trigger x in live} :: x in live && x !in gone ==>
      x < |d.mos| && d.mos[x].cowParent < |d.slots| && Survives(d, e, kids, gone, r, x)
  {
  }

  lemma CascadeSurvives(h: Heap, rank: seq<nat>, live: set<nat>, kids: seq<seq<nat>>, o: nat, p: nat, j: nat,
                        d: Heap, e: Heap, gone: seq<nat>, r: nat, x: nat)
    requires Leaving(h, rank, live, kids, o, p, j) && p < |h.mos| && o < |h.mos| && h.mos[p].refCount > 0
    requires forall i {:trigger kids[p][i]} :: 0 <= i < |kids[p]| ==> kids[p][i] < |h.mos|
    requires d == Detach(h, o, p, kids[p], j) && h.mos[o].cowParent < |h.slots|
    requires Effect(d, e, live - {o}, KidsLess(kids, p, j), p, gone, r) && x in live && x != o && x !in gone
    ensures x < |h.mos| == |kids| && h.mos[x].cowParent < |h.slots|
    ensures Last(gone) < |h.mos| && h.mos[Last(gone)].cowParent < |h.slots|
    ensures Survives(h, FreeOwn(e, o, h.mos[o].cowParent), kids, [o] + gone, r, x)
  {
    hide Detach, Threaded, Effect, Exact;
    LeavingFacts(h, rank, live, kids, o, p, j);
    NotChildOf(h, rank, live, kids, o, x);
    DetachTouches(h, o, p, kids[p], j, x);
    DetachLogs(h, o, p, kids[p], j);
    var kids' := KidsLess(kids, p, j);
    EffectAt(d, e, live - {o}, kids', p, gone, r);
    var q := Last(gone);
    DetachTouches(h, o, p, kids[p], j, q);
    assert x in live - {o};
    var slot := h.mos[o].cowParent;
    FreeOwnThreads(e, o, slot, e.mos[x].firstChild, KidsAfter(d, kids', gone, r, x));
    assert Last([o] + gone) == q;
    SlotsApart(h, rank, live, kids, o, x, q);
    assert KidsAfter(d, kids', gone, r, x) == KidsAfter(h, kids, [o] + gone, r, x);
  }

  lemma NotChildOf(h: Heap, rank: seq<nat>, live: set<nat>, kids: seq<seq<nat>>, o: nat, x: nat)
    requires Exact(h, rank, live, kids) && o in live && x in live && kids[o] == []
    ensures x < |h.mos| && h.mos[x].cowParent < |h.slots| && (h.mos[x].cowParent != 0 ==> ParentOf(h, x) != o)
  {
    hide Threaded;
    if h.mos[x].cowParent != 0 { assert x in kids[ParentOf(h, x)]; }
  }

  lemma SlotsApart(h: Heap, rank: seq<nat>, live: set<nat>, kids: seq<seq<nat>>, o: nat, x: nat, q: nat)
    requires Exact(h, rank, live, kids) && o in live && x in live && q in live && x != o && q != o
    requires h.mos[o].cowParent != 0
    ensures h.mos[x].cowParent != h.mos[o].cowParent && h.mos[q].cowParent != h.mos[o].cowParent
  {
  }

  /** Nothing but o and p looks different from above. */
  ghost predicate SameAbove(h: Heap, d: Heap, kids: seq<seq<nat>>, kids': seq<seq<nat>>, o: nat, p: nat) {
    && |d.mos| == |h.mos| == |kids| == |kids'| && d.slots == h.slots
    && (forall x {:trigger d.mos[x]} :: 0 <= x < |h.mos| ==>
          d.mos[x].cowParent == h.mos[x].cowParent && d.mos[x].cowChild == h.mos[x].cowChild)
    && (forall x {:trigger d.mos[x]} :: 0 <= x < |h.mos| && x != o ==> d.mos[x].pages == h.mos[x].pages)
    && (forall x {:trigger d.mos[x]} :: 0 <= x < |h.mos| && x != p ==> d.mos[x].refCount == h.mos[x].refCount)
    && (forall x {:trigger kids'[x]} :: 0 <= x < |kids| && x != p ==> kids'[x] == kids[x])
  }

  lemma DetachSameAbove(h: Heap, o: nat, p: nat, kids: seq<seq<nat>>, j: nat, d: Heap)
    requires o < |h.mos| == |kids| && p < |h.mos| && j < |kids[p]| && h.mos[p].refCount > 0
    requires forall i {:trigger kids[p][i]} :: 0 <= i < |kids[p]| ==> kids[p][i] < |h.mos|
    requires kids[p][j] == o && p != o && p !in kids[p] && Distinct(kids[p]) && d == Detach(h, o, p, kids[p], j)
    ensures SameAbove(h, d, kids, KidsLess(kids, p, j), o, p)
  {
    hide Detach;
    DetachLogs(h, o, p, kids[p], j);
    forall x {:trigger d.mos[x]} | 0 <= x < |h.mos|
      ensures d.mos[x].cowParent == h.mos[x].cowParent && d.mos[x].cowChild == h.mos[x].cowChild
      ensures x != o ==> d.mos[x].pages == h.mos[x].pages
      ensures x != p ==> d.mos[x].refCount == h.mos[x].refCount
    {
      DetachTouches(h, o, p, kids[p], j, x);
    }
  }

  lemma ChainExtends(h: Heap, d: Heap, live: set<nat>, kids: seq<seq<nat>>, kids': seq<seq<nat>>, o: nat, p: nat,
      gone: seq<nat>)
    requires SameAbove(h, d, kids, kids', o, p) && ChainUp(d, live - {o}, p, gone)
    requires o in live && o < |h.mos| && 0 < h.mos[o].cowParent < |h.slots| && ParentOf(h, o) == p
    ensures ChainUp(h, live, o, [o] + gone)
  {
    var all := [o] + gone;
    assert forall i {:trigger all[i]} :: 0 < i < |all| ==> all[i] == gone[i - 1] && gone[i - 1] in live - {o};
    assert Last(all) == Last(gone) && d.mos[Last(gone)].cowParent == h.mos[Last(gone)].cowParent;
    forall i | 0 <= i < |all| - 1
      ensures ParentLink(h, all, i)
    {
      if i > 0 { assert ParentLink(d, gone, i - 1) && d.mos[gone[i - 1]].cowParent == h.mos[gone[i - 1]].cowParent; }
    }
    forall i, k | 0 <= i < k < |all| ensures all[i] != all[k] {
      assert all[k] == gone[k - 1];
    }
    assert all[0] == o && ChainUp(h, live, o, all);
  }

  lemma ReasonsExtend(h: Heap, d: Heap, live: set<nat>, kids: seq<seq<nat>>, kids': seq<seq<nat>>,
                      o: nat, p: nat, gone: seq<nat>, r: nat)
    requires SameAbove(h, d, kids, kids', o, p) && ChainUp(d, live - {o}, p, gone)
      && Reasons(d, live - {o}, kids', p, gone, r)
    requires o in live && o < |h.mos| && p < |h.mos| && h.mos[p].refCount == 1 && ChainUp(h, live, o, [o] + gone)
    ensures Reasons(h, live, kids, o, [o] + gone, r)
  {
    hide NoPages, Collapses, Stops, LastReferences;
    var all, q := [o] + gone, Last(gone);
    assert Last(all) == q;
    CountsExtend(h, d, live, kids, kids', o, p, gone, r);
    if r != 0 {
      CollapseExtends(h, d, live, kids, kids', o, p, gone, r);
    } else if h.mos[q].cowParent != 0 {
      StopExtends(h, d, live, kids, kids', o, p, gone);
    }
  }

  lemma CountsExtend(h: Heap, d: Heap, live: set<nat>, kids: seq<seq<nat>>, kids': seq<seq<nat>>,
                     o: nat, p: nat, gone: seq<nat>, r: nat)
    requires SameAbove(h, d, kids, kids', o, p) && ChainUp(d, live - {o}, p, gone) && LastReferences(d, gone, r)
    requires o < |h.mos| && p < |h.mos| && h.mos[p].refCount == 1
    ensures forall i {:trigger ([o] + gone)[i]} :: 0 <= i < |[o] + gone| ==> ([o] + gone)[i] < |h.mos|
    ensures LastReferences(h, [o] + gone, r)
  {
    var all := [o] + gone;
    forall i {:trigger all[i]} | 0 < i < |all|
      ensures all[i] < |h.mos|
      ensures i < |all| - 1 || r == 0 ==> h.mos[all[i]].refCount == 1
    {
      assert all[i] == gone[i - 1];
      if i > 1 { assert gone[i - 1] != gone[0]; }
    }
  }

  lemma CollapseExtends(h: Heap, d: Heap, live: set<nat>, kids: seq<seq<nat>>, kids': seq<seq<nat>>,
                        o: nat, p: nat, gone: seq<nat>, r: nat)
    requires SameAbove(h, d, kids, kids', o, p) && ChainUp(d, live - {o}, p, gone)
      && Collapses(d, live - {o}, kids', gone, r)
    requires p < |h.mos| && ChainUp(h, live, o, [o] + gone)
    ensures Collapses(h, live, kids, [o] + gone, r)
  {
    hide NoPages;
    assert Last([o] + gone) == Last(gone) != gone[0];
    assert d.mos[Last(gone)].pages == h.mos[Last(gone)].pages;
  }

  lemma StopExtends(h: Heap, d: Heap, live: set<nat>, kids: seq<seq<nat>>, kids': seq<seq<nat>>, o: nat, p: nat,
      gone: seq<nat>)
    requires SameAbove(h, d, kids, kids', o, p) && ChainUp(d, live - {o}, p, gone) && Stops(d, live - {o}, kids', gone)
    requires p < |h.mos| && ChainUp(h, live, o, [o] + gone)
    ensures Stops(h, live, kids, [o] + gone)
  {
    hide NoPages;
    assert Last([o] + gone) == Last(gone);
    var top := ParentOf(d, Last(gone));
    assert top != gone[0] && kids'[top] == kids[top];
  }

  lemma EffectCascade(h: Heap, rank: seq<nat>, live: set<nat>, kids: seq<seq<nat>>, o: nat, p: nat, j: nat,
                      d: Heap, e: Heap, gone: seq<nat>, r: nat)
    requires Leaving(h, rank, live, kids, o, p, j) && p < |h.mos| && o < |h.mos| && h.mos[p].refCount == 1
    requires forall i {:trigger kids[p][i]} :: 0 <= i < |kids[p]| ==> kids[p][i] < |h.mos|
    requires d == Detach(h, o, p, kids[p], j) && h.mos[o].cowParent < |h.slots|
    requires Effect(d, e, live - {o}, KidsLess(kids, p, j), p, gone, r)
    ensures Effect(h, FreeOwn(e, o, h.mos[o].cowParent), live, kids, o, [o] + gone, r)
  {
    hide Detach, Survives, Reasons, ChainUp, Exact, Effect;
    LeavingFacts(h, rank, live, kids, o, p, j);
    DetachLogs(h, o, p, kids[p], j);
    DetachSameAbove(h, o, p, kids, j, d);
    var kids' := KidsLess(kids, p, j);
    EffectParts(d, e, live - {o}, kids', p, gone, r);
    ChainExtends(h, d, live, kids, kids', o, p, gone);
    ReasonsExtend(h, d, live, kids, kids', o, p, gone, r);
    CascadeLogs(h, d, live, kids, kids', o, p, gone);
    CascadeAll(h, rank, live, kids, o, p, j, d, e, gone, r);
    hide SameAbove;
    EffectHolds(h, FreeOwn(e, o, h.mos[o].cowParent), live, kids, o, [o] + gone, r);
  }

  lemma CascadeAll(h: Heap, rank: seq<nat>, live: set<nat>, kids: seq<seq<nat>>, o: nat, p: nat, j: nat,
                   d: Heap, e: Heap, gone: seq<nat>, r: nat)
    requires Leaving(h, rank, live, kids, o, p, j) && p < |h.mos| && o < |h.mos| && h.mos[p].refCount > 0
    requires forall i {:trigger kids[p][i]} :: 0 <= i < |kids[p]| ==> kids[p][i] < |h.mos|
    requires d == Detach(h, o, p, kids[p], j) && h.mos[o].cowParent < |h.slots|
    requires Effect(d, e, live - {o}, KidsLess(kids, p, j), p, gone, r)
    ensures |kids| == |h.mos| && Last(gone) < |h.mos| && h.mos[Last(gone)].cowParent < |h.slots|
    ensures forall x {:trigger x in live} :: x in live && x !in [o] + gone ==>
      x < |h.mos| && h.mos[x].cowParent < |h.slots|
      && Survives(h, FreeOwn(e, o, h.mos[o].cowParent), kids, [o] + gone, r, x)
  {
    hide Detach, Survives, Exact, Effect, Threaded;
    LeavingFacts(h, rank, live, kids, o, p, j);
    EffectAt(d, e, live - {o}, KidsLess(kids, p, j), p, gone, r);
    DetachLogs(h, o, p, kids[p], j);
    DetachTouches(h, o, p, kids[p], j, Last(gone));
    forall x {:trigger x in live} | x in live && x !in [o] + gone
      ensures x < |h.mos| && h.mos[x].cowParent < |h.slots|
      ensures Survives(h, FreeOwn(e, o, h.mos[o].cowParent), kids, [o] + gone, r, x)
    {
      assert x != o && x !in gone;
      CascadeSurvives(h, rank, live, kids, o, p, j, d, e, gone, r, x);
    }
  }

  lemma EffectParts(h: Heap, g: Heap, live: set<nat>, kids: seq<seq<nat>>, o: nat, gone: seq<nat>, r: nat)
    requires Effect(h, g, live, kids, o, gone, r)
    ensures |g.mos| == |h.mos| == |kids| && |g.slots| == |h.slots| && ChainUp(h, live, o, gone)
      && Reasons(h, live, kids, o, gone, r)
    ensures g.pmm == h.pmm + AllPmm(h.mos, gone) && g.ut == h.ut + AllUt(h.mos, gone)
  {
  }

  lemma EffectHolds(h: Heap, g: Heap, live: set<nat>, kids: seq<seq<nat>>, o: nat, gone: seq<nat>, r: nat)
    requires |g.mos| == |h.mos| == |kids| && |g.slots| == |h.slots| && ChainUp(h, live, o, gone)
      && Reasons(h, live, kids, o, gone, r)
    requires g.pmm == h.pmm + AllPmm(h.mos, gone) && g.ut == h.ut + AllUt(h.mos, gone)
    requires forall x {:trigger x in live} :: x in live && x !in gone ==>
      x < |h.mos| && h.mos[x].cowParent < |h.slots| && Survives(h, g, kids, gone, r, x)
    ensures Effect(h, g, live, kids, o, gone, r)
  {
  }

  lemma CascadeLogs(h: Heap, d: Heap, live: set<nat>, kids: seq<seq<nat>>, kids': seq<seq<nat>>, o: nat, p: nat,
      gone: seq<nat>)
    requires SameAbove(h, d, kids, kids', o, p) && ChainUp(d, live - {o}, p, gone) && ChainUp(h, live, o, [o] + gone)
    requires o < |h.mos|
    ensures forall i {:trigger gone[i]} :: 0 <= i < |gone| ==> gone[i] < |h.mos|
    ensures forall i {:trigger ([o] + gone)[i]} :: 0 <= i < |[o] + gone| ==> ([o] + gone)[i] < |h.mos|
    ensures AllPmm(h.mos, [o] + gone) == PmmPages(h.mos[o].pages) + AllPmm(d.mos, gone)
    ensures AllUt(h.mos, [o] + gone) == UtPages(h.mos[o].pages) + AllUt(d.mos, gone)
  {
    hide PmmPages, UtPages;
    assert forall i {:trigger gone[i]} :: 0 <= i < |gone| ==>
      gone[i] in live - {o} && d.mos[gone[i]].pages == h.mos[gone[i]].pages;
    AllCons(h.mos, o, gone);
    AllSame(h.mos, d.mos, gone);
  }

  // ---- ending three: the emptied parent is collapsed ----------------------

  lemma CollapseTouches(d: Heap, p: nat, r: nat, gp: nat, x: nat)
    requires p < |d.mos| && r < |d.mos| && gp < |d.mos| && x < |d.mos| && d.mos[r].cowParent < |d.slots|
    requires p != r && gp != r && gp != p
    ensures
      var a, b := d.mos[x], Collapse(d, p, r, gp).mos[x];
      && b.pageCount == a.pageCount && b.cowChild == a.cowChild && b.refCount == a.refCount
      && b.pages == (if x == p then [] else a.pages)
      && b.cowParent == (if x == r then d.mos[p].cowParent else if x == p then 0 else a.cowParent)
      && b.firstChild == (if x == gp then r else if x == p then 0 else a.firstChild)
      && b.nextSibling == (if x == r then d.mos[gp].firstChild else a.nextSibling)
  {
  }

  lemma CollapseLogs(d: Heap, p: nat, r: nat, gp: nat)
    requires p < |d.mos| && r < |d.mos| && gp < |d.mos| && d.mos[r].cowParent < |d.slots|
    requires p != r && gp != p && NoPages(d.mos[p].pages)
    ensures
      var c := Collapse(d, p, r, gp);
      c.slots == d.slots[d.mos[r].cowParent := 0] && c.pmm == d.pmm && c.ut == d.ut
  {
    NoPagesReleasesNone(d.mos[p].pages);
  }

  lemma CollapseThreadsNew(d: Heap, p: nat, r: nat, gp: nat, list: seq<nat>)
    requires p < |d.mos| && 0 < r < |d.mos| && gp < |d.mos| && d.mos[r].cowParent < |d.slots|
    requires p != r && gp != r && gp != p && r !in list && Threaded(d.mos, d.mos[gp].firstChild, list)
    ensures
      var c := Collapse(d, p, r, gp);
      Threaded(c.mos, c.mos[gp].firstChild, [r] + list)
  {
    hide Collapse;
    var c, all := Collapse(d, p, r, gp), [r] + list;
    CollapseTouches(d, p, r, gp, gp);
    CollapseTouches(d, p, r, gp, r);
    assert forall i {:trigger all[i]} :: 0 <= i < |all| ==> 0 < all[i] < |c.mos|;
    forall i {:trigger c.mos[all[i]]} | 0 <= i < |all|
      ensures c.mos[all[i]].nextSibling == (if i + 1 < |all| then all[i + 1] else 0)
    {
      if i > 0 {
        assert all[i] == list[i - 1] && list[i - 1] in list;
        CollapseTouches(d, p, r, gp, list[i - 1]);
      }
    }
    assert Threaded(c.mos, c.mos[gp].firstChild, all);
  }

  lemma CollapseThreadsOther(d: Heap, p: nat, r: nat, gp: nat, q: nat, list: seq<nat>)
    requires p < |d.mos| && r < |d.mos| && gp < |d.mos| && q < |d.mos| && d.mos[r].cowParent < |d.slots|
    requires p != r && gp != r && gp != p && q != gp && q != p && r !in list
    requires Threaded(d.mos, d.mos[q].firstChild, list)
    ensures
      var c := Collapse(d, p, r, gp);
      Threaded(c.mos, c.mos[q].firstChild, list)
  {
    hide Collapse;
    var c := Collapse(d, p, r, gp);
    CollapseTouches(d, p, r, gp, q);
    forall i {:trigger c.mos[list[i]]} | 0 <= i < |list|
      ensures c.mos[list[i]].nextSibling == (if i + 1 < |list| then list[i + 1] else 0)
    {
      assert list[i] in list;
      CollapseTouches(d, p, r, gp, list[i]);
    }
  }

  /** d is about to collapse p, whose only child is r, into gp; o has just left. */
  ghost predicate Collapsing(h: Heap, rank: seq<nat>, live: set<nat>, kids: seq<seq<nat>>, o: nat, p: nat, j: nat,
                             d: Heap, r: nat, gp: nat) {
    && Leaving(h, rank, live, kids, o, p, j)
    && p < |h.mos| == |kids| && o < |h.mos| && h.mos[p].refCount > 0
    && (forall i {:trigger kids[p][i]} :: 0 <= i < |kids[p]| ==> kids[p][i] < |h.mos|)
    && d == Detach(h, o, p, kids[p], j) && h.mos[o].cowParent < |h.slots|
    && Collapsible(h, kids, p) && r == d.mos[p].firstChild
    && h.mos[p].cowParent < |h.slots| && gp == ParentOf(h, p)
  }

  lemma CollapsingFacts(h: Heap, rank: seq<nat>, live: set<nat>, kids: seq<seq<nat>>, o: nat, p: nat, j: nat,
                        d: Heap, r: nat, gp: nat)
    requires Collapsing(h, rank, live, kids, o, p, j, d, r, gp)
    ensures 0 < r < |h.mos| && 0 < gp < |h.mos| && r in live && gp in live && p in live && o in live
    ensures o != p && r != o && r != p && gp != p && gp != r && gp != o
    ensures KidsLess(kids, p, j)[p] == [r] && r in kids[p] && h.mos[r].cowParent < |h.slots| && ParentOf(h, r) == p
    ensures h.mos[r].cowParent != 0 && h.mos[p].cowParent != 0 && NoPages(h.mos[p].pages)
    ensures |d.mos| == |h.mos| == |kids| && |d.slots| == |h.slots| && SameAbove(h, d, kids, KidsLess(kids, p, j), o, p)
  {
    hide Detach, NoPages;
    LeavingFacts(h, rank, live, kids, o, p, j);
    DetachSameAbove(h, o, p, kids, j, d);
    DetachKids(h, rank, live, kids, o, p, j, d, p);
    DetachTouches(h, o, p, kids[p], j, p);
    var list := KidsLess(kids, p, j)[p];
    assert |list| == 1 && list[0] == r && r in list;
    assert r in kids[p];
  }

  lemma OnlyRemaining(h: Heap, rank: seq<nat>, live: set<nat>, kids: seq<seq<nat>>, o: nat, p: nat, j: nat,
                      d: Heap, r: nat, gp: nat, x: nat)
    requires Collapsing(h, rank, live, kids, o, p, j, d, r, gp) && x in live && x != o
    ensures x < |h.mos| && h.mos[x].cowParent < |h.slots|
    ensures x != r && h.mos[x].cowParent != 0 ==> ParentOf(h, x) != o && ParentOf(h, x) != p
  {
    hide Detach, NoPages, SameAbove, Threaded;
    CollapsingFacts(h, rank, live, kids, o, p, j, d, r, gp);
    if h.mos[x].cowParent != 0 && ParentOf(h, x) == p {
      assert x in kids[p];
      var k :| 0 <= k < |kids[p]| && kids[p][k] == x;
      var list := kids[p][..j] + kids[p][j + 1..];
      assert list == [r];
      assert list[if k < j then k else k - 1] == x;
    }
  }

  lemma CollapseSlots(h: Heap, rank: seq<nat>, live: set<nat>, kids: seq<seq<nat>>, o: nat, p: nat, j: nat,
                      d: Heap, r: nat, gp: nat, x: nat)
    requires Collapsing(h, rank, live, kids, o, p, j, d, r, gp) && x in live && x != o && x != p
    ensures x < |h.mos| && r < |h.mos|
    ensures
      var slot := if x == r then h.mos[p].cowParent else h.mos[x].cowParent;
      slot != h.mos[r].cowParent && slot != h.mos[o].cowParent
  {
    hide Detach, NoPages, SameAbove, Threaded;
    CollapsingFacts(h, rank, live, kids, o, p, j, d, r, gp);
  }

  lemma CollapseKids(h: Heap, rank: seq<nat>, live: set<nat>, kids: seq<seq<nat>>, o: nat, p: nat, j: nat,
                     d: Heap, r: nat, gp: nat, x: nat)
    requires Collapsing(h, rank, live, kids, o, p, j, d, r, gp) && x in live && x != o && x != p
    requires 0 < r < |h.mos| && gp < |h.mos| && |d.mos| == |h.mos| && |d.slots| == |h.slots|
      && d.mos[r].cowParent < |d.slots|
    ensures x < |h.mos|
    ensures
      var c := Collapse(d, p, r, gp);
      Threaded(c.mos, c.mos[x].firstChild, KidsAfter(h, kids, [o, p], r, x))
  {
    hide Detach, Collapse, Threaded, NoPages, SameAbove;
    CollapsingFacts(h, rank, live, kids, o, p, j, d, r, gp);
    DetachKids(h, rank, live, kids, o, p, j, d, x);
    assert KidsLess(kids, p, j)[x] == kids[x];
    assert r !in kids[x];
    if x == gp {
      CollapseThreadsNew(d, p, r, gp, kids[x]);
    } else {
      CollapseThreadsOther(d, p, r, gp, x, kids[x]);
    }
  }

  lemma CollapseSurvives(h: Heap, rank: seq<nat>, live: set<nat>, kids: seq<seq<nat>>, o: nat, p: nat, j: nat,
                         d: Heap, r: nat, gp: nat, x: nat)
    requires Collapsing(h, rank, live, kids, o, p, j, d, r, gp) && x in live && x != o && x != p
    requires 0 < r < |h.mos| && gp < |h.mos| && |d.mos| == |h.mos| && |d.slots| == |h.slots|
      && d.mos[r].cowParent < |d.slots|
    ensures x < |h.mos| == |kids| && h.mos[x].cowParent < |h.slots|
    ensures Survives(h, FreeOwn(Collapse(d, p, r, gp), o, h.mos[o].cowParent), kids, [o, p], r, x)
  {
    hide Detach, Collapse, Threaded, NoPages, SameAbove;
    CollapsingFacts(h, rank, live, kids, o, p, j, d, r, gp);
    DetachTouches(h, o, p, kids[p], j, x);
    CollapseTouches(d, p, r, gp, x);
    CollapseKids(h, rank, live, kids, o, p, j, d, r, gp, x);
    CollapseSlots(h, rank, live, kids, o, p, j, d, r, gp, x);
    OnlyRemaining(h, rank, live, kids, o, p, j, d, r, gp, x);
    DetachLogs(h, o, p, kids[p], j);
    DetachTouches(h, o, p, kids[p], j, p);
    DetachTouches(h, o, p, kids[p], j, r);
    CollapseLogs(d, p, r, gp);
    var c := Collapse(d, p, r, gp);
    FreeOwnThreads(c, o, h.mos[o].cowParent, c.mos[x].firstChild, KidsAfter(h, kids, [o, p], r, x));
  }

  lemma EffectCollapse(h: Heap, rank: seq<nat>, live: set<nat>, kids: seq<seq<nat>>, o: nat, p: nat, j: nat,
                       d: Heap, r: nat, gp: nat)
    requires Collapsing(h, rank, live, kids, o, p, j, d, r, gp)
    ensures r < |d.mos| && gp < |d.mos| && d.mos[r].cowParent < |d.slots|
    ensures Effect(h, FreeOwn(Collapse(d, p, r, gp), o, h.mos[o].cowParent), live, kids, o, [o, p], r)
  {
    hide Detach, Collapse, NoPages, Survives, PmmPages, UtPages, ChainUp, Reasons, Effect, Exact;
    CollapsingFacts(h, rank, live, kids, o, p, j, d, r, gp);
    DetachLogs(h, o, p, kids[p], j);
    CollapseLogs(d, p, r, gp);
    NoPagesReleasesNone(h.mos[p].pages);
    AllCons(h.mos, o, [p]);
    AllCons(h.mos, p, []);
    assert [o] + [p] == [o, p] && [p] + [] == [p];
    CollapseReasons(h, rank, live, kids, o, p, j, d, r, gp);
    var g := FreeOwn(Collapse(d, p, r, gp), o, h.mos[o].cowParent);
    forall x {:trigger x in live} | x in live && x !in [o, p]
      ensures x < |h.mos| && h.mos[x].cowParent < |h.slots| && Survives(h, g, kids, [o, p], r, x)
    {
      CollapseSurvives(h, rank, live, kids, o, p, j, d, r, gp, x);
    }
    EffectHolds(h, g, live, kids, o, [o, p], r);
  }

  lemma CollapseReasons(h: Heap, rank: seq<nat>, live: set<nat>, kids: seq<seq<nat>>, o: nat, p: nat, j: nat,
                        d: Heap, r: nat, gp: nat)
    requires Collapsing(h, rank, live, kids, o, p, j, d, r, gp)
    ensures ChainUp(h, live, o, [o, p]) && |kids| == |h.mos| && Reasons(h, live, kids, o, [o, p], r)
  {
    hide Detach, NoPages, SameAbove, Exact, Stops;
    CollapsingFacts(h, rank, live, kids, o, p, j, d, r, gp);
  }
}
