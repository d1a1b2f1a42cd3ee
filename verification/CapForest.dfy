/** The derivation forest: what makes it well formed, that every primitive
    transition keeps it so, and revocation with its exact effect. */
module CapForest {
  import opened CapState

  // ---- well-formedness ----------------------------------------------------

  /** Parent pointers and child sequences describe the same acyclic forest of
      occupied slots. */
  ghost predicate Tree(s: State) {
    && s.Shape()
    && (forall x :: 0 <= x < s.N() && s.parent[x] != NONE ==>
          && s.occ[x] && s.parent[x] < s.N() && s.occ[s.parent[x]]
          && s.rank[s.parent[x]] < s.rank[x] && x in s.kids[s.parent[x]])
    && (forall p, c {:trigger c in s.kids[p]} :: 0 <= p < s.N() && c in s.kids[p] ==> c < s.N() && s.parent[c] == p)
    && (forall p {:trigger Distinct(s.kids[p])} :: 0 <= p < s.N() ==> Distinct(s.kids[p]))
  }

  /** Each untyped list holds derivation children of its own slot, and exactly
      those that point back to it. */
  ghost predicate UtLists(s: State) {
    && s.Shape()
    && (forall x :: 0 <= x < s.N() && s.utParent[x] != NONE ==>
          && s.utParent[x] == s.parent[x] < s.N() && x in s.ut[s.utParent[x]])
    && (forall u, c {:trigger c in s.ut[u]} :: 0 <= u < s.N() && c in s.ut[u] ==> c < s.N() && s.utParent[c] == u)
    && (forall u {:trigger Distinct(s.ut[u])} :: 0 <= u < s.N() ==> Distinct(s.ut[u]))
  }

  ghost predicate FreeSlotsEmpty(s: State) {
    && s.Shape()
    && forall x :: 0 <= x < s.N() && !s.occ[x] ==> s.cap[x] == NULL_CAP
  }

  ghost predicate Forest(s: State) {
    Tree(s) && UtLists(s) && FreeSlotsEmpty(s)
  }

  lemma FirstIsMember(q: seq<nat>)
    ensures |q| > 0 ==> q[0] in q
  {
  }

  lemma FreeSlotIsIsolated(s: State, x: nat)
    requires Forest(s) && x < s.N() && !s.occ[x]
    ensures s.parent[x] == NONE && s.kids[x] == [] && s.utParent[x] == NONE && s.ut[x] == []
    ensures forall p :: 0 <= p < s.N() ==> x !in s.kids[p] && x !in s.ut[p]
  {
    FirstIsMember(s.kids[x]);
    FirstIsMember(s.ut[x]);
  }

  // ---- primitive transitions keep the forest ------------------------------

  lemma AllocForest(s: State, x: nat)
    requires Forest(s) && x < s.N() && !s.occ[x]
    ensures Forest(Alloc(s, x))
  {
    FreeSlotIsIsolated(s, x);
  }

  lemma FreeForest(s: State, x: nat)
    requires Tree(s) && UtLists(s) && x < s.N()
    requires forall y :: 0 <= y < s.N() && !s.occ[y] ==> s.cap[y] == NULL_CAP
    requires s.parent[x] == NONE && s.kids[x] == [] && s.utParent[x] == NONE
    requires s.cap[x] == NULL_CAP
    ensures Forest(Free(s, x))
  {
    FirstIsMember(s.ut[x]);
  }

  lemma InsertChildForest(s: State, p: nat, c: nat)
    requires Forest(s) && s.Live(p) && s.Live(c) && p != c
    requires s.parent[c] == NONE && s.kids[c] == []
    ensures Forest(InsertChild(s, p, c))
  {
    assert c !in s.kids[p];
    var t := InsertChild(s, p, c);
    assert forall y :: y in t.kids[p] <==> y == c || y in s.kids[p];
    assert Distinct(s.kids[p]);
    assert Distinct(t.kids[p]);
  }

  lemma AddUtChildForest(s: State, u: nat, c: nat)
    requires Forest(s) && s.Live(c) && s.parent[c] == u < s.N() && s.utParent[c] == NONE
    ensures Forest(AddUtChild(s, u, c))
  {
    assert c !in s.ut[u];
    var t := AddUtChild(s, u, c);
    assert forall y :: y in t.ut[u] <==> y == c || y in s.ut[u];
    assert Distinct(s.ut[u]);
    assert Distinct(t.ut[u]);
  }

  lemma UnlinkTree(s: State, x: nat)
    requires Tree(s) && s.Live(x) && s.kids[x] == []
    ensures Tree(Unlink(s, x))
  {
    var p := s.parent[x];
    if p != NONE {
      assert Distinct(s.kids[p]);
      WithoutDistinct(s.kids[p], x);
      assert Distinct(Unlink(s, x).kids[p]);
    }
  }

  /** Leaf x after leaving both lists. */
  function Detach(s: State, x: nat): State
    requires s.Shape() && x < s.N()
  {
    var u := s.utParent[x];
    if u < s.N() then RemoveUtChild(Unlink(s, x), u, x) else Unlink(s, x)
  }

  lemma DetachForest(s: State, x: nat)
    requires Forest(s) && s.Live(x) && s.kids[x] == []
    ensures Forest(Detach(s, x))
    ensures Detach(s, x).utParent[x] == NONE
  {
    UnlinkTree(s, x);
    FirstIsMember(s.ut[x]);
    var u, t := s.utParent[x], Detach(s, x);
    if u != NONE {
      assert x in s.ut[u];
      assert Distinct(s.ut[u]);
      WithoutDistinct(s.ut[u], x);
      assert Distinct(t.ut[u]);
    }
    assert Tree(t);
  }

  lemma DetachFrame(s: State, x: nat)
    requires s.Shape() && x < s.N() && s.kids[x] == []
    ensures Detach(s, x).Shape() && Detach(s, x).cap == s.cap && Detach(s, x).occ == s.occ
    ensures Detach(s, x).parent[x] == NONE && Detach(s, x).kids[x] == []
  {
  }

  lemma DeleteLeafForest(s: State, x: nat)
    requires Forest(s) && s.Live(x) && s.kids[x] == []
    ensures Forest(DeleteLeaf(s, x))
  {
    hide Unlink, RemoveUtChild, Release, Without;
    DetachForest(s, x);
    var t := Detach(s, x);
    DetachFrame(s, x);
    var r := SetCap(Release(t, s.cap[x].obj, s.cap[x].kind), x, NULL_CAP);
    assert Tree(r) && UtLists(r);
    FreeForest(r, x);
  }

  // ---- descent and revocation ---------------------------------------------

  /** x lies in the derivation subtree of a (a itself included). */
  ghost predicate Under(s: State, a: nat, x: nat)
    requires Tree(s) && x < s.N()
    decreases s.rank[x]
  {
    x == a || (s.parent[x] != NONE && Under(s, a, s.parent[x]))
  }

  ghost function Subtree(s: State, a: nat): set<nat>
    requires Tree(s)
  {
    set x | 0 <= x < s.N() && s.occ[x] && Under(s, a, x)
  }

  lemma {:induction false} UnderTrans(s: State, a: nat, b: nat, x: nat)
    requires Tree(s) && b < s.N() && x < s.N() && Under(s, a, b) && Under(s, b, x)
    ensures Under(s, a, x)
    decreases s.rank[x]
  {
    if x != b { UnderTrans(s, a, b, s.parent[x]); }
  }

  lemma {:induction false} UnderRank(s: State, a: nat, x: nat)
    requires Tree(s) && a < s.N() && x < s.N() && Under(s, a, x)
    ensures x == a || s.rank[a] < s.rank[x]
    decreases s.rank[x]
  {
    if x != a { UnderRank(s, a, s.parent[x]); }
  }

  lemma {:induction false} OnlySelfUnderLeaf(s: State, a: nat, x: nat)
    requires Tree(s) && a < s.N() && s.kids[a] == [] && x < s.N() && Under(s, a, x)
    ensures x == a
    decreases s.rank[x]
  {
    if x != a { OnlySelfUnderLeaf(s, a, s.parent[x]); }
  }

  /** r is s with the subtree of x freed and nothing else changed, except that x
      left the two lists it was on. */
  ghost predicate Revoked(s: State, x: nat, r: State)
    requires Forest(s)
  {
    && Forest(r) && r.N() == s.N() && r.rank == s.rank && r.layout == s.layout
    && r.regions == s.regions && r.held == s.held
    && (forall y :: 0 <= y < s.N() ==> (r.occ[y] <==> s.occ[y] && !Under(s, x, y)))
    && (forall y :: 0 <= y < s.N() && !Under(s, x, y) ==> SameSlot(s, x, r, y))
  }

  ghost predicate SameSlot(s: State, x: nat, r: State, y: nat)
    requires s.Shape() && r.Shape() && y < s.N() == r.N()
  {
    && r.cap[y] == s.cap[y] && r.parent[y] == s.parent[y] && r.utParent[y] == s.utParent[y]
    && r.kids[y] == Without(s.kids[y], x) && r.ut[y] == Without(s.ut[y], x)
    && r.origin[y] == s.origin[y] && r.home[y] == s.home[y] && r.span[y] == s.span[y]
  }

  lemma DeleteLeafKeepsOthers(s: State, x: nat, r: State, y: nat)
    requires s.Shape() && x < s.N() && y < s.N() && x != y && r == DeleteLeaf(s, x)
    requires forall p {:trigger s.kids[p]} :: 0 <= p < s.N() && p != s.parent[x] ==> x !in s.kids[p]
    requires forall p {:trigger s.ut[p]} :: 0 <= p < s.N() && p != s.utParent[x] ==> x !in s.ut[p]
    ensures r.Shape() && r.N() == s.N() && SameSlot(s, x, r, y) && r.occ[y] == s.occ[y]
  {
    hide Without, Unlink, RemoveUtChild, Release;
    UnlinkList(s, x, y);
    RemoveUtList(Unlink(s, x), s.utParent[x], x, y);
  }

  lemma UnlinkList(s: State, x: nat, y: nat)
    requires s.Shape() && x < s.N() && y < s.N() && x != y && (y != s.parent[x] ==> x !in s.kids[y])
    ensures
      var r := Unlink(s, x);
      r.kids[y] == Without(s.kids[y], x) && r.parent[y] == s.parent[y] && r.ut == s.ut && r.utParent == s.utParent
  {
  }

  lemma RemoveUtList(s: State, u: nat, x: nat, y: nat)
    requires s.Shape() && x < s.N() && y < s.N() && x != y && (y != u ==> x !in s.ut[y])
    ensures
      var r := if u < s.N() then RemoveUtChild(s, u, x) else s;
      r.ut[y] == Without(s.ut[y], x) && r.utParent[y] == s.utParent[y]
  {
  }

  lemma DeleteLeafIsRevocation(s: State, x: nat)
    requires Forest(s) && s.Live(x) && s.kids[x] == []
    ensures Revoked(s, x, DeleteLeaf(s, x))
  {
    var r := DeleteLeaf(s, x);
    DeleteLeafForest(s, x);
    forall y | 0 <= y < s.N()
      ensures Under(s, x, y) <==> y == x
    {
      if Under(s, x, y) { OnlySelfUnderLeaf(s, x, y); }
    }
    forall y | 0 <= y < s.N() && y != x
      ensures SameSlot(s, x, r, y) && r.occ[y] == s.occ[y]
    {
      DeleteLeafKeepsOthers(s, x, r, y);
    }
  }

  /** Inside what stays after revoking c, descent is unchanged. */
  lemma {:induction false} UnderAfterRevoke(s: State, c: nat, t: State, a: nat, y: nat)
    requires Forest(s) && Revoked(s, c, t) && y < s.N() && !Under(s, c, y)
    ensures Under(t, a, y) <==> Under(s, a, y)
    decreases s.rank[y]
  {
    assert SameSlot(s, c, t, y);
    if y != a && s.parent[y] != NONE { UnderAfterRevoke(s, c, t, a, s.parent[y]); }
  }

  lemma RevokeCompose(s: State, x: nat, c: nat, t: State, r: State)
    requires Forest(s) && s.Live(x) && c in s.kids[x]
    requires Revoked(s, c, t) && Revoked(t, x, r)
    ensures Revoked(s, x, r)
  {
    forall y | 0 <= y < s.N()
      ensures r.occ[y] <==> s.occ[y] && !Under(s, x, y)
      ensures !Under(s, x, y) ==> SameSlot(s, x, r, y)
    {
      if Under(s, c, y) {
        UnderTrans(s, x, c, y);
      } else {
        UnderAfterRevoke(s, c, t, x, y);
        assert SameSlot(s, c, t, y);
        if !Under(s, x, y) {
          assert SameSlot(t, x, r, y);
        }
      }
    }
  }

  /** Depth-first revocation: while there is a child, revoke the first one, then
      delete the capability itself. */
  function Revoke(s: State, x: nat): (r: State)
    requires Forest(s) && s.Live(x)
    ensures Revoked(s, x, r)
    decreases Subtree(s, x)
  {
    if s.kids[x] == [] then
      DeleteLeafIsRevocation(s, x);
      DeleteLeaf(s, x)
    else
      var c := s.kids[x][0];
      FirstChild(s, x);
      var t := Revoke(s, c);
      AfterFirstChild(s, x, t);
      var r := Revoke(t, x);
      RevokeCompose(s, x, c, t, r);
      r
  }

  lemma FirstChild(s: State, x: nat)
    requires Forest(s) && s.Live(x) && s.kids[x] != []
    ensures s.kids[x][0] in s.kids[x] && s.Live(s.kids[x][0])
    ensures Subtree(s, s.kids[x][0]) < Subtree(s, x)
  {
    var c := s.kids[x][0];
    assert c in s.kids[x];
    forall y | y in Subtree(s, c)
      ensures y in Subtree(s, x)
    {
      UnderTrans(s, x, c, y);
    }
    assert x in Subtree(s, x);
    if Under(s, c, x) { UnderRank(s, c, x); }
  }

  lemma AfterFirstChild(s: State, x: nat, t: State)
    requires Forest(s) && s.Live(x) && s.kids[x] != [] && Revoked(s, s.kids[x][0], t)
    ensures t.Live(x) && Subtree(t, x) < Subtree(s, x)
  {
    var c := s.kids[x][0];
    FirstChild(s, x);
    if Under(s, c, x) { UnderRank(s, c, x); }
    forall y | y in Subtree(t, x)
      ensures y in Subtree(s, x)
    {
      UnderAfterRevoke(s, c, t, x, y);
    }
    assert c in Subtree(s, x) && c !in Subtree(t, x);
  }

  // ---- counting descendants -----------------------------------------------

  /** Two ancestors of one slot are ancestors of each other. */
  lemma {:induction false} AncestorsChain(s: State, a: nat, b: nat, x: nat)
    requires Tree(s) && a < s.N() && b < s.N() && x < s.N() && Under(s, a, x) && Under(s, b, x)
    ensures Under(s, a, b) || Under(s, b, a)
    decreases s.rank[x]
  {
    if x != a && x != b { AncestorsChain(s, a, b, s.parent[x]); }
  }

  lemma SiblingsApart(s: State, a: nat, b: nat)
    requires Tree(s) && a < s.N() && b < s.N() && a != b && s.parent[a] == s.parent[b] != NONE
    ensures Subtree(s, a) !! Subtree(s, b)
  {
    forall x | x in Subtree(s, a) && x in Subtree(s, b)
      ensures false
    {
      AncestorsChain(s, a, b, x);
      if Under(s, a, b) { UnderRank(s, a, s.parent[b]); } else { UnderRank(s, b, s.parent[a]); }
    }
  }

  /** The union of the subtrees of the first n children of x. */
  ghost function BelowChildren(s: State, x: nat, n: nat): set<nat>
    requires Tree(s) && x < s.N() && n <= |s.kids[x]|
  {
    if n == 0 then {} else BelowChildren(s, x, n - 1) + Subtree(s, s.kids[x][n - 1])
  }

  lemma {:induction false} BelowMember(s: State, x: nat, n: nat, y: nat)
    requires Tree(s) && x < s.N() && n <= |s.kids[x]|
    ensures y in BelowChildren(s, x, n) <==> exists i :: 0 <= i < n && y in Subtree(s, s.kids[x][i])
  {
    if n > 0 { BelowMember(s, x, n - 1, y); }
  }

  lemma BelowNext(s: State, x: nat, n: nat)
    requires Tree(s) && x < s.N() && n < |s.kids[x]|
    ensures |BelowChildren(s, x, n + 1)| == |BelowChildren(s, x, n)| + |Subtree(s, s.kids[x][n])|
  {
    var c := s.kids[x][n];
    assert c in s.kids[x] && Distinct(s.kids[x]);
    forall y | y in BelowChildren(s, x, n) && y in Subtree(s, c)
      ensures false
    {
      BelowMember(s, x, n, y);
      var i :| 0 <= i < n && y in Subtree(s, s.kids[x][i]);
      assert s.kids[x][i] in s.kids[x];
      SiblingsApart(s, s.kids[x][i], c);
    }
    assert BelowChildren(s, x, n) !! Subtree(s, c);
  }

  /** The subtree of x is x together with the subtrees of its children. */
  lemma SubtreeSplits(s: State, x: nat)
    requires Tree(s) && s.Live(x)
    ensures Subtree(s, x) == {x} + BelowChildren(s, x, |s.kids[x]|)
    ensures x !in BelowChildren(s, x, |s.kids[x]|)
  {
    var n := |s.kids[x]|;
    forall y | y in Subtree(s, x) && y != x
      ensures y in BelowChildren(s, x, n)
    {
      var c := ChildTowards(s, x, y);
      var i :| 0 <= i < n && s.kids[x][i] == c;
      BelowMember(s, x, n, y);
    }
    forall y | y in BelowChildren(s, x, n)
      ensures y in Subtree(s, x) && y != x
    {
      BelowMember(s, x, n, y);
      var i :| 0 <= i < n && y in Subtree(s, s.kids[x][i]);
      var c := s.kids[x][i];
      assert c in s.kids[x];
      UnderTrans(s, x, c, y);
      UnderRank(s, c, y);
    }
  }

  lemma {:induction false} ChildTowards(s: State, x: nat, y: nat) returns (c: nat)
    requires Tree(s) && x < s.N() && y < s.N() && y != x && Under(s, x, y)
    ensures c in s.kids[x] && Under(s, c, y)
    decreases s.rank[y]
  {
    if s.parent[y] == x { c := y; } else { c := ChildTowards(s, x, s.parent[y]); }
  }
}
