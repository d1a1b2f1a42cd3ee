/** The slot metadata as the kernel stores it, first-child and sibling links in
    every slot, and its relation to the child sequences it stands for. */
module CapLinks {
  import opened CapState
  import opened CapForest

  datatype Meta = Meta(parent: nat, first: nat, next: nat, prev: nat,
                       utFirst: nat, utNext: nat, utParent: nat, occupied: bool)

  const FREE_META: Meta := Meta(NONE, NONE, NONE, NONE, NONE, NONE, NONE, false)
  const OCCUPIED_META: Meta := FREE_META.(occupied := true)

  /** Element i of q, or the null link outside q. */
  function Elem(q: seq<nat>, i: int): nat {
    if 0 <= i < |q| then q[i] else NONE
  }

  /** q is threaded through next and prev, and starts at p's first child. */
  ghost predicate Threaded(m: seq<Meta>, p: nat, q: seq<nat>) {
    && p < |m| && m[p].first == Elem(q, 0)
    && (forall i {:trigger q[i]} :: 0 <= i < |q| ==>
          q[i] < |m| && m[q[i]].next == Elem(q, i + 1) && m[q[i]].prev == Elem(q, i - 1))
  }

  ghost predicate UtThreaded(m: seq<Meta>, u: nat, q: seq<nat>) {
    && u < |m| && m[u].utFirst == Elem(q, 0)
    && (forall i {:trigger q[i]} :: 0 <= i < |q| ==> q[i] < |m| && m[q[i]].utNext == Elem(q, i + 1))
  }

  ghost predicate Scalars(m: seq<Meta>, s: State) {
    && s.Shape() && |m| == s.N()
    && (forall x {:trigger m[x]} :: 0 <= x < s.N() ==>
          && m[x].occupied == s.occ[x] && m[x].parent == s.parent[x] && m[x].utParent == s.utParent[x]
          && (s.parent[x] == NONE ==> m[x].next == NONE && m[x].prev == NONE)
          && (s.utParent[x] == NONE ==> m[x].utNext == NONE))
  }

  /** The metadata represents the child sequences of s. */
  ghost predicate Linked(m: seq<Meta>, s: State) {
    && Scalars(m, s)
    && (forall p {:trigger s.kids[p]} :: 0 <= p < s.N() ==> Threaded(m, p, s.kids[p]))
    && (forall u {:trigger s.ut[u]} :: 0 <= u < s.N() ==> UtThreaded(m, u, s.ut[u]))
  }

  lemma LinkedFrame(m: seq<Meta>, s: State, t: State)
    requires Linked(m, s) && t.Shape()
    requires t.occ == s.occ && t.parent == s.parent && t.kids == s.kids && t.utParent == s.utParent && t.ut == s.ut
    ensures Linked(m, t)
  {
  }

  /** Untyped lists own their members (also while a member is already off its
      derivation list). */
  ghost predicate UtOwned(s: State) {
    && s.Shape()
    && (forall x :: 0 <= x < s.N() && s.utParent[x] != NONE ==> s.utParent[x] < s.N() && x in s.ut[s.utParent[x]])
    && (forall u, c {:trigger c in s.ut[u]} :: 0 <= u < s.N() && c in s.ut[u] ==> c < s.N() && s.utParent[c] == u)
    && (forall u {:trigger Distinct(s.ut[u])} :: 0 <= u < s.N() ==> Distinct(s.ut[u]))
  }

  lemma OwnedWhenListed(s: State)
    requires UtLists(s)
    ensures UtOwned(s)
  {
  }

  // ---- insertion ----------------------------------------------------------

  function InsertLinks(m: seq<Meta>, p: nat, c: nat): (r: seq<Meta>)
    requires p < |m| && c < |m| && p != c && (m[p].first == NONE || m[p].first < |m|)
    ensures |r| == |m|
  {
    var head := m[p].first;
    var m1 := m[c := m[c].(parent := p, next := head, prev := NONE)];
    var m2 := if head != NONE then m1[head := m1[head].(prev := c)] else m1;
    m2[p := m2[p].(first := c)]
  }

  /** Which slots an insertion touches, field by field. */
  lemma InsertTouches(m: seq<Meta>, p: nat, c: nat, x: nat)
    requires p < |m| && c < |m| && x < |m| && p != c && (m[p].first == NONE || m[p].first < |m|)
    requires m[p].first != c && m[p].first != p && |m| < NONE
    ensures
      var r := InsertLinks(m, p, c);
      && r[x].occupied == m[x].occupied && r[x].utFirst == m[x].utFirst && r[x].utNext == m[x].utNext
      && r[x].utParent == m[x].utParent
      && r[x].parent == (if x == c then p else m[x].parent)
      && r[x].first == (if x == p then c else m[x].first)
      && r[x].next == (if x == c then m[p].first else m[x].next)
      && r[x].prev == (if x == c then NONE else if x == m[p].first then c else m[x].prev)
  {
  }

  lemma InsertThreadsParent(m: seq<Meta>, p: nat, c: nat, q: seq<nat>)
    requires p < |m| && c < |m| && p != c && Threaded(m, p, q) && c !in q && p !in q && Distinct(q) && |m| < NONE
    ensures m[p].first == NONE || m[p].first < |m|
    ensures Threaded(InsertLinks(m, p, c), p, [c] + q)
  {
    FirstIsMember(q);
    var r, q' := InsertLinks(m, p, c), [c] + q;
    InsertTouches(m, p, c, p);
    hide InsertLinks;
    forall i | 0 <= i < |q'|
      ensures q'[i] < |r| && r[q'[i]].next == Elem(q', i + 1) && r[q'[i]].prev == Elem(q', i - 1)
    {
      if i == 0 {
        InsertTouches(m, p, c, c);
      } else {
        InsertThreadsAt(m, p, c, q, i - 1);
      }
    }
  }

  lemma InsertThreadsAt(m: seq<Meta>, p: nat, c: nat, q: seq<nat>, i: nat)
    requires p < |m| && c < |m| && p != c && Threaded(m, p, q) && c !in q && p !in q && Distinct(q) && |m| < NONE
    requires i < |q| && m[p].first < |m|
    ensures
      var r, q' := InsertLinks(m, p, c), [c] + q;
      q[i] < |m| && r[q[i]].next == Elem(q', i + 2) && r[q[i]].prev == Elem(q', i)
  {
    assert q[i] in q && q[0] in q;
    assert i > 0 ==> q[i] != q[0];
    ThreadedAt(m, p, q, i);
    ElemsShift(c, q, i);
    hide InsertLinks, Elem, Threaded, Distinct;
    InsertTouches(m, p, c, q[i]);
  }

  lemma ThreadedAt(m: seq<Meta>, p: nat, q: seq<nat>, i: nat)
    requires p < |m| && Threaded(m, p, q) && i < |q|
    ensures m[p].first == q[0] && q[i] < |m| && m[q[i]].next == Elem(q, i + 1) && m[q[i]].prev == Elem(q, i - 1)
  {
  }

  lemma ElemsShift(c: nat, q: seq<nat>, i: nat)
    requires i < |q|
    ensures
      var q' := [c] + q;
      Elem(q', i + 2) == Elem(q, i + 1) && Elem(q', i) == if i == 0 then c else Elem(q, i - 1)
  {
  }

  lemma InsertThreadsOther(m: seq<Meta>, p: nat, c: nat, z: nat, q: seq<nat>)
    requires p < |m| && c < |m| && p != c && z < |m| && z != p && Threaded(m, z, q)
    requires m[p].first == NONE || m[p].first < |m|
    requires m[p].first != c && m[p].first != p && c !in q && m[p].first !in q && |m| < NONE
    ensures Threaded(InsertLinks(m, p, c), z, q)
  {
    var r := InsertLinks(m, p, c);
    InsertTouches(m, p, c, z);
    forall i | 0 <= i < |q|
      ensures q[i] < |r| && r[q[i]].next == Elem(q, i + 1) && r[q[i]].prev == Elem(q, i - 1)
    {
      InsertTouches(m, p, c, q[i]);
    }
  }

  lemma InsertKeepsUt(m: seq<Meta>, p: nat, c: nat, z: nat, q: seq<nat>)
    requires p < |m| && c < |m| && p != c && z < |m| && UtThreaded(m, z, q)
    requires m[p].first == NONE || m[p].first < |m|
    requires m[p].first != c && m[p].first != p && |m| < NONE
    ensures UtThreaded(InsertLinks(m, p, c), z, q)
  {
    var r := InsertLinks(m, p, c);
    InsertTouches(m, p, c, z);
    forall i | 0 <= i < |q|
      ensures q[i] < |r| && r[q[i]].utNext == Elem(q, i + 1)
    {
      InsertTouches(m, p, c, q[i]);
    }
  }

  lemma InsertScalars(m: seq<Meta>, s: State, p: nat, c: nat)
    requires Scalars(m, s) && s.Live(p) && s.Live(c) && p != c
    requires m[p].first == NONE || (m[p].first < |m| && s.parent[m[p].first] == p)
    requires m[p].first != c && m[p].first != p
    ensures Scalars(InsertLinks(m, p, c), InsertChild(s, p, c))
  {
    forall x | 0 <= x < s.N() { InsertTouches(m, p, c, x); }
  }

  /** Pushing c on the front of p's child list, as links and as a sequence. */
  lemma InsertLinked(m: seq<Meta>, s: State, p: nat, c: nat)
    requires Linked(m, s) && Tree(s) && s.Live(p) && s.Live(c) && p != c && s.parent[c] == NONE && s.kids[c] == []
    ensures m[p].first == NONE || m[p].first < |m|
    ensures Linked(InsertLinks(m, p, c), InsertChild(s, p, c))
  {
    var q := s.kids[p];
    assert Threaded(m, p, q);
    assert Distinct(q);
    FirstIsMember(q);
    InsertThreadsParent(m, p, c, q);
    InsertScalars(m, s, p, c);
    var r, t := InsertLinks(m, p, c), InsertChild(s, p, c);
    forall z | 0 <= z < s.N()
      ensures Threaded(r, z, t.kids[z]) && UtThreaded(r, z, t.ut[z])
    {
      assert UtThreaded(m, z, s.ut[z]);
      InsertKeepsUt(m, p, c, z, s.ut[z]);
      if z != p {
        assert Threaded(m, z, s.kids[z]);
        InsertThreadsOther(m, p, c, z, s.kids[z]);
      }
    }
  }

  // ---- removal ------------------------------------------------------------

  function UnlinkLinks(m: seq<Meta>, x: nat): (r: seq<Meta>)
    requires x < |m| && LinksInRange(m, x)
    ensures |r| == |m|
  {
    var parent, prev, next := m[x].parent, m[x].prev, m[x].next;
    var m1 := if prev != NONE then m[prev := m[prev].(next := next)]
              else if parent != NONE then m[parent := m[parent].(first := next)]
              else m;
    var m2 := if next != NONE then m1[next := m1[next].(prev := prev)] else m1;
    m2[x := m2[x].(parent := NONE, first := NONE, next := NONE, prev := NONE)]
  }

  predicate LinksInRange(m: seq<Meta>, x: nat)
    requires x < |m|
  {
    && (m[x].parent == NONE || m[x].parent < |m|) && (m[x].prev == NONE || m[x].prev < |m|)
    && (m[x].next == NONE || m[x].next < |m|)
  }

  lemma UnlinkTouches(m: seq<Meta>, x: nat, y: nat)
    requires x < |m| < NONE && y < |m| && LinksInRange(m, x)
    requires m[x].parent != x && m[x].prev != x && m[x].next != x && (m[x].prev == NONE || m[x].prev != m[x].next)
    ensures
      var r := UnlinkLinks(m, x);
      && r[y].occupied == m[y].occupied && r[y].utFirst == m[y].utFirst && r[y].utNext == m[y].utNext
      && r[y].utParent == m[y].utParent && r[y].parent == (if y == x then NONE else m[y].parent)
      && r[y].first == (if y == x then NONE else if y == m[x].parent && m[x].prev == NONE then m[x].next
        else m[y].first)
      && r[y].next == (if y == x then NONE else if y == m[x].prev then m[x].next else m[y].next)
      && r[y].prev == (if y == x then NONE else if y == m[x].next then m[x].prev else m[y].prev)
  {
  }

  lemma ElemOfSplice(q: seq<nat>, k: nat, i: int)
    requires k < |q|
    ensures Elem(q[..k] + q[k + 1..], i) == Elem(q, if i < k then i else i + 1)
  {
  }

  lemma UnlinkElement(m: seq<Meta>, p: nat, x: nat, q: seq<nat>, k: nat, j: nat)
    requires p < |m| && x < |m| && |m| < NONE && p != x && Threaded(m, p, q) && Distinct(q)
    requires k < |q| && q[k] == x && m[x].parent == p && j < |q| && j != k && LinksInRange(m, x)
    ensures q[j] < |m|
    ensures var r := UnlinkLinks(m, x);
            && r[q[j]].next == Elem(q, if j + 1 == k then k + 1 else j + 1)
            && r[q[j]].prev == Elem(q, if j - 1 == k then k - 1 else j - 1)
  {
    LinksOf(m, p, x, q, k);
    ThreadedAt(m, p, q, j);
    Neighbours(q, k, j);
    hide UnlinkLinks, Distinct, Threaded, Elem;
    UnlinkTouches(m, x, q[j]);
  }

  lemma Neighbours(q: seq<nat>, k: nat, j: nat)
    requires Distinct(q) && k < |q| && j < |q| && j != k && q[j] < NONE
    ensures q[j] != q[k] && (q[j] == Elem(q, k - 1) <==> j == k - 1) && (q[j] == Elem(q, k + 1) <==> j == k + 1)
  {
  }

  lemma LinksOf(m: seq<Meta>, p: nat, x: nat, q: seq<nat>, k: nat)
    requires x < |m| < NONE && Threaded(m, p, q) && Distinct(q) && k < |q| && q[k] == x
    ensures m[x].prev == Elem(q, k - 1) && m[x].next == Elem(q, k + 1)
    ensures m[x].prev == NONE || m[x].prev < |m|
    ensures m[x].next == NONE || m[x].next < |m|
    ensures m[x].prev != x && m[x].next != x && (m[x].prev == NONE || m[x].prev != m[x].next)
  {
    assert k > 0 ==> q[k - 1] < |m|;
    assert k + 1 < |q| ==> q[k + 1] < |m|;
  }

  lemma UnlinkAt(m: seq<Meta>, p: nat, x: nat, q: seq<nat>, k: nat, q': seq<nat>, i: nat)
    requires p < |m| && x < |m| && |m| < NONE && p != x && Threaded(m, p, q) && Distinct(q)
    requires k < |q| && q[k] == x && m[x].parent == p && LinksInRange(m, x)
    requires q' == q[..k] + q[k + 1..] && i < |q'|
    ensures var r := UnlinkLinks(m, x);
            q'[i] < |m| && r[q'[i]].next == Elem(q', i + 1) && r[q'[i]].prev == Elem(q', i - 1)
  {
    hide UnlinkLinks, Distinct, Threaded, Elem;
    var j := if i < k then i else i + 1;
    assert q'[i] == q[j];
    UnlinkElement(m, p, x, q, k, j);
    ElemOfSplice(q, k, i + 1);
    ElemOfSplice(q, k, i - 1);
  }

  lemma UnlinkThreadsParent(m: seq<Meta>, p: nat, x: nat, q: seq<nat>, k: nat, q': seq<nat>)
    requires p < |m| && x < |m| && |m| < NONE && p != x && Threaded(m, p, q) && Distinct(q)
    requires k < |q| && q[k] == x && m[x].parent == p && q' == q[..k] + q[k + 1..] && LinksInRange(m, x)
    ensures Threaded(UnlinkLinks(m, x), p, q')
  {
    hide UnlinkLinks, Distinct;
    LinksOf(m, p, x, q, k);
    UnlinkTouches(m, x, p);
    ElemOfSplice(q, k, 0);
    forall i | 0 <= i < |q'| { UnlinkAt(m, p, x, q, k, q', i); }
  }

  lemma UnlinkThreadsOther(m: seq<Meta>, x: nat, z: nat, q: seq<nat>)
    requires x < |m| < NONE && z < |m| && LinksInRange(m, x) && Threaded(m, z, q)
    requires m[x].parent != x && m[x].prev != x && m[x].next != x && (m[x].prev == NONE || m[x].prev != m[x].next)
    requires x !in q && m[x].prev !in q && m[x].next !in q
    requires (z == x ==> q == []) && (m[x].parent != NONE ==> z != m[x].parent)
    ensures Threaded(UnlinkLinks(m, x), z, q)
  {
    var r := UnlinkLinks(m, x);
    UnlinkTouches(m, x, z);
    forall i | 0 <= i < |q|
      ensures q[i] < |r| && r[q[i]].next == Elem(q, i + 1) && r[q[i]].prev == Elem(q, i - 1)
    {
      assert q[i] in q;
      UnlinkTouches(m, x, q[i]);
    }
  }

  lemma UnlinkKeepsUt(m: seq<Meta>, x: nat, z: nat, q: seq<nat>)
    requires x < |m| < NONE && z < |m| && LinksInRange(m, x) && UtThreaded(m, z, q)
    requires m[x].parent != x && m[x].prev != x && m[x].next != x && (m[x].prev == NONE || m[x].prev != m[x].next)
    ensures UtThreaded(UnlinkLinks(m, x), z, q)
  {
    UnlinkTouches(m, x, z);
    forall i | 0 <= i < |q| { UnlinkTouches(m, x, q[i]); }
  }

  lemma UnlinkScalars(m: seq<Meta>, s: State, x: nat)
    requires Scalars(m, s) && x < s.N() && LinksInRange(m, x)
    requires m[x].parent != x && m[x].prev != x && m[x].next != x && (m[x].prev == NONE || m[x].prev != m[x].next)
    requires m[x].prev != NONE ==> s.parent[m[x].prev] != NONE
    requires m[x].next != NONE ==> s.parent[m[x].next] != NONE
    ensures Scalars(UnlinkLinks(m, x), Unlink(s, x))
  {
    hide Without;
    forall y | 0 <= y < s.N() { UnlinkTouches(m, x, y); }
  }

  /** Splicing leaf x out, as links and as a sequence. */
  lemma UnlinkLinked(m: seq<Meta>, s: State, x: nat)
    requires Linked(m, s) && Tree(s) && x < s.N() && s.kids[x] == []
    ensures LinksInRange(m, x)
    ensures Linked(UnlinkLinks(m, x), Unlink(s, x))
  {
    hide UnlinkLinks;
    var p := s.parent[x];
    assert m[x].parent == p;
    if p == NONE {
      UnlinkScalars(m, s, x);
      forall z | 0 <= z < s.N()
        ensures Threaded(UnlinkLinks(m, x), z, s.kids[z]) && UtThreaded(UnlinkLinks(m, x), z, s.ut[z])
      {
        assert Threaded(m, z, s.kids[z]) && UtThreaded(m, z, s.ut[z]);
        NoneIsNoMember(m, z, s.kids[z]);
        UnlinkThreadsOther(m, x, z, s.kids[z]);
        UnlinkKeepsUt(m, x, z, s.ut[z]);
      }
    } else {
      UnlinkChildLinked(m, s, x);
    }
  }

  lemma NoneIsNoMember(m: seq<Meta>, z: nat, q: seq<nat>)
    requires Threaded(m, z, q) && |m| < NONE
    ensures NONE !in q
  {
  }

  lemma UnlinkChildLinked(m: seq<Meta>, s: State, x: nat)
    requires Linked(m, s) && Tree(s) && s.Live(x) && s.kids[x] == [] && s.parent[x] != NONE
    ensures LinksInRange(m, x)
    ensures Linked(UnlinkLinks(m, x), Unlink(s, x))
  {
    hide UnlinkLinks, Without, Threaded, UtThreaded;
    var p := s.parent[x];
    var q := s.kids[p];
    assert m[x].parent == p && Threaded(m, p, q) && Distinct(q);
    var k :| 0 <= k < |q| && q[k] == x;
    LinksOf(m, p, x, q, k);
    WithoutAt(q, x, k);
    UnlinkThreadsParent(m, p, x, q, k, Without(q, x));
    assert k > 0 ==> m[x].prev in q;
    assert k + 1 < |q| ==> m[x].next in q;
    UnlinkScalars(m, s, x);
    forall z | 0 <= z < s.N()
      ensures Threaded(UnlinkLinks(m, x), z, Unlink(s, x).kids[z]) && UtThreaded(UnlinkLinks(m, x), z, s.ut[z])
    {
      UnlinkOthers(m, s, x, z);
    }
  }

  lemma UnlinkOthers(m: seq<Meta>, s: State, x: nat, z: nat)
    requires Linked(m, s) && Tree(s) && s.Live(x) && s.kids[x] == [] && s.parent[x] != NONE && z < s.N()
      && LinksInRange(m, x)
    requires m[x].parent == s.parent[x] && m[x].prev != x && m[x].next != x
      && (m[x].prev == NONE || m[x].prev != m[x].next)
    requires m[x].prev != NONE ==> m[x].prev in s.kids[s.parent[x]]
    requires m[x].next != NONE ==> m[x].next in s.kids[s.parent[x]]
    ensures z != s.parent[x] ==> Threaded(UnlinkLinks(m, x), z, s.kids[z])
    ensures UtThreaded(UnlinkLinks(m, x), z, s.ut[z])
  {
    hide UnlinkLinks, Threaded, UtThreaded;
    assert Threaded(m, z, s.kids[z]) && UtThreaded(m, z, s.ut[z]);
    UnlinkKeepsUt(m, x, z, s.ut[z]);
    NoneIsNoMember(m, z, s.kids[z]);
    if z != s.parent[x] {
      UnlinkThreadsOther(m, x, z, s.kids[z]);
    }
  }

  // ---- untyped lists ------------------------------------------------------

  function AddUtLinks(m: seq<Meta>, u: nat, c: nat): (r: seq<Meta>)
    requires u < |m| && c < |m|
    ensures |r| == |m|
  {
    var m1 := m[c := m[c].(utNext := m[u].utFirst, utParent := u)];
    m1[u := m1[u].(utFirst := c)]
  }

  lemma AddUtThreads(m: seq<Meta>, u: nat, c: nat, z: nat, q: seq<nat>)
    requires u < |m| && c < |m| && u != c && z < |m| && UtThreaded(m, z, q) && c !in q
    ensures UtThreaded(AddUtLinks(m, u, c), z, if z == u then [c] + q else q)
  {
    var r, q' := AddUtLinks(m, u, c), if z == u then [c] + q else q;
    forall i | 0 <= i < |q'|
      ensures q'[i] < |r| && r[q'[i]].utNext == Elem(q', i + 1)
    {
      if z == u && i > 0 { assert q'[i] == q[i - 1]; }
      if z != u { assert q'[i] == q[i]; }
    }
  }

  lemma AddUtKeepsThread(m: seq<Meta>, u: nat, c: nat, z: nat, q: seq<nat>)
    requires u < |m| && c < |m| && Threaded(m, z, q)
    ensures Threaded(AddUtLinks(m, u, c), z, q)
  {
  }

  lemma AddUtLinked(m: seq<Meta>, s: State, u: nat, c: nat)
    requires Linked(m, s) && UtOwned(s) && s.Live(u) && s.Live(c) && u != c && s.utParent[c] == NONE
    ensures Linked(AddUtLinks(m, u, c), AddUtChild(s, u, c))
  {
    hide Threaded, UtThreaded, AddUtLinks;
    var r, t := AddUtLinks(m, u, c), AddUtChild(s, u, c);
    AddUtScalars(m, s, u, c);
    forall z | 0 <= z < s.N()
      ensures Threaded(r, z, t.kids[z]) && UtThreaded(r, z, t.ut[z])
    {
      assert Threaded(m, z, s.kids[z]) && UtThreaded(m, z, s.ut[z]);
      AddUtKeepsThread(m, u, c, z, s.kids[z]);
      AddUtThreads(m, u, c, z, s.ut[z]);
    }
  }

  lemma AddUtScalars(m: seq<Meta>, s: State, u: nat, c: nat)
    requires Scalars(m, s) && s.Live(u) && s.Live(c) && u != c
    ensures Scalars(AddUtLinks(m, u, c), AddUtChild(s, u, c))
  {
  }

  /** x, at position k of u's list q, spliced out. */
  function RemoveUtLinks(m: seq<Meta>, u: nat, x: nat, prev: nat): (r: seq<Meta>)
    requires u < |m| && x < |m| && (prev == NONE || prev < |m|)
    ensures |r| == |m|
  {
    var m1 := if prev == NONE then m[u := m[u].(utFirst := m[x].utNext)]
              else m[prev := m[prev].(utNext := m[x].utNext)];
    m1[x := m1[x].(utNext := NONE, utParent := NONE)]
  }

  lemma RemoveUtElement(m: seq<Meta>, u: nat, x: nat, q: seq<nat>, k: nat, j: nat)
    requires u < |m| < NONE && UtThreaded(m, u, q) && Distinct(q) && k < |q| && q[k] == x && u != x
    requires j < |q| && j != k && x < |m| && (k == 0 || q[k - 1] < |m|)
    ensures q[j] < |m| && RemoveUtLinks(m, u, x, Elem(q, k - 1))[q[j]].utNext == Elem(q, if j + 1 == k then k + 1
      else j + 1)
  {
    assert m[q[j]].utNext == Elem(q, j + 1) && m[q[k]].utNext == Elem(q, k + 1);
  }

  lemma RemoveUtAt(m: seq<Meta>, u: nat, x: nat, q: seq<nat>, k: nat, q': seq<nat>, i: nat)
    requires u < |m| < NONE && UtThreaded(m, u, q) && Distinct(q) && k < |q| && q[k] == x && u != x
    requires q' == q[..k] + q[k + 1..] && i < |q'| && x < |m| && (k == 0 || q[k - 1] < |m|)
    ensures q'[i] < |m| && RemoveUtLinks(m, u, x, Elem(q, k - 1))[q'[i]].utNext == Elem(q', i + 1)
  {
    hide RemoveUtLinks, Distinct, UtThreaded;
    var j := if i < k then i else i + 1;
    assert q'[i] == q[j];
    RemoveUtElement(m, u, x, q, k, j);
    ElemOfSplice(q, k, i + 1);
  }

  lemma RemoveUtHead(m: seq<Meta>, u: nat, x: nat, q: seq<nat>, k: nat)
    requires u < |m| < NONE && UtThreaded(m, u, q) && k < |q| && q[k] == x && u != x
    ensures x < |m| && (k == 0 || q[k - 1] < |m|)
    ensures RemoveUtLinks(m, u, x, Elem(q, k - 1))[u].utFirst == Elem(q, if k == 0 then 1 else 0)
  {
    assert q[k] == x && (k > 0 ==> q[k - 1] < |m|);
  }

  lemma RemoveUtThreads(m: seq<Meta>, u: nat, x: nat, q: seq<nat>, k: nat, q': seq<nat>)
    requires u < |m| < NONE && UtThreaded(m, u, q) && Distinct(q) && k < |q| && q[k] == x && u != x
    requires q' == q[..k] + q[k + 1..]
    ensures x < |m| && (k == 0 || q[k - 1] < |m|) && UtThreaded(RemoveUtLinks(m, u, x, Elem(q, k - 1)), u, q')
  {
    hide Distinct, RemoveUtLinks;
    RemoveUtHead(m, u, x, q, k);
    ElemOfSplice(q, k, 0);
    forall i | 0 <= i < |q'| { RemoveUtAt(m, u, x, q, k, q', i); }
  }

  lemma RemoveUtThreadsOther(m: seq<Meta>, u: nat, x: nat, prev: nat, z: nat, q: seq<nat>)
    requires u < |m| < NONE && x < |m| && (prev == NONE || prev < |m|) && z < |m| && z != u && UtThreaded(m, z, q)
    requires x !in q && prev !in q && u != x
    ensures UtThreaded(RemoveUtLinks(m, u, x, prev), z, q)
  {
    var r := RemoveUtLinks(m, u, x, prev);
    forall i | 0 <= i < |q|
      ensures r[q[i]].utNext == m[q[i]].utNext
    {
      assert q[i] in q;
    }
  }

  lemma RemoveUtScalars(m: seq<Meta>, s: State, u: nat, x: nat, prev: nat)
    requires Scalars(m, s) && u < s.N() && x < s.N() && (prev == NONE || (prev < s.N() && s.utParent[prev] != NONE))
    requires x in s.ut[u] && u != x
    ensures Scalars(RemoveUtLinks(m, u, x, prev), RemoveUtChild(s, u, x))
  {
    hide Without;
  }

  lemma RemoveUtKeepsThread(m: seq<Meta>, u: nat, x: nat, prev: nat, z: nat, q: seq<nat>)
    requires u < |m| && x < |m| && (prev == NONE || prev < |m|) && Threaded(m, z, q)
    ensures Threaded(RemoveUtLinks(m, u, x, prev), z, q)
  {
  }

  lemma RemoveUtLinked(m: seq<Meta>, s: State, u: nat, x: nat, k: nat)
    requires Linked(m, s) && UtOwned(s) && u < s.N() && u != x && k < |s.ut[u]| && s.ut[u][k] == x
    ensures x < s.N() && (k == 0 || s.ut[u][k - 1] < s.N())
    ensures Linked(RemoveUtLinks(m, u, x, Elem(s.ut[u], k - 1)), RemoveUtChild(s, u, x))
  {
    hide RemoveUtLinks, Without, Threaded, UtThreaded;
    var q := s.ut[u];
    var prev := Elem(q, k - 1);
    assert UtThreaded(m, u, q) && Distinct(q);
    WithoutAt(q, x, k);
    RemoveUtThreads(m, u, x, q, k, Without(q, x));
    assert k > 0 ==> prev in q;
    RemoveUtScalars(m, s, u, x, prev);
    forall z | 0 <= z < s.N()
      ensures Threaded(RemoveUtLinks(m, u, x, prev), z, s.kids[z])
      ensures z != u ==> UtThreaded(RemoveUtLinks(m, u, x, prev), z, s.ut[z])
    {
      assert Threaded(m, z, s.kids[z]) && UtThreaded(m, z, s.ut[z]);
      RemoveUtKeepsThread(m, u, x, prev, z, s.kids[z]);
      if z != u { RemoveUtThreadsOther(m, u, x, prev, z, s.ut[z]); }
    }
  }

  // ---- taking and giving back slots ---------------------------------------

  ghost predicate Isolated(s: State, x: nat)
    requires s.Shape()
  {
    && x < s.N() && s.parent[x] == NONE && s.kids[x] == [] && s.utParent[x] == NONE && s.ut[x] == []
    && (forall p {:trigger s.kids[p]} :: 0 <= p < s.N() ==> x !in s.kids[p])
    && (forall p {:trigger s.ut[p]} :: 0 <= p < s.N() ==> x !in s.ut[p])
  }

  lemma AllocLinked(m: seq<Meta>, s: State, x: nat)
    requires Linked(m, s) && Isolated(s, x)
    ensures Linked(m[x := OCCUPIED_META], Alloc(s, x))
  {
    ResetLinked(m, s, x, OCCUPIED_META);
  }

  lemma FreeLinked(m: seq<Meta>, s: State, x: nat)
    requires Linked(m, s) && Isolated(s, x)
    ensures Linked(m[x := FREE_META], Free(s, x))
  {
    ResetLinked(m, s, x, FREE_META);
  }

  lemma ResetLinked(m: seq<Meta>, s: State, x: nat, e: Meta)
    requires Linked(m, s) && Isolated(s, x) && (e == FREE_META || e == OCCUPIED_META)
    ensures forall z {:trigger s.kids[z]} :: 0 <= z < s.N() ==> Threaded(m[x := e], z, s.kids[z])
    ensures forall z {:trigger s.ut[z]} :: 0 <= z < s.N() ==> UtThreaded(m[x := e], z, s.ut[z])
  {
    forall z | 0 <= z < s.N()
      ensures Threaded(m[x := e], z, s.kids[z]) && UtThreaded(m[x := e], z, s.ut[z])
    {
      assert Threaded(m, z, s.kids[z]) && UtThreaded(m, z, s.ut[z]);
      ResetThreads(m, x, e, z, s.kids[z], s.ut[z]);
    }
  }

  lemma ResetThreads(m: seq<Meta>, x: nat, e: Meta, z: nat, q: seq<nat>, w: seq<nat>)
    requires x < |m| && Threaded(m, z, q) && UtThreaded(m, z, w) && x !in q && x !in w
    requires (e == FREE_META || e == OCCUPIED_META) && (z == x ==> q == [] && w == [])
    ensures Threaded(m[x := e], z, q) && UtThreaded(m[x := e], z, w)
  {
    assert forall i :: 0 <= i < |q| ==> q[i] in q;
    assert forall i :: 0 <= i < |w| ==> w[i] in w;
  }

  /** Once off both lists, a leaf is on no list at all. */
  lemma DetachedIsolated(s: State, x: nat)
    requires Forest(s) && x < s.N() && s.kids[x] == []
    ensures Isolated(Detach(s, x), x)
  {
    var p, u, t := s.parent[x], s.utParent[x], Detach(s, x);
    FirstIsMember(s.ut[x]);
    if p != NONE {
      assert Distinct(s.kids[p]);
      WithoutDistinct(s.kids[p], x);
    }
    if u != NONE {
      assert x in s.ut[u];
      assert Distinct(s.ut[u]);
      WithoutDistinct(s.ut[u], x);
    }
  }
}
