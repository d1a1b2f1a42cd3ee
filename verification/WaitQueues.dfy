/** Intrusive thread queues: threads are numbers from 1, 0 is null, and the links live
    in arrays that all queues share. */
module WaitQueues {
  // ---- linked sequences ---------------------------------------------------

  function First(q: seq<nat>): nat { if q == [] then 0 else q[0] }
  function Final(q: seq<nat>): nat { if q == [] then 0 else q[|q| - 1] }
  function At(q: seq<nat>, i: int): nat { if 0 <= i < |q| then q[i] else 0 }

  ghost predicate Distinct(q: seq<nat>) {
    forall i, j :: 0 <= i < j < |q| ==> q[i] != q[j]
  }

  /** The next links run through q and end in null. */
  ghost predicate Linked(next: seq<nat>, q: seq<nat>) {
    && Distinct(q)
    && (forall i {:trigger q[i]} :: 0 <= i < |q| ==> 0 < q[i] < |next|)
    && (forall i {:trigger next[q[i]]} :: 0 <= i < |q| ==> next[q[i]] == At(q, i + 1))
  }

  /** q without its j-th element. */
  function Drop(q: seq<nat>, j: nat): seq<nat>
    requires j < |q|
  {
    q[..j] + q[j + 1..]
  }

  lemma LinkedFrame(next: seq<nat>, next': seq<nat>, q: seq<nat>)
    requires Linked(next, q) && |next'| == |next|
    requires forall x {:trigger next'[x]} :: x in q && 0 <= x < |next| ==> next'[x] == next[x]
    ensures Linked(next', q)
  {
    forall i {:trigger next'[q[i]]} | 0 <= i < |q| ensures next'[q[i]] == At(q, i + 1) {
      assert q[i] in q;
    }
  }

  lemma LinkedAppend(next: seq<nat>, q: seq<nat>, t: nat)
    requires Linked(next, q) && 0 < t < |next| && t !in q && next[t] == 0
    ensures q == [] ==> Linked(next, [t])
    ensures q != [] ==> Final(q) < |next| && Linked(next[Final(q) := t], q + [t])
  {
    if q != [] {
      var n, r := next[Final(q) := t], q + [t];
      forall i {:trigger n[r[i]]} | 0 <= i < |r| ensures n[r[i]] == At(r, i + 1) {
        if i < |q| - 1 { assert q[i] != Final(q); assert next[q[i]] == At(q, i + 1); }
      }
      assert Linked(n, r);
    }
  }

  lemma LinkedPrepend(next: seq<nat>, q: seq<nat>, t: nat)
    requires Linked(next, q) && 0 < t < |next| && t !in q && next[t] == First(q)
    ensures Linked(next, [t] + q)
  {
    var r := [t] + q;
    forall i {:trigger next[r[i]]} | 0 <= i < |r| ensures next[r[i]] == At(r, i + 1) {
      if i > 0 { assert r[i] == q[i - 1]; assert next[q[i - 1]] == At(q, i); }
    }
    assert Linked(next, r);
  }

  /** Unlinking the j-th element: its predecessor, if any, takes over its successor. */
  lemma LinkedDrop(next: seq<nat>, q: seq<nat>, j: nat, n: seq<nat>)
    requires Linked(next, q) && j < |q| && |n| == |next|
    requires n == (if j == 0 then next else next[q[j - 1] := next[q[j]]])[q[j] := 0]
    ensures Linked(n, Drop(q, j)) && First(Drop(q, j)) == (if j == 0 then next[q[0]] else q[0])
    ensures Final(Drop(q, j)) == if j == |q| - 1 then At(q, j - 1) else Final(q)
  {
    var r := Drop(q, j);
    assert next[q[j]] == At(q, j + 1);
    forall i {:trigger n[r[i]]} | 0 <= i < |r| ensures n[r[i]] == At(r, i + 1) {
      var k := if i < j then i else i + 1;
      assert r[i] == q[k] && q[k] != q[j];
      assert next[q[k]] == At(q, k + 1);
      if j > 0 && k != j - 1 { assert q[k] != q[j - 1]; }
    }
    assert Linked(n, r);
  }

  lemma IndexOf(q: seq<nat>, t: nat) returns (j: nat)
    requires t in q
    ensures j < |q| && q[j] == t
  {
    j :| 0 <= j < |q| && q[j] == t;
  }

  // ---- the endpoint queue -------------------------------------------------

  /** FIFO of threads through one shared array of next links. */
  class WaitQueue {
    const next: array<nat>
    var head: nat
    var tail: nat
    ghost var q: seq<nat>

    ghost predicate Valid()
      reads this, next
    {
      Linked(next[..], q) && head == First(q) && tail == Final(q)
    }

    constructor (links: array<nat>)
      ensures Valid() && q == [] && next == links
    {
      next, head, tail, q := links, 0, 0, [];
    }

    method IsEmpty() returns (empty: bool)
      requires Valid()
      ensures empty <==> q == []
    {
      return head == 0;
    }

    method Push(t: nat)
      requires Valid() && 0 < t < next.Length && t !in q
      modifies this, next
      ensures Valid() && q == old(q) + [t]
      ensures forall x {:trigger next[x]} :: 0 <= x < next.Length && x != t && x != old(tail) ==>
        next[x] == old(next[x])
    {
      next[t] := 0;
      LinkedFrame(old(next[..]), next[..], q);
      LinkedAppend(next[..], q, t);
      if tail == 0 {
        head, tail := t, t;
      } else {
        next[tail] := t;
        tail := t;
      }
      q := q + [t];
    }

    method PushFront(t: nat)
      requires Valid() && 0 < t < next.Length && t !in q
      modifies this, next
      ensures Valid() && q == [t] + old(q)
      ensures forall x {:trigger next[x]} :: 0 <= x < next.Length && x != t ==> next[x] == old(next[x])
    {
      next[t] := head;
      LinkedFrame(old(next[..]), next[..], q);
      LinkedPrepend(next[..], q, t);
      head := t;
      if tail == 0 { tail := t; }
      q := [t] + q;
    }

    method Pop() returns (t: nat)
      requires Valid()
      modifies this, next
      ensures Valid() && t == First(old(q)) && q == (if old(q) == [] then [] else old(q)[1..])
      ensures forall x {:trigger next[x]} :: 0 <= x < next.Length && x != t ==> next[x] == old(next[x])
    {
      if head == 0 { return 0; }
      t := head;
      head := next[t];
      if head == 0 { tail := 0; }
      next[t] := 0;
      LinkedDrop(old(next[..]), q, 0, next[..]);
      q := Drop(q, 0);
    }

    method Peek() returns (t: nat)
      requires Valid()
      ensures t == First(q)
    {
      return head;
    }

    /** Unlink the first thread. */
    method TakeHead(t: nat)
      requires Valid() && head == t != 0
      modifies this, next
      ensures Valid() && old(q) != [] && q == Drop(old(q), 0)
      ensures forall x {:trigger next[x]} :: 0 <= x < next.Length && x != t ==> next[x] == old(next[x])
    {
      head := next[t];
      if head == 0 { tail := 0; }
      next[t] := 0;
      LinkedDrop(old(next[..]), q, 0, next[..]);
      q := Drop(q, 0);
    }

    /** Unlink t, whose predecessor is prev. */
    method TakeAfter(prev: nat, t: nat, ghost j: nat)
      requires Valid() && 0 < j < |q| && q[j - 1] == prev && q[j] == t
      modifies this, next
      ensures Valid() && q == Drop(old(q), j)
      ensures forall x {:trigger next[x]} :: 0 <= x < next.Length && x != t && x != prev ==> next[x] == old(next[x])
    {
      next[prev] := next[t];
      if tail == t { tail := prev; }
      next[t] := 0;
      LinkedDrop(old(next[..]), q, j, next[..]);
      q := Drop(q, j);
    }

    /** Take t out wherever it stands. */
    method Remove(t: nat) returns (found: bool)
      requires Valid() && 0 < t < next.Length
      modifies this, next
      ensures Valid() && (found <==> t in old(q))
      ensures !found ==> q == old(q) && next[..] == old(next[..])
      ensures found ==> exists j :: 0 <= j < |old(q)| && old(q)[j] == t && q == Drop(old(q), j)
      ensures forall x {:trigger next[x]} :: 0 <= x < next.Length && x !in old(q) ==> next[x] == old(next[x])
    {
      if head == 0 { return false; }
      if head == t {
        TakeHead(t);
        return true;
      }
      var prev := head;
      ghost var j := 0;
      var current := next[prev];
      while current != 0
        invariant 0 <= j < |q| && prev == q[j] && current == At(q, j + 1) && t !in q[..j + 1]
        invariant unchanged(this) && unchanged(next)
        decreases |q| - j
      {
        assert next[..][q[j + 1]] == At(q, j + 2);
        if current == t {
          TakeAfter(prev, t, j + 1);
          return true;
        }
        prev := current;
        current := next[current];
        j := j + 1;
      }
      assert q[..j + 1] == q;
      return false;
    }
  }

  // ---- the receive queue --------------------------------------------------

  /** The prev links mirror the next links. */
  ghost predicate BackLinked(prev: seq<nat>, q: seq<nat>) {
    && (forall i {:trigger q[i]} :: 0 <= i < |q| ==> 0 < q[i] < |prev|)
    && (forall i {:trigger prev[q[i]]} :: 0 <= i < |q| ==> prev[q[i]] == At(q, i - 1))
  }

  lemma BackLinkedAppend(prev: seq<nat>, q: seq<nat>, t: nat)
    requires BackLinked(prev, q) && 0 < t < |prev| && prev[t] == Final(q)
    ensures BackLinked(prev, q + [t])
  {
    var r := q + [t];
    forall i {:trigger prev[r[i]]} | 0 <= i < |r| ensures prev[r[i]] == At(r, i - 1) {
      if i < |q| { assert r[i] == q[i]; assert prev[q[i]] == At(q, i - 1); }
    }
  }

  lemma BackLinkedFrame(prev: seq<nat>, prev': seq<nat>, q: seq<nat>)
    requires BackLinked(prev, q) && |prev'| == |prev|
    requires forall x {:trigger prev'[x]} :: x in q && 0 <= x < |prev| ==> prev'[x] == prev[x]
    ensures BackLinked(prev', q)
  {
    forall i {:trigger prev'[q[i]]} | 0 <= i < |q| ensures prev'[q[i]] == At(q, i - 1) {
      assert q[i] in q;
    }
  }

  lemma BackLinkedPrepend(prev: seq<nat>, q: seq<nat>, t: nat, n: seq<nat>)
    requires Distinct(q) && BackLinked(prev, q) && 0 < t < |prev| && t !in q && |n| == |prev|
    requires n == (if q == [] then prev else prev[q[0] := t])[t := 0]
    ensures BackLinked(n, [t] + q)
  {
    var r := [t] + q;
    forall i {:trigger n[r[i]]} | 0 <= i < |r| ensures n[r[i]] == At(r, i - 1) {
      if i > 0 {
        assert r[i] == q[i - 1] && q[i - 1] in q;
        assert prev[q[i - 1]] == At(q, i - 2);
        if i > 1 { assert q[i - 1] != q[0]; }
      }
    }
  }

  lemma BackLinkedDrop(prev: seq<nat>, q: seq<nat>, j: nat, n: seq<nat>)
    requires Distinct(q) && BackLinked(prev, q) && j < |q| && |n| == |prev|
    requires n == (if j + 1 < |q| then prev[q[j + 1] := prev[q[j]]] else prev)[q[j] := 0]
    ensures BackLinked(n, Drop(q, j))
  {
    var r := Drop(q, j);
    assert prev[q[j]] == At(q, j - 1);
    forall i {:trigger n[r[i]]} | 0 <= i < |r| ensures n[r[i]] == At(r, i - 1) {
      var k := if i < j then i else i + 1;
      assert r[i] == q[k] && q[k] != q[j];
      assert prev[q[k]] == At(q, k - 1);
      if j + 1 < |q| && k != j + 1 { assert q[k] != q[j + 1]; }
    }
  }

  lemma NoPrevMeansHead(prev: seq<nat>, q: seq<nat>, t: nat)
    requires BackLinked(prev, q) && t < |prev| && prev[t] == 0 && First(q) != t
    ensures t !in q
  {
    forall i | 0 <= i < |q| ensures q[i] != t {
      assert prev[q[i]] == At(q, i - 1);
    }
  }

  /** Doubly linked FIFO with constant-time removal. */
  class RecvWaitQueue {
    const next: array<nat>
    const prev: array<nat>
    var head: nat
    var tail: nat
    ghost var q: seq<nat>

    ghost predicate Valid()
      reads this, next, prev
    {
      && next.Length == prev.Length && next != prev
      && Linked(next[..], q) && BackLinked(prev[..], q) && head == First(q) && tail == Final(q)
    }

    constructor (forwards: array<nat>, backwards: array<nat>)
      requires forwards.Length == backwards.Length && forwards != backwards
      ensures Valid() && q == [] && next == forwards && prev == backwards
    {
      next, prev, head, tail, q := forwards, backwards, 0, 0, [];
    }

    method Push(t: nat)
      requires Valid() && 0 < t < next.Length && t !in q
      modifies this, next, prev
      ensures Valid() && q == old(q) + [t]
    {
      prev[t] := tail;
      next[t] := 0;
      LinkedFrame(old(next[..]), next[..], q);
      BackLinkedFrame(old(prev[..]), prev[..], q);
      LinkedAppend(next[..], q, t);
      BackLinkedAppend(prev[..], q, t);
      if tail == 0 {
        head, tail := t, t;
      } else {
        next[tail] := t;
        tail := t;
      }
      q := q + [t];
    }

    method PushFront(t: nat)
      requires Valid() && 0 < t < next.Length && t !in q
      modifies this, next, prev
      ensures Valid() && q == [t] + old(q)
    {
      prev[t] := 0;
      next[t] := head;
      LinkedFrame(old(next[..]), next[..], q);
      LinkedPrepend(next[..], q, t);
      if head == 0 {
        tail := t;
      } else {
        prev[head] := t;
      }
      BackLinkedPrepend(old(prev[..]), q, t, prev[..]);
      head := t;
      q := [t] + q;
    }

    method Pop() returns (t: nat)
      requires Valid()
      modifies this, next, prev
      ensures Valid() && t == First(old(q)) && q == (if old(q) == [] then [] else old(q)[1..])
      ensures t != 0 ==> next[t] == 0 && prev[t] == 0
    {
      if head == 0 { return 0; }
      t := head;
      assert prev[..][q[0]] == 0 && next[..][q[0]] == At(q, 1);
      head := next[t];
      if head == 0 {
        tail := 0;
      } else {
        prev[head] := 0;
      }
      prev[t] := 0;
      next[t] := 0;
      LinkedDrop(old(next[..]), q, 0, next[..]);
      BackLinkedDrop(old(prev[..]), q, 0, prev[..]);
      q := Drop(q, 0);
    }

    /** Constant-time removal of a link that stands in this queue or in none; the null
        link is refused. */
    method Remove(t: nat) returns (found: bool)
      requires Valid() && t < next.Length && (t != 0 && t !in q ==> prev[t] == 0)
      modifies this, next, prev
      ensures Valid() && (found <==> t in old(q))
      ensures !found ==> q == old(q)
      ensures found ==> (exists j ::
        0 <= j < |old(q)| && old(q)[j] == t && q == Drop(old(q), j)) && next[t] == 0 && prev[t] == 0
    {
      if t == 0 { return false; }
      var before, after := prev[t], next[t];
      if before == 0 {
        if head != t {
          NoPrevMeansHead(prev[..], q, t);
          return false;
        }
      }
      ghost var j: int := IndexOf(q, t);
      assert prev[..][q[j]] == At(q, j - 1) && next[..][q[j]] == At(q, j + 1);
      if before == 0 {
        head := after;
      } else {
        next[before] := after;
      }
      if after == 0 {
        tail := before;
      } else {
        prev[after] := before;
      }
      prev[t] := 0;
      next[t] := 0;
      LinkedDrop(old(next[..]), q, j, next[..]);
      BackLinkedDrop(old(prev[..]), q, j, prev[..]);
      q := Drop(q, j);
      return true;
    }
  }
}
