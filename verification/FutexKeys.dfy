/** Futex waiters seen per key: which threads of a bucket wait on a given word. */
module FutexKeys {
  import opened Bits
  import opened WaitQueues

  const BUCKETS: nat := 64
  const MIX_SPACE: nat := 0x517c_c1b7_2722_0a95
  const MIX_ADDR: nat := 0x6c62_272e_07bb_0142
  const WORD: nat := 0x1_0000_0000_0000_0000

  datatype Reason = Runnable | Blocked | TimedBlocked

  /** A thread's wait: the word's address (0 when not waiting), its address space, and
      why the thread is blocked. */
  datatype Waiting = Waiting(addr: nat, space: nat, reason: Reason)

  function Hash(space: nat, addr: nat): (b: nat)
    ensures b < BUCKETS
  {
    Xor(Times(space, MIX_SPACE) % WORD, Times(addr, MIX_ADDR) % WORD) / 16 % BUCKETS
  }

  predicate Waits(w: Waiting, space: nat, addr: nat) { w.space == space && w.addr == addr }

  ghost predicate InRange(ws: seq<Waiting>, q: seq<nat>) {
    forall i {:trigger q[i]} :: 0 <= i < |q| ==> q[i] < |ws|
  }

  /** The threads of q that wait on the word, or those that do not, in order. */
  ghost function Keep(ws: seq<Waiting>, q: seq<nat>, space: nat, addr: nat, yes: bool): seq<nat>
    requires InRange(ws, q)
  {
    if q == [] then [] else
      var t := q[|q| - 1];
      Keep(ws, q[..|q| - 1], space, addr, yes) + if Waits(ws[t], space, addr) == yes then [t] else []
  }

  lemma KeepOne(ws: seq<Waiting>, q: seq<nat>, t: nat, space: nat, addr: nat, yes: bool)
    requires InRange(ws, q) && t < |ws|
    ensures Keep(ws, q + [t], space, addr, yes) == Keep(ws, q, space, addr, yes) +
      if Waits(ws[t], space, addr) == yes then [t] else []
  {
    assert (q + [t])[..|q|] == q;
  }

  lemma {:induction false} KeepConcat(ws: seq<Waiting>, p: seq<nat>, q: seq<nat>, space: nat, addr: nat, yes: bool)
    requires InRange(ws, p) && InRange(ws, q)
    ensures Keep(ws, p + q, space, addr, yes) == Keep(ws, p, space, addr, yes) + Keep(ws, q, space, addr, yes)
    decreases |q|
  {
    if q == [] {
      assert p + q == p;
    } else {
      var r := q[..|q| - 1];
      KeepConcat(ws, p, r, space, addr, yes);
      KeepOne(ws, p + r, q[|q| - 1], space, addr, yes);
      assert p + q == (p + r) + [q[|q| - 1]];
    }
  }

  lemma {:induction false} KeepMembers(ws: seq<Waiting>, q: seq<nat>, space: nat, addr: nat, yes: bool)
    requires InRange(ws, q)
    ensures InRange(ws, Keep(ws, q, space, addr, yes))
    ensures forall t {:trigger t in Keep(ws, q, space, addr, yes)} :: t in Keep(ws, q, space, addr, yes) <==>
      t in q && Waits(ws[t], space, addr) == yes
    ensures Distinct(q) ==> Distinct(Keep(ws, q, space, addr, yes))
  {
    if q != [] {
      var r := q[..|q| - 1];
      KeepMembers(ws, r, space, addr, yes);
      assert q == r + [q[|q| - 1]];
      var k := Keep(ws, r, space, addr, yes);
      if Distinct(q) {
        assert q[|q| - 1] !in r;
        assert q[|q| - 1] !in k && Distinct(k);
        assert Distinct(k + [q[|q| - 1]]);
      }
    }
  }

  /** Removing one key's waiters leaves every other key's alone. */
  lemma {:induction false} KeepOther(ws: seq<Waiting>, q: seq<nat>, space: nat, addr: nat, space2: nat, addr2: nat)
    requires InRange(ws, q) && InRange(ws, Keep(ws, q, space, addr, false))
    ensures Keep(ws, Keep(ws, q, space, addr, false), space2, addr2, true)
      == if (space2, addr2) == (space, addr) then [] else Keep(ws, q, space2, addr2, true)
  {
    if q != [] {
      var r, t := q[..|q| - 1], q[|q| - 1];
      KeepMembers(ws, r, space, addr, false);
      KeepOther(ws, r, space, addr, space2, addr2);
      if Waits(ws[t], space, addr) {
        assert Keep(ws, q, space, addr, false) == Keep(ws, r, space, addr, false);
      } else {
        KeepOne(ws, Keep(ws, r, space, addr, false), t, space2, addr2, true);
      }
    }
  }

  lemma {:induction false} KeepSameWaits(ws: seq<Waiting>, ws': seq<Waiting>, q: seq<nat>, space: nat, addr: nat,
      yes: bool)
    requires InRange(ws, q) && |ws'| == |ws|
    requires forall t {:trigger ws'[t]} :: t in q && t < |ws| ==>
      ws'[t].addr == ws[t].addr && ws'[t].space == ws[t].space
    ensures Keep(ws', q, space, addr, yes) == Keep(ws, q, space, addr, yes)
  {
    if q != [] {
      assert q[|q| - 1] in q;
      KeepSameWaits(ws, ws', q[..|q| - 1], space, addr, yes);
    }
  }

  lemma {:induction false} KeepNone(ws: seq<Waiting>, q: seq<nat>, space: nat, addr: nat)
    requires InRange(ws, q) && forall t {:trigger t in q} :: t in q ==> !Waits(ws[t], space, addr)
    ensures Keep(ws, q, space, addr, true) == []
  {
    if q != [] {
      var r := q[..|q| - 1];
      assert q[|q| - 1] in q && forall t {:trigger t in r} :: t in r ==> t in q;
      KeepNone(ws, r, space, addr);
    }
  }

  // ---- the table ----------------------------------------------------------

  /** Bucket b: a linked queue of threads whose key hashes to b. */
  ghost predicate BucketOk(ws: seq<Waiting>, next: seq<nat>, head: nat, tail: nat, q: seq<nat>, b: nat) {
    && |next| == |ws| && Linked(next, q) && head == First(q) && tail == Final(q)
    && (forall t {:trigger t in q} :: t in q ==>
          t < |ws| && ws[t].addr != 0 && Hash(ws[t].space, ws[t].addr) == b && !ws[t].reason.Runnable?)
  }

  /** A thread waits exactly when it stands in the bucket of its key. */
  ghost predicate TableOk(ws: seq<Waiting>, next: seq<nat>, head: seq<nat>, tail: seq<nat>, qs: seq<seq<nat>>) {
    && |next| == |ws| && |head| == |tail| == |qs| == BUCKETS
    && (forall b {:trigger qs[b]} :: 0 <= b < BUCKETS ==> BucketOk(ws, next, head[b], tail[b], qs[b], b))
    && (forall t {:trigger ws[t]} :: 0 < t < |ws| && ws[t].addr != 0 ==> t in qs[Hash(ws[t].space, ws[t].addr)])
  }

  /** The waiters of one word, longest waiting first. */
  ghost function WaitersIn(ws: seq<Waiting>, qs: seq<seq<nat>>, space: nat, addr: nat): seq<nat>
    requires |qs| == BUCKETS && InRange(ws, qs[Hash(space, addr)])
  {
    Keep(ws, qs[Hash(space, addr)], space, addr, true)
  }

  lemma BucketInRange(ws: seq<Waiting>, next: seq<nat>, head: seq<nat>, tail: seq<nat>, qs: seq<seq<nat>>, b: nat)
    requires TableOk(ws, next, head, tail, qs) && b < BUCKETS
    ensures InRange(ws, qs[b]) && Distinct(qs[b])
  {
    assert BucketOk(ws, next, head[b], tail[b], qs[b], b);
  }

  /** Threads of different buckets differ. */
  lemma BucketsApart(ws: seq<Waiting>, next: seq<nat>, head: seq<nat>, tail: seq<nat>, qs: seq<seq<nat>>, b: nat,
      c: nat, t: nat)
    requires TableOk(ws, next, head, tail, qs) && b < BUCKETS && c < BUCKETS && b != c && t in qs[b]
    ensures t !in qs[c] && t < |ws| && ws[t].addr != 0
  {
    assert BucketOk(ws, next, head[b], tail[b], qs[b], b) && BucketOk(ws, next, head[c], tail[c], qs[c], c);
  }

  lemma IdleNotQueued(ws: seq<Waiting>, next: seq<nat>, head: seq<nat>, tail: seq<nat>, qs: seq<seq<nat>>, t: nat,
      b: nat)
    requires TableOk(ws, next, head, tail, qs) && t < |ws| && ws[t].addr == 0 && b < BUCKETS
    ensures t !in qs[b]
  {
    assert BucketOk(ws, next, head[b], tail[b], qs[b], b);
  }

  /** A bucket none of whose threads or links changed. */
  lemma BucketFrame(ws: seq<Waiting>, next: seq<nat>, ws': seq<Waiting>, next': seq<nat>, head: nat, tail: nat,
      q: seq<nat>, b: nat)
    requires BucketOk(ws, next, head, tail, q, b) && |ws'| == |ws| == |next'|
    requires forall t {:trigger t in q} :: t in q && t < |ws| ==> ws'[t] == ws[t] && next'[t] == next[t]
    ensures BucketOk(ws', next', head, tail, q, b)
  {
    LinkedFrame(next, next', q);
  }
}
