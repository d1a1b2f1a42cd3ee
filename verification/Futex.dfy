/** The futex table: threads waiting on user words, hashed into buckets, each bucket a
    linked queue.  Every operation is atomic under its bucket's lock. */
module Futex {
  import opened WaitQueues
  import opened FutexKeys

  datatype Status = Done | InvalidArgument | WouldBlock | Cancelled

  function Min(a: nat, b: nat): nat { if a < b then a else b }

  /** Only bucket b changed: the others keep their threads and links. */
  ghost predicate OnlyBucket(ws: seq<Waiting>, next: seq<nat>, head: seq<nat>, tail: seq<nat>, qs: seq<seq<nat>>,
                             ws': seq<Waiting>, next': seq<nat>, head': seq<nat>, tail': seq<nat>, qs': seq<seq<nat>>,
                             b: nat) {
    && |ws'| == |ws| == |next| == |next'| && |head'| == |tail'| == |qs'| == |head| == |tail| == |qs| == BUCKETS
      && b < BUCKETS
    && (forall c {:trigger qs'[c]} :: 0 <= c < BUCKETS && c != b ==>
      qs'[c] == qs[c] && head'[c] == head[c] && tail'[c] == tail[c])
    && (forall t {:trigger ws'[t]} :: 0 <= t < |ws| && ws'[t] != ws[t] ==> t in qs[b] || t in qs'[b])
    && (forall t {:trigger next'[t]} :: 0 <= t < |ws| && next'[t] != next[t] ==> t in qs[b] || t in qs'[b])
  }

  lemma OtherBuckets(ws: seq<Waiting>, next: seq<nat>, head: seq<nat>, tail: seq<nat>, qs: seq<seq<nat>>,
                     ws': seq<Waiting>, next': seq<nat>, head': seq<nat>, tail': seq<nat>, qs': seq<seq<nat>>, b: nat,
                     c: nat)
    requires TableOk(ws, next, head, tail, qs)
    requires OnlyBucket(ws, next, head, tail, qs, ws', next', head', tail', qs', b) && c < BUCKETS && c != b
    requires forall t {:trigger t in qs'[b]} :: t in qs'[b] ==> t < |ws| && (t in qs[b] || ws[t].addr == 0)
    ensures BucketOk(ws', next', head'[c], tail'[c], qs'[c], c)
    ensures forall t {:trigger t in qs[c]} :: t in qs[c] ==> t < |ws| && ws'[t] == ws[t]
  {
    assert BucketOk(ws, next, head[c], tail[c], qs[c], c);
    forall t {:trigger t in qs[c]} | t in qs[c] && t < |ws| ensures ws'[t] == ws[t] && next'[t] == next[t] {
      BucketsApart(ws, next, head, tail, qs, c, b, t);
    }
    BucketFrame(ws, next, ws', next', head[c], tail[c], qs[c], c);
    assert qs'[c] == qs[c];
  }

  /** One bucket rewritten correctly leaves the table correct. */
  lemma TableKept(ws: seq<Waiting>, next: seq<nat>, head: seq<nat>, tail: seq<nat>, qs: seq<seq<nat>>,
                  ws': seq<Waiting>, next': seq<nat>, head': seq<nat>, tail': seq<nat>, qs': seq<seq<nat>>, b: nat)
    requires TableOk(ws, next, head, tail, qs)
    requires OnlyBucket(ws, next, head, tail, qs, ws', next', head', tail', qs', b)
    requires BucketOk(ws', next', head'[b], tail'[b], qs'[b], b)
    requires forall t {:trigger t in qs'[b]} :: t in qs'[b] ==> t < |ws| && (t in qs[b] || ws[t].addr == 0)
    requires forall t {:trigger t in qs[b]} :: t in qs[b] && t < |ws| ==> t in qs'[b] || ws'[t].addr == 0
    ensures TableOk(ws', next', head', tail', qs')
  {
    hide BucketOk;
    forall c {:trigger qs'[c]} | 0 <= c < BUCKETS ensures BucketOk(ws', next', head'[c], tail'[c], qs'[c], c) {
      if c != b { OtherBuckets(ws, next, head, tail, qs, ws', next', head', tail', qs', b, c); }
    }
    forall t {:trigger ws'[t]} | 0 < t < |ws| && ws'[t].addr != 0
      ensures t in qs'[Hash(ws'[t].space, ws'[t].addr)]
    {
      if t in qs'[b] { QueuedHash(ws', next', head'[b], tail'[b], qs'[b], b, t); }
    }
  }

  lemma QueuedHash(ws: seq<Waiting>, next: seq<nat>, head: nat, tail: nat, q: seq<nat>, b: nat, t: nat)
    requires BucketOk(ws, next, head, tail, q, b) && t in q
    ensures t < |ws| && Hash(ws[t].space, ws[t].addr) == b
  {
  }

  /** Keys of other buckets keep their waiters. */
  lemma OtherKeys(ws: seq<Waiting>, next: seq<nat>, head: seq<nat>, tail: seq<nat>, qs: seq<seq<nat>>,
                  ws': seq<Waiting>, next': seq<nat>, head': seq<nat>, tail': seq<nat>, qs': seq<seq<nat>>, b: nat,
                  space: nat, addr: nat)
    requires TableOk(ws, next, head, tail, qs) && TableOk(ws', next', head', tail', qs')
    requires OnlyBucket(ws, next, head, tail, qs, ws', next', head', tail', qs', b) && Hash(space, addr) != b
    requires forall t {:trigger t in qs'[b]} :: t in qs'[b] ==> t < |ws| && (t in qs[b] || ws[t].addr == 0)
    ensures InRange(ws, qs[Hash(space, addr)]) && InRange(ws', qs'[Hash(space, addr)])
    ensures WaitersIn(ws', qs', space, addr) == WaitersIn(ws, qs, space, addr)
  {
    hide BucketOk, Hash;
    var c := Hash(space, addr);
    BucketInRange(ws, next, head, tail, qs, c);
    OtherBuckets(ws, next, head, tail, qs, ws', next', head', tail', qs', b, c);
    KeepSameWaits(ws, ws', qs[c], space, addr, true);
    assert qs'[c] == qs[c];
  }

  // ---- waiting ------------------------------------------------------------

  /** ws' and qs' differ from the table by one new waiter t at the end of bucket b. */
  ghost predicate Enqueued(ws: seq<Waiting>, qs: seq<seq<nat>>, ws': seq<Waiting>, qs': seq<seq<nat>>, b: nat, t: nat,
      w: Waiting) {
    && |qs| == BUCKETS && b == Hash(w.space, w.addr) && 0 < t < |ws| && ws[t].addr == 0
    && w.addr != 0 && !w.reason.Runnable? && ws' == ws[t := w] && qs' == qs[b := qs[b] + [t]]
  }

  lemma EnqueuedTable(ws: seq<Waiting>, next: seq<nat>, head: seq<nat>, tail: seq<nat>, qs: seq<seq<nat>>,
                      ws': seq<Waiting>, next': seq<nat>, head': seq<nat>, tail': seq<nat>, qs': seq<seq<nat>>, b: nat,
                      t: nat, w: Waiting)
    requires TableOk(ws, next, head, tail, qs) && Enqueued(ws, qs, ws', qs', b, t, w)
    requires OnlyBucket(ws, next, head, tail, qs, ws', next', head', tail', qs', b)
    requires Linked(next', qs'[b]) && head'[b] == First(qs'[b]) && tail'[b] == Final(qs'[b])
    ensures TableOk(ws', next', head', tail', qs')
  {
    hide Hash;
    assert BucketOk(ws, next, head[b], tail[b], qs[b], b);
    assert forall x {:trigger x in qs'[b]} :: x in qs'[b] <==> x in qs[b] || x == t;
    TableKept(ws, next, head, tail, qs, ws', next', head', tail', qs', b);
  }

  /** The new waiter stands last among those of its word, and nowhere else. */
  lemma EnqueuedWaiters(ws: seq<Waiting>, next: seq<nat>, head: seq<nat>, tail: seq<nat>, qs: seq<seq<nat>>,
                        ws': seq<Waiting>, next': seq<nat>, head': seq<nat>, tail': seq<nat>, qs': seq<seq<nat>>,
                        b: nat, t: nat, w: Waiting,
                        space: nat, addr: nat)
    requires TableOk(ws, next, head, tail, qs) && TableOk(ws', next', head', tail', qs')
      && Enqueued(ws, qs, ws', qs', b, t, w)
    requires OnlyBucket(ws, next, head, tail, qs, ws', next', head', tail', qs', b)
    ensures InRange(ws, qs[Hash(space, addr)]) && InRange(ws', qs'[Hash(space, addr)])
    ensures WaitersIn(ws', qs', space, addr) == WaitersIn(ws, qs, space, addr) +
      if (space, addr) == (w.space, w.addr) then [t] else []
  {
    hide BucketOk, Hash;
    BucketInRange(ws, next, head, tail, qs, b);
    if Hash(space, addr) == b {
      IdleNotQueued(ws, next, head, tail, qs, t, b);
      KeepSameWaits(ws, ws', qs[b], space, addr, true);
      KeepOne(ws', qs[b], t, space, addr, true);
    } else {
      OtherKeys(ws, next, head, tail, qs, ws', next', head', tail', qs', b, space, addr);
    }
  }

  // ---- leaving a bucket ---------------------------------------------------

  /** The waiters after some threads of bucket b left: taken is gone, and what is left
      of the bucket is rest. */
  ghost predicate Left(ws: seq<Waiting>, qs: seq<seq<nat>>, ws': seq<Waiting>, qs': seq<seq<nat>>, b: nat,
      rest: seq<nat>) {
    && |qs| == BUCKETS && b < BUCKETS && |ws'| == |ws| && qs' == qs[b := rest] && Distinct(rest)
    && (forall t {:trigger t in rest} :: t in rest ==> t in qs[b])
    && (forall t {:trigger ws'[t]} :: 0 <= t < |ws| && (t !in qs[b] || t in rest) ==> ws'[t] == ws[t])
    && (forall t {:trigger ws'[t]} :: 0 <= t < |ws| && t in qs[b] && t !in rest ==> ws'[t].addr == 0)
  }

  lemma LeftTable(ws: seq<Waiting>, next: seq<nat>, head: seq<nat>, tail: seq<nat>, qs: seq<seq<nat>>,
                  ws': seq<Waiting>, next': seq<nat>, head': seq<nat>, tail': seq<nat>, qs': seq<seq<nat>>, b: nat,
                  rest: seq<nat>)
    requires TableOk(ws, next, head, tail, qs) && Left(ws, qs, ws', qs', b, rest)
    requires OnlyBucket(ws, next, head, tail, qs, ws', next', head', tail', qs', b)
    requires Linked(next', rest) && head'[b] == First(rest) && tail'[b] == Final(rest)
    ensures TableOk(ws', next', head', tail', qs')
  {
    hide Hash, Linked;
    assert BucketOk(ws, next, head[b], tail[b], qs[b], b);
    assert qs'[b] == rest;
    TableKept(ws, next, head, tail, qs, ws', next', head', tail', qs', b);
  }

  lemma LeftWaiters(ws: seq<Waiting>, next: seq<nat>, head: seq<nat>, tail: seq<nat>, qs: seq<seq<nat>>,
                    ws': seq<Waiting>, next': seq<nat>, head': seq<nat>, tail': seq<nat>, qs': seq<seq<nat>>, b: nat,
                    rest: seq<nat>,
                    space: nat, addr: nat)
    requires TableOk(ws, next, head, tail, qs) && TableOk(ws', next', head', tail', qs')
      && Left(ws, qs, ws', qs', b, rest)
    requires OnlyBucket(ws, next, head, tail, qs, ws', next', head', tail', qs', b)
    ensures InRange(ws, qs[Hash(space, addr)]) && InRange(ws', qs'[Hash(space, addr)]) && InRange(ws, rest)
    ensures WaitersIn(ws', qs', space, addr)
      == if Hash(space, addr) == b then Keep(ws, rest, space, addr, true) else WaitersIn(ws, qs, space, addr)
  {
    hide BucketOk, Hash;
    BucketInRange(ws, next, head, tail, qs, b);
    BucketInRange(ws', next', head', tail', qs', b);
    assert qs'[b] == rest;
    if Hash(space, addr) == b {
      KeepSameWaits(ws, ws', rest, space, addr, true);
    } else {
      OtherKeys(ws, next, head, tail, qs, ws', next', head', tail', qs', b, space, addr);
    }
  }

  lemma DropWaiters(ws: seq<Waiting>, q: seq<nat>, j: nat, space: nat, addr: nat)
    requires InRange(ws, q) && j < |q|
    ensures InRange(ws, Drop(q, j)) && InRange(ws, q[..j]) && InRange(ws, q[j + 1..])
    ensures
      var before, after := Keep(ws, q[..j], space, addr, true), Keep(ws, q[j + 1..], space, addr, true);
      && Keep(ws, Drop(q, j), space, addr, true) == before + after
      && Keep(ws, q, space, addr, true) == before + (if Waits(ws[q[j]], space, addr) then [q[j]] else []) + after
  {
    KeepConcat(ws, q[..j], q[j + 1..], space, addr, true);
    KeepOne(ws, q[..j], q[j], space, addr, true);
    KeepConcat(ws, q[..j] + [q[j]], q[j + 1..], space, addr, true);
    assert q == (q[..j] + [q[j]]) + q[j + 1..];
  }

  class FutexTable {
    const waits: array<Waiting>
    const next: array<nat>
    const head: array<nat>
    const tail: array<nat>
    /** Threads handed to the scheduler, in order. */
    var ready: seq<nat>
    ghost var queues: seq<seq<nat>>

    ghost predicate Apart()
      reads this
    {
      next != head && next != tail && head != tail
    }

    ghost predicate Valid()
      reads this, waits, next, head, tail
    {
      Apart() && TableOk(waits[..], next[..], head[..], tail[..], queues)
    }

    constructor (threads: nat)
      ensures Valid() && fresh(waits) && fresh(next) && fresh(head) && fresh(tail)
      ensures waits.Length == threads && ready == []
      ensures forall space, addr :: Waiters(space, addr) == []
    {
      waits := new Waiting[threads](_ => Waiting(0, 0, Runnable));
      next := new nat[threads](_ => 0);
      head := new nat[BUCKETS](_ => 0);
      tail := new nat[BUCKETS](_ => 0);
      ready := [];
      queues := seq(BUCKETS, _ => []);
      new;
      forall b {:trigger queues[b]} | 0 <= b < BUCKETS
        ensures queues[b] == [] && BucketOk(waits[..], next[..], head[..][b], tail[..][b], queues[b], b)
      {
      }
    }

    ghost function Waiters(space: nat, addr: nat): seq<nat>
      requires Valid()
      reads this, waits, next, head, tail
    {
      BucketInRange(waits[..], next[..], head[..], tail[..], queues, Hash(space, addr));
      WaitersIn(waits[..], queues, space, addr)
    }

    /** Append a thread to its bucket. */
    method BucketInsert(b: nat, t: nat)
      requires Apart() && head.Length == tail.Length == |queues| == BUCKETS && b < BUCKETS
      requires 0 < t < next.Length && next[t] == 0 && t !in queues[b]
      requires Linked(next[..], queues[b]) && head[b] == First(queues[b]) && tail[b] == Final(queues[b])
      modifies `queues, next, head, tail
      ensures queues == old(queues)[b := old(queues[b]) + [t]]
      ensures Linked(next[..], queues[b]) && head[b] == First(queues[b]) && tail[b] == Final(queues[b])
      ensures forall c {:trigger head[c]} {:trigger tail[c]} :: 0 <= c < BUCKETS && c != b ==>
        head[c] == old(head[c]) && tail[c] == old(tail[c])
      ensures forall x {:trigger next[x]} :: 0 <= x < next.Length && x !in old(queues[b]) ==> next[x] == old(next[x])
    {
      LinkedAppend(next[..], queues[b], t);
      if head[b] == 0 {
        head[b] := t;
      } else {
        assert tail[b] in queues[b];
        next[tail[b]] := t;
      }
      tail[b] := t;
      queues := queues[b := queues[b] + [t]];
    }

    /** Block the current thread on the word if it still holds the expected value, with
        or without a timeout. */
    method Wait(current: nat, space: nat, addr: nat, word: nat, expected: nat, timed: bool, timeout: nat)
      returns (status: Status)
      requires Valid() && addr != 0 && current < waits.Length && (current != 0 ==> waits[current].addr == 0)
      modifies this, waits, next, head, tail
      ensures Valid() && ready == old(ready)
      ensures status == if current == 0 || space == 0 then InvalidArgument else if word != expected then WouldBlock
                        else if timed && timeout == 0 then Cancelled else Done
      ensures status.Done? ==> forall s: nat, a: nat ::
        Waiters(s, a) == old(Waiters(s, a)) + if (s, a) == (space, addr) then [current] else []
      ensures !status.Done? ==> queues == old(queues) && waits[..] == old(waits[..])
    {
      if current == 0 || space == 0 { return InvalidArgument; }
      var b := Hash(space, addr);
      if word != expected { return WouldBlock; }
      if timed && timeout == 0 { return Cancelled; }
      var w := Waiting(addr, space, if timed then TimedBlocked else Blocked);
      BeginWait(current, b, w);
      return Done;
    }

    method BeginWait(t: nat, b: nat, w: Waiting)
      requires Valid() && 0 < t < waits.Length && waits[t].addr == 0 && w.addr != 0 && b == Hash(w.space, w.addr)
        && !w.reason.Runnable?
      modifies this, waits, next, head, tail
      ensures Valid() && ready == old(ready)
      ensures forall s: nat, a: nat ::
        Waiters(s, a) == old(Waiters(s, a)) + if (s, a) == (w.space, w.addr) then [t] else []
    {
      hide Hash;
      ghost var ws, nx, hd, tl, qs := waits[..], next[..], head[..], tail[..], queues;
      IdleNotQueued(ws, nx, hd, tl, qs, t, b);
      assert BucketOk(ws, nx, hd[b], tl[b], qs[b], b);
      waits[t] := w;
      next[t] := 0;
      LinkedFrame(nx, next[..], qs[b]);
      BucketInsert(b, t);
      hide BucketOk, TableOk, Linked;
      assert OnlyBucket(ws, nx, hd, tl, qs, waits[..], next[..], head[..], tail[..], queues, b);
      EnqueuedTable(ws, nx, hd, tl, qs, waits[..], next[..], head[..], tail[..], queues, b, t, w);
      forall s: nat, a: nat
        ensures Waiters(s, a) == old(Waiters(s, a)) + if (s, a) == (w.space, w.addr) then [t] else []
      {
        EnqueuedWaiters(ws, nx, hd, tl, qs, waits[..], next[..], head[..], tail[..], queues, b, t, w, s, a);
      }
    }

    /** Unlink t from bucket b if it is there. */
    method BucketRemove(b: nat, t: nat) returns (found: bool, ghost j: nat)
      requires Apart() && head.Length == tail.Length == |queues| == BUCKETS && b < BUCKETS && 0 < t < next.Length
      requires Linked(next[..], queues[b]) && head[b] == First(queues[b]) && tail[b] == Final(queues[b])
      modifies `queues, next, head, tail
      ensures found <==> t in old(queues[b])
      ensures found ==> j < |old(queues[b])| && old(queues[b])[j] == t && queues == old(queues)[b :=
        Drop(old(queues[b]), j)]
      ensures !found ==>
        queues == old(queues) && next[..] == old(next[..]) && head[..] == old(head[..]) && tail[..] == old(tail[..])
      ensures Linked(next[..], queues[b]) && head[b] == First(queues[b]) && tail[b] == Final(queues[b])
      ensures forall c {:trigger head[c]} {:trigger tail[c]} :: 0 <= c < BUCKETS && c != b ==>
        head[c] == old(head[c]) && tail[c] == old(tail[c])
      ensures forall x {:trigger next[x]} :: 0 <= x < next.Length && x !in old(queues[b]) ==> next[x] == old(next[x])
    {
      var prev, node := 0, head[b];
      j := 0;
      ghost var q := queues[b];
      while node != 0
        invariant 0 <= j <= |q| && node == At(q, j) && prev == At(q, j as int - 1) && t !in q[..j]
        invariant unchanged(this) && unchanged(next) && unchanged(head) && unchanged(tail)
        decreases |q| - j
      {
        assert next[..][q[j]] == At(q, j + 1);
        if node == t {
          assert t in q && (prev != 0 ==> prev in q);
          Unlink(b, prev, node, j);
          return true, j;
        }
        prev := node;
        node := next[node];
        j := j + 1;
      }
      assert q[..j] == q;
      return false, j;
    }

    /** Unlink the j-th thread of bucket b, whose predecessor is prev. */
    method Unlink(b: nat, prev: nat, t: nat, ghost j: nat)
      requires Apart() && head.Length == tail.Length == |queues| == BUCKETS && b < BUCKETS
      requires Linked(next[..], queues[b]) && head[b] == First(queues[b]) && tail[b] == Final(queues[b])
      requires j < |queues[b]| && queues[b][j] == t && prev == At(queues[b], j as int - 1)
      modifies `queues, next, head, tail
      ensures queues == old(queues)[b := Drop(old(queues[b]), j)] && t < next.Length && next[t] == 0
      ensures Linked(next[..], queues[b]) && head[b] == First(queues[b]) && tail[b] == Final(queues[b])
      ensures forall c {:trigger head[c]} {:trigger tail[c]} :: 0 <= c < BUCKETS && c != b ==>
        head[c] == old(head[c]) && tail[c] == old(tail[c])
      ensures forall x {:trigger next[x]} :: 0 <= x < next.Length && x != t && (prev == 0 || x != prev) ==>
        next[x] == old(next[x])
    {
      ghost var q, was := queues[b], next[..];
      if prev == 0 {
        head[b] := next[t];
      } else {
        next[prev] := next[t];
      }
      if tail[b] == t { tail[b] := prev; }
      next[t] := 0;
      LinkedDrop(was, q, j, next[..]);
      queues := queues[b := Drop(q, j)];
    }

    /** Take a thread out of the table, if it waits. */
    method RemoveThread(t: nat) returns (ghost before: seq<nat>, ghost after: seq<nat>)
      requires Valid() && 0 < t < waits.Length
      modifies this, waits, next, head, tail
      ensures Valid() && ready == old(ready) && waits[t].addr == 0
      ensures old(waits[t].addr) == 0 ==> queues == old(queues) && waits[..] == old(waits[..])
      ensures old(waits[t].addr) != 0 ==>
        && old(Waiters(waits[t].space, waits[t].addr)) == before + [t] + after
        && Waiters(old(waits[t].space), old(waits[t].addr)) == before + after
      ensures old(waits[t].addr) != 0 ==> forall s: nat, a: nat ::
        (s, a) != (old(waits[t].space), old(waits[t].addr)) ==>
        Waiters(s, a) == old(Waiters(s, a))
    {
      before, after := [], [];
      if waits[t].addr == 0 { return; }
      hide Hash;
      var b := Hash(waits[t].space, waits[t].addr);
      ghost var ws, nx, hd, tl, qs, w := waits[..], next[..], head[..], tail[..], queues, waits[t];
      assert BucketOk(ws, nx, hd[b], tl[b], qs[b], b);
      assert ws[t] == w && t in qs[b];
      var found; ghost var j;
      found, j := BucketRemove(b, t);
      hide BucketOk, TableOk, Linked, Keep, Distinct, Waits, First, Final;
      ghost var mid := next[..];
      next[t] := 0;
      waits[t] := Waiting(0, 0, waits[t].reason);
      BucketInRange(ws, nx, hd, tl, qs, b);
      Rest(qs[b], j);
      LinkedFrame(mid, next[..], queues[b]);
      Removed(ws, nx, hd, tl, qs, waits[..], next[..], head[..], tail[..], queues, b, t, j);
      forall s: nat, a: nat
        ensures InRange(ws, qs[Hash(s, a)])
        ensures RemovedFrom(Waiters(s, a), WaitersIn(ws, qs, s, a), ws, qs[b], j, s, a)
      {
        RemovedKey(ws, nx, hd, tl, qs, waits[..], next[..], head[..], tail[..], queues, b, t, j, s, a);
      }
      before, after := Keep(ws, qs[b][..j], w.space, w.addr, true), Keep(ws, qs[b][j + 1..], w.space, w.addr, true);
      assert RemovedFrom(Waiters(w.space, w.addr), WaitersIn(ws, qs, w.space, w.addr), ws, qs[b], j, w.space, w.addr);
    }

    /** Move one thread from bucket b to the end of the wake list. */
    method TakeOne(b: nat, prev: nat, node: nat, wakeHead: nat, wakeTail: nat, ghost taken: seq<nat>, ghost j: nat)
      returns (newHead: nat, newTail: nat)
      requires Apart() && head.Length == tail.Length == |queues| == BUCKETS && b < BUCKETS
        && waits.Length == next.Length
      requires Linked(next[..], queues[b]) && head[b] == First(queues[b]) && tail[b] == Final(queues[b])
      requires j < |queues[b]| && queues[b][j] == node && prev == At(queues[b], j as int - 1)
      requires Linked(next[..], taken) && wakeHead == First(taken) && wakeTail == Final(taken)
      requires forall t {:trigger t in taken} :: t in taken ==> t !in queues[b]
      modifies `queues, waits, next, head, tail
      ensures queues == old(queues)[b := Drop(old(queues[b]), j)] && node < waits.Length
      ensures waits[..] == old(waits[..])[node := Waiting(0, 0, old(waits[node]).reason)]
      ensures Linked(next[..], queues[b]) && head[b] == First(queues[b]) && tail[b] == Final(queues[b])
      ensures Linked(next[..], taken + [node]) && newHead == First(taken + [node]) && newTail == node
      ensures forall c {:trigger head[c]} {:trigger tail[c]} :: 0 <= c < BUCKETS && c != b ==>
        head[c] == old(head[c]) && tail[c] == old(tail[c])
      ensures forall x {:trigger next[x]} :: 0 <= x < next.Length && x !in old(queues[b]) && x !in taken ==>
        next[x] == old(next[x])
    {
      hide Linked;
      ghost var q, was := queues[b], next[..];
      InLinked(was, q);
      assert node in q && (prev != 0 ==> prev in q);
      Unlink(b, prev, node, j);
      Rest(q, j);
      LinkedFrame(was, next[..], taken);
      waits[node] := Waiting(0, 0, waits[node].reason);
      ghost var mid := next[..];
      newHead, newTail := WakeAppend(wakeHead, wakeTail, node, taken);
      LinkedFrame(mid, next[..], queues[b]);
    }

    method WakeAppend(wakeHead: nat, wakeTail: nat, node: nat, ghost taken: seq<nat>)
        returns (newHead: nat, newTail: nat)
      requires 0 < node < next.Length && next[node] == 0 && node !in taken
      requires Linked(next[..], taken) && wakeHead == First(taken) && wakeTail == Final(taken)
      modifies next
      ensures Linked(next[..], taken + [node]) && newHead == First(taken + [node]) && newTail == node
      ensures forall x {:trigger next[x]} :: 0 <= x < next.Length && x !in taken ==> next[x] == old(next[x])
    {
      LinkedAppend(next[..], taken, node);
      newHead, newTail := wakeHead, node;
      if wakeHead == 0 {
        newHead := node;
        assert taken + [node] == [node];
      } else {
        assert wakeTail in taken;
        next[wakeTail] := node;
      }
    }

    /** Walk bucket b and move waiters on the word to a wake list until count is reached. */
    method TakeMatching(b: nat, space: nat, addr: nat, count: nat) returns (woken: nat, wakeHead: nat, ghost i: nat)
      requires Valid() && b < BUCKETS
      modifies `queues, waits, next, head, tail
      ensures |queues| == BUCKETS && queues == old(queues)[b := queues[b]] && InRange(old(waits[..]), old(queues[b]))
      ensures i <= |old(queues[b])|
        && Taken(old(waits[..]), old(queues[b]), i, space, addr, waits[..], next[..], queues[b], woken)
      ensures wakeHead == First(TakenThreads(old(waits[..]), old(queues[b]), i, space, addr))
      ensures woken <= count && (i == |old(queues[b])| || woken == count)
      ensures head[b] == First(queues[b]) && tail[b] == Final(queues[b])
      ensures OnlyLinks(old(next[..]), old(head[..]), old(tail[..]), next[..], head[..], tail[..], b, old(queues[b]))
    {
      ghost var ws, q := waits[..], queues[b];
      TakenStarts(ws, next[..], head[..], tail[..], queues, b, space, addr);
      assert head.Length == tail.Length == |queues| == BUCKETS;
      hide Walk, TableOk, Taken, First, Final, TakenThreads, InRange, OnlyLinks;
      ghost var prev, node, wakeTail;
      woken, wakeHead, i, prev, node, wakeTail := WalkBucket(b, space, addr, count, ws, q);
      WalkEnds(ws, q, i, space, addr, waits[..], next[..], queues[b], woken, prev, node, wakeHead, wakeTail);
    }

    method WalkBucket(b: nat, space: nat, addr: nat, count: nat, ghost ws: seq<Waiting>, ghost q: seq<nat>)
      returns (woken: nat, wakeHead: nat, ghost i: nat, ghost last: nat, ghost end: nat, ghost wakeLast: nat)
      requires Apart() && head.Length == tail.Length == |queues| == BUCKETS && b < BUCKETS && InRange(ws, q)
        && queues[b] == q
      requires head[b] == First(q) && tail[b] == Final(q)
      requires Walk(ws, q, 0, space, addr, waits[..], next[..], q, 0, 0, head[b], 0, 0)
      modifies `queues, waits, next, head, tail
      ensures |queues| == BUCKETS && queues == old(queues)[b := queues[b]]
      ensures Walk(ws, q, i, space, addr, waits[..], next[..], queues[b], woken, last, end, wakeHead, wakeLast)
      ensures woken <= count && (end == 0 || woken == count) && head[b] == First(queues[b])
        && tail[b] == Final(queues[b])
      ensures OnlyLinks(old(next[..]), old(head[..]), old(tail[..]), next[..], head[..], tail[..], b, q)
    {
      hide Walk, Taken, First, Final, InRange, OnlyLinks;
      ghost var nx, hd, tl := next[..], head[..], tail[..];
      SameLinks(nx, hd, tl, b, q);
      woken, wakeHead, i := 0, 0, 0;
      var prev, node, wakeTail := 0, head[b], 0;
      while node != 0 && woken < count
        invariant woken <= count && |queues| == BUCKETS && queues == old(queues)[b := queues[b]]
        invariant Walk(ws, q, i, space, addr, waits[..], next[..], queues[b], woken, prev, node, wakeHead, wakeTail)
        invariant head[b] == First(queues[b]) && tail[b] == Final(queues[b])
        invariant OnlyLinks(nx, hd, tl, next[..], head[..], tail[..], b, q)
        decreases |q| - i
      {
        WalkFacts(ws, q, i, space, addr, waits[..], next[..], queues[b], woken, prev, node, wakeHead, wakeTail);
        var after := next[node];
        if waits[node].space == space && waits[node].addr == addr {
          ghost var nx1, hd1, tl1 := next[..], head[..], tail[..];
          wakeHead, wakeTail := TakeNext(b, prev, node, after, wakeHead, wakeTail, ws, q, i, space, addr, woken);
          MoreLinks(nx, hd, tl, nx1, hd1, tl1, next[..], head[..], tail[..], b, q);
          woken := woken + 1;
        } else {
          WalkSkip(ws, q, i, space, addr, waits[..], next[..], queues[b], woken, prev, node, after, wakeHead, wakeTail);
          prev := node;
        }
        node := after;
        i := i + 1;
      }
      last, end, wakeLast := prev, node, wakeTail;
    }

    /** The walk has reached a waiter on the word. */
    method TakeNext(b: nat, prev: nat, node: nat, after: nat, wakeHead: nat, wakeTail: nat,
                    ghost ws: seq<Waiting>, ghost q: seq<nat>, ghost i: nat, space: nat, addr: nat, ghost woken: nat)
      returns (newHead: nat, newTail: nat)
      requires Apart() && head.Length == tail.Length == |queues| == BUCKETS && b < BUCKETS
      requires head[b] == First(queues[b]) && tail[b] == Final(queues[b]) && InRange(ws, q) && i < |q|
      requires Walk(ws, q, i, space, addr, waits[..], next[..], queues[b], woken, prev, node, wakeHead, wakeTail)
      requires node == q[i] < |ws| && Waits(ws[node], space, addr) && after == At(q, i + 1)
      modifies `queues, waits, next, head, tail
      ensures |queues| == BUCKETS && queues == old(queues)[b := queues[b]]
      ensures head[b] == First(queues[b]) && tail[b] == Final(queues[b])
      ensures Walk(ws, q, i + 1, space, addr, waits[..], next[..], queues[b], woken + 1, prev, after, newHead, newTail)
      ensures OnlyLinks(old(next[..]), old(head[..]), old(tail[..]), next[..], head[..], tail[..], b, q)
    {
      hide Taken, Linked, TakenThreads, PassedThreads, First, Final;
      TakenFacts(ws, q, i, space, addr, waits[..], next[..], queues[b], woken);
      ghost var taken, j := TakenThreads(ws, q, i, space, addr), |PassedThreads(ws, q, i, space, addr)|;
      ghost var ws1, nx1, cur := waits[..], next[..], queues[b];
      newHead, newTail := TakeOne(b, prev, node, wakeHead, wakeTail, taken, j);
      TakenMore(ws, q, i, space, addr, ws1, nx1, cur, waits[..], next[..], queues[b], woken);
    }

    /** Make every thread of the wake list runnable and hand it to the scheduler. */
    method Deliver(wakeHead: nat, ghost taken: seq<nat>)
      requires waits.Length == next.Length && Linked(next[..], taken) && wakeHead == First(taken)
      requires forall t {:trigger t in taken} :: t in taken ==> !waits[t].reason.Runnable?
      modifies `ready, waits, next
      ensures ready == old(ready) + taken
      ensures forall t {:trigger waits[t]} :: 0 <= t < waits.Length ==>
        waits[t] == if t in taken then old(waits[t]).(reason := Runnable) else old(waits[t])
      ensures forall x {:trigger next[x]} :: 0 <= x < next.Length && x !in taken ==> next[x] == old(next[x])
    {
      var node := wakeHead;
      ghost var k, nx := 0, next[..];
      while node != 0
        invariant 0 <= k <= |taken| && node == At(taken, k) && ready == old(ready) + taken[..k]
        invariant forall t {:trigger waits[t]} :: 0 <= t < waits.Length ==>
          waits[t] == if t in taken[..k] then old(waits[t]).(reason := Runnable) else old(waits[t])
        invariant forall x {:trigger next[x]} :: 0 <= x < next.Length && x !in taken[..k] ==> next[x] == old(next[x])
        decreases |taken| - k
      {
        assert taken[..k + 1] == taken[..k] + [taken[k]];
        assert taken[k] in taken && taken[k] !in taken[..k];
        assert nx[taken[k]] == At(taken, k + 1);
        var after := next[node];
        next[node] := 0;
        if !waits[node].reason.Runnable? {
          waits[node] := waits[node].(reason := Runnable);
          ready := ready + [node];
        }
        node := after;
        k := k + 1;
      }
      assert taken[..k] == taken;
    }

    /** Wake up to count threads waiting on the word, longest waiting first. */
    method Wake(current: nat, space: nat, addr: nat, count: nat) returns (woken: nat)
      requires Valid() && addr != 0
      modifies this, waits, next, head, tail
      ensures Valid()
      ensures current == 0 || space == 0 ==>
        woken == 0 && queues == old(queues) && ready == old(ready) && waits[..] == old(waits[..])
      ensures current != 0 && space != 0 ==>
        var m := old(Waiters(space, addr));
        && woken == Min(count, |m|) && ready == old(ready) + m[..woken] && Waiters(space, addr) == m[woken..]
        && (forall t {:trigger t in m[..woken]} :: t in m[..woken] ==>
          t < waits.Length && waits[t] == Waiting(0, 0, Runnable))
        && (forall s: nat, a: nat :: (s, a) != (space, addr) ==> Waiters(s, a) == old(Waiters(s, a)))
    {
      if current == 0 || space == 0 { return 0; }
      hide Hash;
      var b := Hash(space, addr);
      ghost var ws, nx, hd, tl, qs := waits[..], next[..], head[..], tail[..], queues;
      ghost var i;
      var wakeHead;
      woken, wakeHead, i := TakeMatching(b, space, addr, count);
      ghost var taken := TakenThreads(ws, qs[b], i, space, addr);
      ghost var ws1, nx1 := waits[..], next[..];
      TakenBlocked(ws, nx, hd, tl, qs, b, i, space, addr, ws1, nx1, queues[b], woken);
      Deliver(wakeHead, taken);
      Woken(ws, nx, hd, tl, qs, b, i, space, addr, ws1, nx1, waits[..], next[..], head[..], tail[..], queues, woken);
      forall s: nat, a: nat
        ensures InRange(ws, qs[Hash(s, a)]) && Waiters(s, a) == WokenKey(ws, qs, b, i, space, addr, s, a)
      {
        WokenWaiters(ws, nx, hd, tl, qs, b, i, space, addr, waits[..], next[..], head[..], tail[..], queues, s, a);
      }
      TakenFirst(ws, qs[b], i, space, addr);
    }
  }

  // ---- the walk -----------------------------------------------------------

  /** Of the first i threads of the bucket: those waiting on the word, and the others. */
  ghost function TakenThreads(ws: seq<Waiting>, q: seq<nat>, i: nat, space: nat, addr: nat): seq<nat>
    requires InRange(ws, q) && i <= |q|
  {
    Keep(ws, q[..i], space, addr, true)
  }

  ghost function PassedThreads(ws: seq<Waiting>, q: seq<nat>, i: nat, space: nat, addr: nat): seq<nat>
    requires InRange(ws, q) && i <= |q|
  {
    Keep(ws, q[..i], space, addr, false)
  }

  /** After i threads: the bucket holds the others and the rest of the queue, and the
      waiters on the word are linked in a list of their own with their waits cleared. */
  ghost predicate Taken(ws: seq<Waiting>, q: seq<nat>, i: nat, space: nat, addr: nat,
                        ws': seq<Waiting>, next: seq<nat>, cur: seq<nat>, woken: nat)
    requires InRange(ws, q) && i <= |q|
  {
    var taken := TakenThreads(ws, q, i, space, addr);
    && |ws'| == |ws| == |next| && Distinct(q)
    && cur == PassedThreads(ws, q, i, space, addr) + q[i..]
    && woken == |taken|
    && Linked(next, cur) && Linked(next, taken)
    && (forall t {:trigger ws'[t]} :: 0 <= t < |ws| ==>
      ws'[t] == if t in taken then Waiting(0, 0, ws[t].reason) else ws[t])
  }

  lemma TakenStarts(ws: seq<Waiting>, next: seq<nat>, head: seq<nat>, tail: seq<nat>, qs: seq<seq<nat>>, b: nat,
      space: nat, addr: nat)
    requires TableOk(ws, next, head, tail, qs) && b < BUCKETS
    ensures InRange(ws, qs[b]) && head[b] == First(qs[b]) && tail[b] == Final(qs[b])
    ensures TakenThreads(ws, qs[b], 0, space, addr) == [] && PassedThreads(ws, qs[b], 0, space, addr) == []
    ensures Walk(ws, qs[b], 0, space, addr, ws, next, qs[b], 0, 0, head[b], 0, 0)
    ensures Taken(ws, qs[b], 0, space, addr, ws, next, qs[b], 0)
  {
    assert BucketOk(ws, next, head[b], tail[b], qs[b], b);
    assert qs[b][..0] == [] && qs[b][0..] == qs[b];
  }

  lemma TakenFacts(ws: seq<Waiting>, q: seq<nat>, i: nat, space: nat, addr: nat,
                   ws': seq<Waiting>, next: seq<nat>, cur: seq<nat>, woken: nat)
    requires InRange(ws, q) && i < |q| && Taken(ws, q, i, space, addr, ws', next, cur, woken)
    ensures |ws'| == |ws| == |next| && Linked(next, cur) && Linked(next, TakenThreads(ws, q, i, space, addr))
    ensures
      var j := |PassedThreads(ws, q, i, space, addr)|;
      && j < |cur| && cur[j] == q[i] && At(cur, j - 1) == Final(PassedThreads(ws, q, i, space, addr))
      && 0 < q[i] < |next| && next[q[i]] == At(q, i + 1) && ws'[q[i]] == ws[q[i]]
    ensures forall t {:trigger t in TakenThreads(ws, q, i, space, addr)} ::
      t in TakenThreads(ws, q, i, space, addr) ==> t !in cur && t in q
    ensures forall t {:trigger t in cur} :: t in cur ==> t in q
  {
    var j := |PassedThreads(ws, q, i, space, addr)|;
    KeepMembers(ws, q[..i], space, addr, true);
    KeepMembers(ws, q[..i], space, addr, false);
    assert cur[j] == q[i] && q[i] !in q[..i];
    assert next[cur[j]] == At(cur, j + 1);
    assert i + 1 < |q| ==> cur[j + 1] == q[i + 1];
    forall t | t in TakenThreads(ws, q, i, space, addr) ensures t !in cur {
      assert t in q[..i] && t !in q[i..];
    }
  }

  lemma InLinked(next: seq<nat>, q: seq<nat>)
    requires Linked(next, q)
    ensures Distinct(q) && forall i {:trigger q[i]} :: 0 <= i < |q| ==> 0 < q[i] < |next|
  {
  }

  /** Dropping one of distinct elements. */
  lemma Rest(q: seq<nat>, j: nat)
    requires Distinct(q) && j < |q|
    ensures Distinct(Drop(q, j)) && forall t {:trigger t in Drop(q, j)} :: t in Drop(q, j) <==> t in q && t != q[j]
  {
    var r := Drop(q, j);
    forall t ensures t in r <==> t in q && t != q[j] {
      if t in q && t != q[j] {
        var k := IndexOf(q, t);
        assert r[if k < j then k else k - 1] == t;
      }
    }
  }

  /** now is was without the j-th thread of the bucket, if that waited on the word. */
  ghost predicate RemovedFrom(now: seq<nat>, was: seq<nat>, ws: seq<Waiting>, q: seq<nat>, j: nat, space: nat,
      addr: nat)
    requires InRange(ws, q) && j < |q|
  {
    if Waits(ws[q[j]], space, addr) then
      var before, after := Keep(ws, q[..j], space, addr, true), Keep(ws, q[j + 1..], space, addr, true);
      was == before + [q[j]] + after && now == before + after
    else
      now == was
  }

  /** One thread taken out of its bucket and its wait cleared. */
  lemma Removed(ws: seq<Waiting>, next: seq<nat>, head: seq<nat>, tail: seq<nat>, qs: seq<seq<nat>>,
                ws': seq<Waiting>, next': seq<nat>, head': seq<nat>, tail': seq<nat>, qs': seq<seq<nat>>, b: nat,
                t: nat, j: nat)
    requires TableOk(ws, next, head, tail, qs) && OnlyBucket(ws, next, head, tail, qs, ws', next', head', tail', qs', b)
    requires j < |qs[b]| && qs[b][j] == t < |ws| && qs' == qs[b := Drop(qs[b], j)]
      && ws' == ws[t := Waiting(0, 0, ws[t].reason)]
    requires Linked(next', qs'[b]) && head'[b] == First(qs'[b]) && tail'[b] == Final(qs'[b])
    ensures TableOk(ws', next', head', tail', qs') && Left(ws, qs, ws', qs', b, Drop(qs[b], j))
  {
    hide Hash, TableOk, Linked, BucketOk;
    var rest := Drop(qs[b], j);
    BucketInRange(ws, next, head, tail, qs, b);
    Rest(qs[b], j);
    assert Left(ws, qs, ws', qs', b, rest);
    LeftTable(ws, next, head, tail, qs, ws', next', head', tail', qs', b, rest);
  }

  lemma RemovedKey(ws: seq<Waiting>, next: seq<nat>, head: seq<nat>, tail: seq<nat>, qs: seq<seq<nat>>,
                   ws': seq<Waiting>, next': seq<nat>, head': seq<nat>, tail': seq<nat>, qs': seq<seq<nat>>, b: nat,
                   t: nat, j: nat,
                   space: nat, addr: nat)
    requires TableOk(ws, next, head, tail, qs) && OnlyBucket(ws, next, head, tail, qs, ws', next', head', tail', qs', b)
    requires TableOk(ws', next', head', tail', qs') && |qs| == |qs'| == BUCKETS && b < BUCKETS
    requires j < |qs[b]| && qs[b][j] == t && Left(ws, qs, ws', qs', b, Drop(qs[b], j))
    ensures InRange(ws, qs[Hash(space, addr)]) && InRange(ws', qs'[Hash(space, addr)]) && InRange(ws, qs[b])
    ensures RemovedFrom(WaitersIn(ws', qs', space, addr), WaitersIn(ws, qs, space, addr), ws, qs[b], j, space, addr)
  {
    hide Hash, TableOk, OnlyBucket, Left, Drop, Keep;
    BucketInRange(ws, next, head, tail, qs, b);
    LeftWaiters(ws, next, head, tail, qs, ws', next', head', tail', qs', b, Drop(qs[b], j), space, addr);
    if Hash(space, addr) == b {
      DropWaiters(ws, qs[b], j, space, addr);
    } else {
      QueuedIn(ws, next, head, tail, qs, b, t);
    }
  }

  lemma QueuedIn(ws: seq<Waiting>, next: seq<nat>, head: seq<nat>, tail: seq<nat>, qs: seq<seq<nat>>, b: nat, t: nat)
    requires TableOk(ws, next, head, tail, qs) && b < BUCKETS && t in qs[b]
    ensures t < |ws| && Hash(ws[t].space, ws[t].addr) == b
  {
    assert BucketOk(ws, next, head[b], tail[b], qs[b], b);
  }

  lemma TakenSkip(ws: seq<Waiting>, q: seq<nat>, i: nat, space: nat, addr: nat,
                  ws': seq<Waiting>, next: seq<nat>, cur: seq<nat>, woken: nat)
    requires InRange(ws, q) && i < |q| && Taken(ws, q, i, space, addr, ws', next, cur, woken)
    requires q[i] < |ws| && !Waits(ws[q[i]], space, addr)
    ensures Taken(ws, q, i + 1, space, addr, ws', next, cur, woken)
    ensures TakenThreads(ws, q, i + 1, space, addr) == TakenThreads(ws, q, i, space, addr)
    ensures Final(PassedThreads(ws, q, i + 1, space, addr)) == q[i]
  {
    hide Linked;
    assert q[..i + 1] == q[..i] + [q[i]];
    KeepOne(ws, q[..i], q[i], space, addr, true);
    KeepOne(ws, q[..i], q[i], space, addr, false);
    assert q[i..] == [q[i]] + q[i + 1..];
    assert PassedThreads(ws, q, i + 1, space, addr) + q[i + 1..] == PassedThreads(ws, q, i, space, addr) + q[i..];
    assert TakenThreads(ws, q, i + 1, space, addr) == TakenThreads(ws, q, i, space, addr);
  }

  lemma TakenMore(ws: seq<Waiting>, q: seq<nat>, i: nat, space: nat, addr: nat, ws1: seq<Waiting>, nx1: seq<nat>,
      cur1: seq<nat>,
                  ws2: seq<Waiting>, nx2: seq<nat>, cur2: seq<nat>, woken: nat)
    requires InRange(ws, q) && i < |q| && Taken(ws, q, i, space, addr, ws1, nx1, cur1, woken)
    requires q[i] < |ws| == |ws1| == |nx2| && Waits(ws[q[i]], space, addr) && ws1[q[i]] == ws[q[i]]
    requires |PassedThreads(ws, q, i, space, addr)| < |cur1|
      && cur2 == Drop(cur1, |PassedThreads(ws, q, i, space, addr)|)
    requires ws2 == ws1[q[i] := Waiting(0, 0, ws1[q[i]].reason)]
    requires Linked(nx2, cur2) && Linked(nx2, TakenThreads(ws, q, i, space, addr) + [q[i]])
    ensures Taken(ws, q, i + 1, space, addr, ws2, nx2, cur2, woken + 1)
    ensures TakenThreads(ws, q, i + 1, space, addr) == TakenThreads(ws, q, i, space, addr) + [q[i]]
    ensures Final(TakenThreads(ws, q, i + 1, space, addr)) == q[i]
    ensures PassedThreads(ws, q, i + 1, space, addr) == PassedThreads(ws, q, i, space, addr)
  {
    hide Linked;
    assert q[..i + 1] == q[..i] + [q[i]];
    KeepOne(ws, q[..i], q[i], space, addr, true);
    KeepOne(ws, q[..i], q[i], space, addr, false);
    var passed := PassedThreads(ws, q, i, space, addr);
    assert cur1 == passed + q[i..];
    assert cur2 == passed + q[i + 1..];
    var taken := TakenThreads(ws, q, i + 1, space, addr);
    assert taken == TakenThreads(ws, q, i, space, addr) + [q[i]];
    forall t {:trigger ws2[t]} | 0 <= t < |ws|
      ensures ws2[t] == if t in taken then Waiting(0, 0, ws[t].reason) else ws[t]
    {
    }
  }

  /** The walk at its i-th thread, with the pointers it carries. */
  ghost predicate Walk(ws: seq<Waiting>, q: seq<nat>, i: nat, space: nat, addr: nat, ws': seq<Waiting>, next: seq<nat>,
      cur: seq<nat>,
                       woken: nat, prev: nat, node: nat, wakeHead: nat, wakeTail: nat)
    requires InRange(ws, q)
  {
    && i <= |q| && node == At(q, i)
    && Taken(ws, q, i, space, addr, ws', next, cur, woken)
    && prev == Final(PassedThreads(ws, q, i, space, addr))
    && wakeHead == First(TakenThreads(ws, q, i, space, addr)) && wakeTail == Final(TakenThreads(ws, q, i, space, addr))
  }

  lemma WalkFacts(ws: seq<Waiting>, q: seq<nat>, i: nat, space: nat, addr: nat, ws': seq<Waiting>, next: seq<nat>,
      cur: seq<nat>,
                  woken: nat, prev: nat, node: nat, wakeHead: nat, wakeTail: nat)
    requires InRange(ws, q) && node != 0
    requires Walk(ws, q, i, space, addr, ws', next, cur, woken, prev, node, wakeHead, wakeTail)
    ensures i < |q| && node == q[i] < |ws| == |ws'| == |next| && ws'[node] == ws[node] && next[node] == At(q, i + 1)
  {
    hide Taken;
    TakenFacts(ws, q, i, space, addr, ws', next, cur, woken);
  }

  lemma WalkSkip(ws: seq<Waiting>, q: seq<nat>, i: nat, space: nat, addr: nat, ws': seq<Waiting>, next: seq<nat>,
      cur: seq<nat>,
                 woken: nat, prev: nat, node: nat, after: nat, wakeHead: nat, wakeTail: nat)
    requires InRange(ws, q) && i < |q| && node == q[i] < |ws| && !Waits(ws[node], space, addr) && after == At(q, i + 1)
    requires Walk(ws, q, i, space, addr, ws', next, cur, woken, prev, node, wakeHead, wakeTail)
    ensures Walk(ws, q, i + 1, space, addr, ws', next, cur, woken, node, after, wakeHead, wakeTail)
  {
    hide Taken;
    TakenSkip(ws, q, i, space, addr, ws', next, cur, woken);
  }

  lemma WalkEnds(ws: seq<Waiting>, q: seq<nat>, i: nat, space: nat, addr: nat, ws': seq<Waiting>, next: seq<nat>,
      cur: seq<nat>,
                 woken: nat, prev: nat, node: nat, wakeHead: nat, wakeTail: nat)
    requires InRange(ws, q) && Walk(ws, q, i, space, addr, ws', next, cur, woken, prev, node, wakeHead, wakeTail)
    ensures i <= |q| && Taken(ws, q, i, space, addr, ws', next, cur, woken)
      && wakeHead == First(TakenThreads(ws, q, i, space, addr))
    ensures node == 0 ==> i == |q|
  {
    if i < |q| { TakenFacts(ws, q, i, space, addr, ws', next, cur, woken); }
  }

  /** Outside bucket b and the threads of q no link changed. */
  ghost predicate OnlyLinks(next: seq<nat>, head: seq<nat>, tail: seq<nat>, next': seq<nat>, head': seq<nat>,
      tail': seq<nat>,
                            b: nat, q: seq<nat>) {
    && |next'| == |next| && |head'| == |head| == |tail'| == |tail|
    && (forall c {:trigger head'[c]} {:trigger tail'[c]} :: 0 <= c < |head| && c != b ==>
      head'[c] == head[c] && tail'[c] == tail[c])
    && (forall x {:trigger next'[x]} :: 0 <= x < |next| && x !in q ==> next'[x] == next[x])
  }

  lemma SameLinks(next: seq<nat>, head: seq<nat>, tail: seq<nat>, b: nat, q: seq<nat>)
    requires |head| == |tail|
    ensures OnlyLinks(next, head, tail, next, head, tail, b, q)
  {
  }

  lemma MoreLinks(next: seq<nat>, head: seq<nat>, tail: seq<nat>, next1: seq<nat>, head1: seq<nat>, tail1: seq<nat>,
                  next2: seq<nat>, head2: seq<nat>, tail2: seq<nat>, b: nat, q: seq<nat>)
    requires OnlyLinks(next, head, tail, next1, head1, tail1, b, q)
      && OnlyLinks(next1, head1, tail1, next2, head2, tail2, b, q)
    ensures OnlyLinks(next, head, tail, next2, head2, tail2, b, q)
  {
  }

  // ---- what a wake does ---------------------------------------------------

  lemma TakenBlocked(ws: seq<Waiting>, next: seq<nat>, head: seq<nat>, tail: seq<nat>, qs: seq<seq<nat>>, b: nat,
      i: nat, space: nat, addr: nat,
                     ws1: seq<Waiting>, nx1: seq<nat>, cur: seq<nat>, woken: nat)
    requires TableOk(ws, next, head, tail, qs) && b < BUCKETS && i <= |qs[b]| && InRange(ws, qs[b])
    requires Taken(ws, qs[b], i, space, addr, ws1, nx1, cur, woken)
    ensures |ws1| == |nx1| && Linked(nx1, TakenThreads(ws, qs[b], i, space, addr))
    ensures forall t {:trigger t in TakenThreads(ws, qs[b], i, space, addr)} ::
      t in TakenThreads(ws, qs[b], i, space, addr) ==>
      t < |ws1| && !ws1[t].reason.Runnable?
  {
    hide Hash;
    assert BucketOk(ws, next, head[b], tail[b], qs[b], b);
    KeepMembers(ws, qs[b][..i], space, addr, true);
    forall t | t in TakenThreads(ws, qs[b], i, space, addr) ensures t < |ws1| && !ws1[t].reason.Runnable? {
      assert t in qs[b][..i] && t in qs[b];
    }
  }

  /** The bucket after the walk: the threads passed over, and those not reached. */
  ghost function Remaining(ws: seq<Waiting>, q: seq<nat>, i: nat, space: nat, addr: nat): seq<nat>
    requires InRange(ws, q) && i <= |q|
  {
    PassedThreads(ws, q, i, space, addr) + q[i..]
  }

  lemma RemainingApart(ws: seq<Waiting>, q: seq<nat>, i: nat, space: nat, addr: nat)
    requires InRange(ws, q) && Distinct(q) && i <= |q|
    ensures Distinct(Remaining(ws, q, i, space, addr)) && Distinct(TakenThreads(ws, q, i, space, addr))
    ensures forall t {:trigger t in Remaining(ws, q, i, space, addr)} :: t in Remaining(ws, q, i, space, addr) <==>
      t in q && t !in TakenThreads(ws, q, i, space, addr)
    ensures forall t {:trigger t in TakenThreads(ws, q, i, space, addr)} ::
      t in TakenThreads(ws, q, i, space, addr) ==> t in q
  {
    KeepMembers(ws, q[..i], space, addr, true);
    KeepMembers(ws, q[..i], space, addr, false);
    assert q == q[..i] + q[i..];
    var passed, rest := PassedThreads(ws, q, i, space, addr), Remaining(ws, q, i, space, addr);
    assert forall t {:trigger t in q[i..]} :: t in q[i..] ==> t !in q[..i];
    forall j, k | 0 <= j < k < |rest| ensures rest[j] != rest[k] {
      assert j < |passed| <= k ==> rest[j] in passed && rest[k] in q[i..];
    }
    var taken := TakenThreads(ws, q, i, space, addr);
    forall t ensures t in rest <==> t in q && t !in taken {
      assert t in rest <==> t in passed || t in q[i..];
      assert t in q <==> t in q[..i] || t in q[i..];
      assert t in taken <==> t in q[..i] && Waits(ws[t], space, addr) == true;
      assert t in passed <==> t in q[..i] && Waits(ws[t], space, addr) == false;
    }
  }

  lemma Woken(ws: seq<Waiting>, next: seq<nat>, head: seq<nat>, tail: seq<nat>, qs: seq<seq<nat>>, b: nat, i: nat,
      space: nat, addr: nat,
              ws1: seq<Waiting>, nx1: seq<nat>,
              ws': seq<Waiting>, next': seq<nat>, head': seq<nat>, tail': seq<nat>, qs': seq<seq<nat>>, woken: nat)
    requires TableOk(ws, next, head, tail, qs) && b < BUCKETS && |qs'| == BUCKETS && i <= |qs[b]| && InRange(ws, qs[b])
    requires Taken(ws, qs[b], i, space, addr, ws1, nx1, qs'[b], woken) && qs' == qs[b := qs'[b]]
    requires OnlyLinks(next, head, tail, nx1, head', tail', b, qs[b]) && head'[b] == First(qs'[b])
      && tail'[b] == Final(qs'[b])
    requires |ws'| == |ws1| && |next'| == |nx1|
    requires forall t {:trigger ws'[t]} :: 0 <= t < |ws1| ==>
      ws'[t] == if t in TakenThreads(ws, qs[b], i, space, addr) then ws1[t].(reason := Runnable) else ws1[t]
    requires forall x {:trigger next'[x]} :: 0 <= x < |nx1| && x !in TakenThreads(ws, qs[b], i, space, addr) ==>
      next'[x] == nx1[x]
    ensures TableOk(ws', next', head', tail', qs')
      && OnlyBucket(ws, next, head, tail, qs, ws', next', head', tail', qs', b)
    ensures Left(ws, qs, ws', qs', b, Remaining(ws, qs[b], i, space, addr))
    ensures forall t {:trigger t in TakenThreads(ws, qs[b], i, space, addr)} ::
      t in TakenThreads(ws, qs[b], i, space, addr) ==>
      t < |ws'| && ws'[t] == Waiting(0, 0, Runnable)
  {
    hide Hash, Linked, BucketOk;
    var q, rest := qs[b], Remaining(ws, qs[b], i, space, addr);
    RemainingApart(ws, q, i, space, addr);
    KeepMembers(ws, q[..i], space, addr, true);
    assert qs'[b] == rest;
    LinkedFrame(nx1, next', rest);
    assert Left(ws, qs, ws', qs', b, rest);
    assert OnlyBucket(ws, next, head, tail, qs, ws', next', head', tail', qs', b);
    LeftTable(ws, next, head, tail, qs, ws', next', head', tail', qs', b, rest);
  }

  /** A word's waiters after the walk. */
  ghost function WokenKey(ws: seq<Waiting>, qs: seq<seq<nat>>, b: nat, i: nat, space: nat, addr: nat, s: nat,
      a: nat): seq<nat>
    requires |qs| == BUCKETS && b < BUCKETS && InRange(ws, qs[b]) && i <= |qs[b]| && InRange(ws, qs[Hash(s, a)])
  {
    if (s, a) == (space, addr) then Keep(ws, qs[b][i..], space, addr, true) else WaitersIn(ws, qs, s, a)
  }

  lemma WokenWaiters(ws: seq<Waiting>, next: seq<nat>, head: seq<nat>, tail: seq<nat>, qs: seq<seq<nat>>, b: nat,
      i: nat, space: nat, addr: nat,
                     ws': seq<Waiting>, next': seq<nat>, head': seq<nat>, tail': seq<nat>, qs': seq<seq<nat>>, s: nat,
                     a: nat)
    requires TableOk(ws, next, head, tail, qs) && TableOk(ws', next', head', tail', qs') && b == Hash(space, addr)
    requires i <= |qs[b]| && InRange(ws, qs[b])
      && OnlyBucket(ws, next, head, tail, qs, ws', next', head', tail', qs', b)
    requires Left(ws, qs, ws', qs', b, Remaining(ws, qs[b], i, space, addr))
    ensures InRange(ws, qs[Hash(s, a)]) && InRange(ws', qs'[Hash(s, a)])
    ensures WaitersIn(ws', qs', s, a) == WokenKey(ws, qs, b, i, space, addr, s, a)
  {
    hide Hash, TableOk, OnlyBucket;
    var q := qs[b];
    LeftWaiters(ws, next, head, tail, qs, ws', next', head', tail', qs', b, Remaining(ws, q, i, space, addr), s, a);
    if Hash(s, a) == b { RemainingWaiters(ws, q, i, space, addr, s, a); }
  }

  lemma RemainingWaiters(ws: seq<Waiting>, q: seq<nat>, i: nat, space: nat, addr: nat, s: nat, a: nat)
    requires InRange(ws, q) && i <= |q|
    ensures InRange(ws, Remaining(ws, q, i, space, addr))
    ensures Keep(ws, Remaining(ws, q, i, space, addr), s, a, true)
      == if (s, a) == (space, addr) then Keep(ws, q[i..], space, addr, true) else Keep(ws, q, s, a, true)
  {
    KeepMembers(ws, q[..i], space, addr, false);
    KeepConcat(ws, PassedThreads(ws, q, i, space, addr), q[i..], s, a, true);
    KeepOther(ws, q[..i], space, addr, s, a);
    KeepConcat(ws, q[..i], q[i..], s, a, true);
    assert q == q[..i] + q[i..];
  }

  /** Those taken are the longest waiting. */
  lemma TakenFirst(ws: seq<Waiting>, q: seq<nat>, i: nat, space: nat, addr: nat)
    requires InRange(ws, q) && i <= |q|
    ensures
      var m, taken := Keep(ws, q, space, addr, true), TakenThreads(ws, q, i, space, addr);
      |taken| <= |m| && m[..|taken|] == taken && m[|taken|..] == Keep(ws, q[i..], space, addr, true)
          && (i == |q| ==> m == taken)
  {
    KeepConcat(ws, q[..i], q[i..], space, addr, true);
    assert q == q[..i] + q[i..];
  }
}
