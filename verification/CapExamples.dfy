/** Two runs that end with two live frames on one page: rewinding a shared untyped, and
    carving again after a retype that ran out of slots. */
module CapExamples {
  import opened Bits
  import opened CapState
  import opened CapOps
  import opened CapRuns

  const SIZES: Layout := Layout(64, 64, 64, 0, 64, 64, 64, 64)
  const ARENA: Region := Region(0x100000, 13, 0, false)

  /** Boot an untyped, copy it, carve a frame through the copy, reset through the
      original, carve again. */
  const SHARED_RESET: seq<Op> := [
    OpBoot(0, Untyped, ALL_RIGHTS, ARENA),
    OpCopy(0, ALL_RIGHTS),
    OpRetype(1, Frame, 12, 1, DestOk),
    OpReset(0),
    OpRetype(0, Frame, 12, 1, DestOk)]

  lemma FirstFreeAt(s: State, k: nat)
    requires s.next == k < s.N() && !s.occ[k]
    ensures AllocIndex(s) == k
  {
  }

  lemma RetypeFrame(s: State, u: nat, o: Obj, r: Region, d: nat)
    requires s.Shape() && u < s.N() && s.cap[u].kind.Untyped? && s.cap[u].obj == o && o in s.regions
    requires Contains(s.cap[u].rights, RETYPE) && s.regions[o] == r == ARENA && s.next == d < s.N() && !s.occ[d]
    ensures
      var f := Retype(s, u, Frame, 12, 1, DestOk);
      && f.status.Ok?
      && f.state == SetRegion(CreateOne(s, u, d, Frame, 12, false, 0x100000, 4096), o, r.(watermark := 4096))
  {
    hide Pow2, AllocIndex;
    FirstFreeAt(s, d);
    Pow2Eight();
    Pow2Add(8, 4);
    Pow2Add(12, 1);
    Pow2One();
    var s1 := SetRegion(s, o, r.(watermark := 0));
    assert s.regions[o := r] == s.regions;
    assert s1 == s;
    var c := CreateOne(s, u, d, Frame, 12, false, 0x100000, 4096);
    assert CreateMany(s, u, Frame, 12, false, 0x100000, 4096, 1)
      == CreateMany(c, u, Frame, 12, false, 0x101000, 4096, 0);
  }

  lemma Unroll(s: State, op: Op, rest: seq<Op>)
    requires WellFormed(s) && op.InRange(s.N()) && forall i :: 0 <= i < |rest| ==> rest[i].InRange(s.N())
    ensures WellFormed(Step(s, op).state) && Step(s, op).state.Shape() && Step(s, op).state.N() == s.N()
    ensures Run(s, [op] + rest) == Run(Step(s, op).state, rest)
  {
    StepWellFormed(s, op);
    StepKeepsSize(s, op);
    assert ([op] + rest)[1..] == rest;
  }

  /** The state of the example before the second frame is carved. */
  ghost predicate Rewound(s: State) {
    && s.Shape() && s.N() == 4 && s.next == 3 && s.occ == [true, true, true, false]
    && s.cap[0] == Cap(Static(0), 0, ALL_RIGHTS, Untyped, 0) && s.regions == map[Static(0) := ARENA]
    && s.cap[2].kind.Frame? && s.span[2] == Span(0x100000, 4096)
  }

  lemma BootAndCopy(s: State, t: State)
    requires s == Initial(4, SIZES) && t == Copy(Boot(s, 0, Untyped, ALL_RIGHTS, ARENA).state, 0, ALL_RIGHTS).state
    ensures t.Shape() && t.N() == 4 && t.next == 2 && t.occ == [true, true, false, false]
    ensures t.cap[0] == Cap(Static(0), 0, ALL_RIGHTS, Untyped, 0) && t.cap[1] == t.cap[0].(depth := 1)
    ensures t.regions == map[Static(0) := ARENA] && t.ut[0] == []
  {
    FirstFreeAt(s, 0);
    var b := Boot(s, 0, Untyped, ALL_RIGHTS, ARENA).state;
    assert b.next == 1 && !b.occ[1];
    FirstFreeAt(b, 1);
  }

  lemma CarveThroughCopy(s: State, m: State)
    requires s.Shape() && s.N() == 4 && s.next == 2 && s.occ == [true, true, false, false]
    requires s.cap[0] == Cap(Static(0), 0, ALL_RIGHTS, Untyped, 0) && s.ut[0] == []
    requires m == CreateOne(s, 1, 2, Frame, 12, false, 0x100000, 4096)
    ensures m.Shape() && m.N() == 4 && m.next == 3 && m.occ == [true, true, true, false]
    ensures m.cap[0] == s.cap[0] && m.ut[0] == [] && m.regions == s.regions
    ensures m.cap[2].kind.Frame? && m.span[2] == Span(0x100000, 4096)
  {
  }

  lemma CarveAndReset(s: State, m: State, t: State)
    requires s.Shape() && s.N() == 4 && s.next == 2 && s.occ == [true, true, false, false]
    requires s.cap[0] == Cap(Static(0), 0, ALL_RIGHTS, Untyped, 0) && s.cap[1] == s.cap[0].(depth := 1)
    requires s.regions == map[Static(0) := ARENA] && s.ut[0] == []
    requires m == Retype(s, 1, Frame, 12, 1, DestOk).state && m.Shape() && m.N() == 4 && t == Reset(m, 0).state
    ensures Rewound(t)
  {
    hide CreateOne, Retype;
    RetypeFrame(s, 1, Static(0), ARENA, 2);
    CarveThroughCopy(s, CreateOne(s, 1, 2, Frame, 12, false, 0x100000, 4096));
  }

  lemma CarveAgain(s: State, t: State)
    requires Rewound(s) && t == Retype(s, 0, Frame, 12, 1, DestOk).state
    ensures t.Live(2) && t.Live(3) && t.Shape() && t.cap[2].kind.Frame? && t.cap[3].kind.Frame?
    ensures t.span[2] == t.span[3] == Span(0x100000, 4096)
  {
    hide Retype;
    RetypeFrame(s, 0, Static(0), ARENA, 3);
  }

  /** Two live frames over the same page, one run, no error reported. */
  lemma SharedResetOverlaps()
    ensures WellFormed(Initial(4, SIZES))
    ensures
      var t := Run(Initial(4, SIZES), SHARED_RESET);
      t.Live(2) && t.Live(3) && t.cap[2].kind.Frame? && t.cap[3].kind.Frame? &&
      t.span[2] == t.span[3] == Span(0x100000, 4096)
  {
    hide Copy, Boot, Retype, Reset, WellFormed, Run, Rewound;
    InitialWellFormed(4, SIZES);
    var s0, ops := Initial(4, SIZES), SHARED_RESET;
    assert ops == [ops[0]] + ops[1..] && ops[1..] == [ops[1]] + ops[2..] && ops[2..] == [ops[2]] + ops[3..];
    assert ops[3..] == [ops[3]] + ops[4..] && ops[4..] == [ops[4]] + [];
    Unroll(s0, ops[0], ops[1..]);
    var s1 := Step(s0, ops[0]).state;
    Unroll(s1, ops[1], ops[2..]);
    var s2 := Step(s1, ops[1]).state;
    BootAndCopy(s0, s2);
    Unroll(s2, ops[2], ops[3..]);
    var s3 := Step(s2, ops[2]).state;
    Unroll(s3, ops[3], ops[4..]);
    var s4 := Step(s3, ops[3]).state;
    CarveAndReset(s2, s3, s4);
    Unroll(s4, ops[4], []);
    CarveAgain(s4, Step(s4, ops[4]).state);
    NothingMore(Step(s4, ops[4]).state);
  }

  lemma NothingMore(s: State)
    requires WellFormed(s)
    ensures Run(s, []) == s
  {
  }

  // ---- running out of slots -----------------------------------------------

  const POOL: Region := Region(0x100000, 14, 0, false)

  /** Boot an untyped, ask for three frames with two slots left, delete one of the two
      that were carved, and ask for one frame. */
  const SHORT_RETYPE: seq<Op> := [
    OpBoot(0, Untyped, ALL_RIGHTS, POOL),
    OpRetype(0, Frame, 12, 3, DestOk),
    OpDelete(2),
    OpRetype(0, Frame, 12, 1, DestOk)]

  /** Three slots, the pool in slot 0 at its start. */
  ghost predicate PoolAtStart(s: State) {
    && s.Shape() && s.N() == 3 && s.layout == SIZES && s.regions == map[Static(0) := POOL] && s.occ[0]
    && s.cap[0] == Cap(Static(0), 0, ALL_RIGHTS, Untyped, 0)
  }

  lemma RetypePool(s: State, num: nat)
    requires PoolAtStart(s) && 0 < num <= 3
    ensures
      var c := CreateMany(s, 0, Frame, 12, false, 0x100000, 4096, num);
      var f := Retype(s, 0, Frame, 12, num, DestOk);
      f.state.span == c.state.span && f.state.occ == c.state.occ && f.state.cap == c.state.cap
      && (c.status.Err? ==> f == c)
  {
    hide Pow2, AllocIndex, CreateMany;
    Pow2Eight();
    Pow2Add(8, 4);
    Pow2Add(12, 2);
    Pow2Add(1, 1);
    Pow2One();
    assert s.regions[Static(0) := POOL] == s.regions;
    assert SetRegion(s, Static(0), POOL) == s;
  }

  lemma BootPool(t: State)
    requires t == Boot(Initial(3, SIZES), 0, Untyped, ALL_RIGHTS, POOL).state
    ensures PoolAtStart(t) && t.next == 1 && t.occ == [true, false, false] && t.kids == [[], [], []]
      && t.ut == [[], [], []]
  {
    FirstFreeAt(Initial(3, SIZES), 0);
  }

  /** Two frames carved, the watermark where it was. */
  ghost predicate TwoCarved(s: State) {
    && PoolAtStart(s) && s.occ == [true, true, true] && s.next == 3
    && s.cap[1].kind.Frame? && s.span[1] == Span(0x100000, 4096) && s.kids[2] == [] && s.parent[2] == 0
      && s.utParent[2] == 0
  }

  lemma ThreeOfTwo(s: State, t: State)
    requires PoolAtStart(s) && s.next == 1 && s.occ == [true, false, false] && s.kids == [[], [], []]
      && s.ut == [[], [], []]
    requires t == Retype(s, 0, Frame, 12, 3, DestOk).state
    ensures TwoCarved(t) && Retype(s, 0, Frame, 12, 3, DestOk).status == Err(OutOfSlots)
  {
    hide Retype;
    RetypePool(s, 3);
    FirstFreeAt(s, 1);
    var a := CreateOne(s, 0, 1, Frame, 12, false, 0x100000, 4096);
    CarveInto(s, 1, 0x100000, a);
    assert a.occ == [true, true, false];
    FirstFreeAt(a, 2);
    var b := CreateOne(a, 0, 2, Frame, 12, false, 0x101000, 4096);
    CarveInto(a, 2, 0x101000, b);
    assert b.occ == [true, true, true];
    assert AllocIndex(b) == 3;
    hide CreateOne, AllocIndex;
    assert CreateMany(b, 0, Frame, 12, false, 0x102000, 4096, 1) == Outcome(b, Err(OutOfSlots));
    assert CreateMany(a, 0, Frame, 12, false, 0x101000, 4096, 2) == Outcome(b, Err(OutOfSlots));
    assert CreateMany(s, 0, Frame, 12, false, 0x100000, 4096, 3) == Outcome(b, Err(OutOfSlots));
  }

  lemma CarveInto(s: State, d: nat, addr: nat, c: State)
    requires PoolAtStart(s) && 0 < d < 3 && s.kids[d] == [] && c == CreateOne(s, 0, d, Frame, 12, false, addr, 4096)
    ensures PoolAtStart(c) && c.occ == s.occ[d := true] && c.next == d + 1
    ensures c.cap == s.cap[d := c.cap[d]] && c.cap[d].kind.Frame? && c.span == s.span[d := Span(addr, 4096)]
    ensures c.kids[d] == [] && c.parent[d] == 0 && c.utParent[d] == 0 && forall y :: 0 < y < 3 && y != d ==>
      c.kids[y] == s.kids[y]
  {
  }

  lemma DeleteSecond(s: State, t: State)
    requires TwoCarved(s) && t == Delete(s, 2).state
    ensures PoolAtStart(t) && t.occ == [true, true, false] && t.next == 2
    ensures t.cap[1] == s.cap[1] && t.span == s.span && t.kids[2] == []
  {
    hide Without, Unlink, RemoveUtChild;
    var a := Unlink(s, 2);
    var b := RemoveUtChild(a, 0, 2);
    var c := Release(b, s.cap[2].obj, s.cap[2].kind);
    assert c.span == s.span && c.cap == s.cap && c.occ == s.occ && c.next == s.next && c.regions == s.regions;
  }

  lemma CarveOverFirst(s: State, t: State)
    requires PoolAtStart(s) && s.occ == [true, true, false] && s.next == 2 && s.kids[2] == []
    requires s.cap[1].kind.Frame? && s.span[1] == Span(0x100000, 4096)
    requires t == Retype(s, 0, Frame, 12, 1, DestOk).state && t.Shape() && t.N() == 3
    ensures t.Live(1) && t.Live(2) && t.cap[1].kind.Frame? && t.cap[2].kind.Frame?
    ensures t.span[1] == t.span[2] == Span(0x100000, 4096)
  {
    hide Retype;
    RetypePool(s, 1);
    FirstFreeAt(s, 2);
    var c := CreateOne(s, 0, 2, Frame, 12, false, 0x100000, 4096);
    CarveInto(s, 2, 0x100000, c);
    hide CreateOne, AllocIndex;
    assert CreateMany(c, 0, Frame, 12, false, 0x101000, 4096, 0) == Outcome(c, Ok);
    assert CreateMany(s, 0, Frame, 12, false, 0x100000, 4096, 1) == Outcome(c, Ok);
  }

  /** After the short retype two live frames share a page. */
  lemma ShortRetypeOverlaps()
    ensures WellFormed(Initial(3, SIZES))
    ensures
      var t := Run(Initial(3, SIZES), SHORT_RETYPE);
      t.Live(1) && t.Live(2) && t.cap[1].kind.Frame? && t.cap[2].kind.Frame? &&
      t.span[1] == t.span[2] == Span(0x100000, 4096)
  {
    hide Boot, Retype, Delete, WellFormed, Run, PoolAtStart, TwoCarved;
    InitialWellFormed(3, SIZES);
    var s0, ops := Initial(3, SIZES), SHORT_RETYPE;
    assert ops == [ops[0]] + ops[1..] && ops[1..] == [ops[1]] + ops[2..];
    assert ops[2..] == [ops[2]] + ops[3..] && ops[3..] == [ops[3]] + [];
    Unroll(s0, ops[0], ops[1..]);
    var s1 := Step(s0, ops[0]).state;
    BootPool(s1);
    Unroll(s1, ops[1], ops[2..]);
    var s2 := Step(s1, ops[1]).state;
    ThreeOfTwo(s1, s2);
    CarvedFacts(s2);
    Unroll(s2, ops[2], ops[3..]);
    var s3 := Step(s2, ops[2]).state;
    DeleteSecond(s2, s3);
    Unroll(s3, ops[3], []);
    CarveOverFirst(s3, Step(s3, ops[3]).state);
    NothingMore(Step(s3, ops[3]).state);
  }

  lemma CarvedFacts(s: State)
    requires TwoCarved(s)
    ensures s.Shape() && s.N() == 3 && s.cap[1].kind.Frame? && s.span[1] == Span(0x100000, 4096)
  {
  }
}
