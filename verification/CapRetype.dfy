/** Retype and reset: exactly when they keep carved memory apart. */
module CapRetype {
  import opened Bits
  import opened CapState
  import opened CapOps
  import opened CapRuns
  import opened CapMemory

  // ---- how many objects the loop makes ------------------------------------

  ghost function FreeSlots(s: State): set<nat> {
    set x | 0 <= x < s.N() && !s.occ[x]
  }

  lemma AllocatorFinds(s: State)
    ensures AllocIndex(s) == s.N() <==> FreeSlots(s) == {}
    ensures AllocIndex(s) < s.N() ==> AllocIndex(s) in FreeSlots(s)
  {
    if AllocIndex(s) == s.N() {
      var start := if s.next <= s.N() then s.next else s.N();
      assert FirstFree(s.occ, start, s.N()) == s.N();
      assert FirstFree(s.occ, 0, start) == start;
      assert forall x :: 0 <= x < s.N() ==> s.occ[x];
    } else {
      assert AllocIndex(s) in FreeSlots(s);
    }
  }

  lemma CreateOneFreeSlots(s: State, u: nat, d: nat, kind: ObjectType, bits: nat, device: bool, addr: nat, size: nat)
    requires s.Shape() && u < s.N() && d < s.N() && !s.occ[d]
    ensures FreeSlots(CreateOne(s, u, d, kind, bits, device, addr, size)) == FreeSlots(s) - {d}
  {
  }

  /** The loop completes exactly when there are enough free slots. */
  lemma {:induction false} LoopCompletes(s: State, u: nat, kind: ObjectType, bits: nat, device: bool,
                                         addr: nat, size: nat, num: nat)
    requires s.Shape() && u < s.N() && !kind.Null?
    ensures CreateMany(s, u, kind, bits, device, addr, size, num).status.Ok? <==> num <= |FreeSlots(s)|
    decreases num
  {
    hide AllocIndex, CreateOne;
    AllocatorFinds(s);
    var d := AllocIndex(s);
    if num > 0 && d < s.N() {
      CreateOneShape(s, u, d, kind, bits, device, addr, size);
      CreateOneFreeSlots(s, u, d, kind, bits, device, addr, size);
      LoopCompletes(CreateOne(s, u, d, kind, bits, device, addr, size), u, kind, bits, device,
                    addr + size, size, num - 1);
    }
  }

  lemma CreateOneShape(s: State, u: nat, d: nat, kind: ObjectType, bits: nat, device: bool, addr: nat, size: nat)
    requires s.Shape() && u < s.N() && d < s.N()
    ensures
      var t := CreateOne(s, u, d, kind, bits, device, addr, size);
      t.Shape() && t.N() == s.N() && t.layout == s.layout && t.occ[d]
  {
  }

  // ---- the loop keeps memory apart ----------------------------------------

  /** num objects of this size, one after another from the watermark, are each in
      bounds and each aligned. */
  ghost predicate AllFit(a: State, o: Obj, kind: ObjectType, bits: nat, size: nat, num: nat)
    requires o in a.regions
  {
    var r, align := a.regions[o], Alignment(kind, size);
    && !kind.Null? && ObjectSize(a.layout, kind, bits) == Size(size) && size > 0 && align > 0
    && r.watermark % align == 0 && (num <= 1 || size % align == 0)
    && r.watermark + num * size <= r.Size()
  }

  lemma AllFitNext(a: State, o: Obj, kind: ObjectType, bits: nat, size: nat, num: nat, t: State)
    requires o in a.regions && AllFit(a, o, kind, bits, size, num) && num > 0
    requires o in t.regions && t.layout == a.layout
    requires t.regions[o] == a.regions[o].(watermark := a.regions[o].watermark + size)
    ensures Fits(a, o, kind, bits, size) && (num > 1 ==> AllFit(t, o, kind, bits, size, num - 1))
  {
    hide ObjectSize, Alignment;
    OneFewer(num, size);
    if num > 1 {
      MultiplesAdd(a.regions[o].watermark, size, Alignment(kind, size));
    }
  }

  lemma OneFewer(num: nat, size: nat)
    requires num > 0
    ensures num * size == (num - 1) * size + size && (num - 1) * size >= 0
  {
  }

  lemma LoopUnfold(s: State, u: nat, kind: ObjectType, bits: nat, device: bool, addr: nat, size: nat, num: nat, d: nat)
    requires s.Shape() && u < s.N() && num > 0 && d == AllocIndex(s) < s.N() && !kind.Null?
    ensures
      var c := CreateOne(s, u, d, kind, bits, device, addr, size);
      c.Shape() && c.N() == s.N() && c.layout == s.layout && FreeSlots(c) == FreeSlots(s) - {d} &&
      CreateMany(s, u, kind, bits, device, addr, size, num)
        == CreateMany(c, u, kind, bits, device, addr + size, size, num - 1)
  {
    hide AllocIndex;
  }

  /** The offset just past num objects laid out from w. */
  function Past(w: nat, size: nat, num: nat): nat {
    w + num * size
  }

  lemma PastZero(w: nat, size: nat)
    ensures Past(w, size, 0) == w
  {
  }

  lemma PastNext(w: nat, size: nat, num: nat)
    requires num > 0
    ensures Past(w + size, size, num - 1) == Past(w, size, num)
  {
  }

  lemma LoopDone(s: State, u: nat, kind: ObjectType, bits: nat, device: bool, addr: nat, size: nat)
    requires s.Shape() && u < s.N()
    ensures CreateMany(s, u, kind, bits, device, addr, size, 0) == Outcome(s, Ok)
  {
  }

  lemma {:induction false} LoopMemory(s: State, u: nat, o: Obj, kind: ObjectType, bits: nat, w: nat, size: nat,
      num: nat, t: State)
    requires s.Shape() && WellFormed(s) && s.Live(u) && s.cap[u].obj == o && o in s.regions
    requires s.cap[u].kind.Untyped? && !kind.Null? && num <= |FreeSlots(s)|
    requires WellFormed(At(s, o, w)) && Memory(At(s, o, w))
      && (num > 0 ==> AllFit(At(s, o, w), o, kind, bits, size, num))
    requires t == CreateMany(s, u, kind, bits, s.regions[o].device, s.regions[o].phys + w, size, num).state
    ensures o in t.regions && t.regions[o] == s.regions[o]
    ensures WellFormed(At(t, o, Past(w, size, num))) && Memory(At(t, o, Past(w, size, num)))
    decreases num
  {
    hide Past, WellFormed, Memory, AllocIndex, CreateOne, CreateMany, AllFit, Fits;
    var r := s.regions[o];
    if num == 0 {
      PastZero(w, size);
      LoopDone(s, u, kind, bits, r.device, r.phys + w, size);
    } else {
      var d := AllocIndex(s);
      AllocatorFinds(s);
      LoopUnfold(s, u, kind, bits, r.device, r.phys + w, size, num, d);
      var c := CreateOne(s, u, d, kind, bits, r.device, r.phys + w, size);
      LoopMemoryStep(s, u, o, kind, bits, w, size, num, d, c);
      LoopMemory(c, u, o, kind, bits, w + size, size, num - 1, t);
      PastNext(w, size, num);
    }
  }

  lemma LoopMemoryStep(s: State, u: nat, o: Obj, kind: ObjectType, bits: nat, w: nat, size: nat, num: nat, d: nat,
      c: State)
    requires s.Shape() && WellFormed(s) && s.Live(u) && s.cap[u].obj == o && o in s.regions
    requires s.cap[u].kind.Untyped? && !kind.Null? && d < s.N() && !s.occ[d] && num > 0
    requires WellFormed(At(s, o, w)) && Memory(At(s, o, w)) && AllFit(At(s, o, w), o, kind, bits, size, num)
    requires c == CreateOne(s, u, d, kind, bits, s.regions[o].device, s.regions[o].phys + w, size)
    requires c.Shape() && c.layout == s.layout
    ensures WellFormed(c) && c.Live(u) && c.cap[u] == s.cap[u] && o in c.regions && c.regions[o] == s.regions[o]
    ensures WellFormed(At(c, o, w + size)) && Memory(At(c, o, w + size))
    ensures num > 1 ==> AllFit(At(c, o, w + size), o, kind, bits, size, num - 1)
  {
    hide WellFormed, Memory, CreateOne, AllFit, Fits;
    CreateOneWellFormed(s, u, d, kind, bits, s.regions[o].device, s.regions[o].phys + w, size);
    FreshSlotUnnamed(s, u, d);
    CreateOneCarves(s, u, o, d, kind, bits, w, size);
    AllFitNext(At(s, o, w), o, kind, bits, size, num, At(c, o, w + size));
    CreateOneMemory(s, u, o, d, kind, bits, w, size, c);
  }

  // ---- what the loop leaves behind ----------------------------------------

  lemma CreateOneSame(s: State, u: nat, d: nat, kind: ObjectType, bits: nat, device: bool, addr: nat, size: nat,
      c: State)
    requires s.Shape() && u < s.N() && d < s.N() && !s.occ[d]
    requires c == CreateOne(s, u, d, kind, bits, device, addr, size)
    ensures c.Shape() && c.N() == s.N() && forall y {:trigger Same(s, c, y)} :: 0 <= y < s.N() && y != d ==>
      Same(s, c, y)
    ensures c.Live(d) && c.parent[d] == u && c.origin[d].Retyped? && c.cap[d].kind == kind
      && c.span[d] == Span(addr, size)
    ensures forall o :: o in s.regions && o != UntypedAt(d) ==> o in c.regions && c.regions[o] == s.regions[o]
  {
  }

  lemma {:induction false} LoopKeeps(s: State, u: nat, kind: ObjectType, bits: nat, device: bool, addr: nat, size: nat,
                                     num: nat, t: State, y: nat)
    requires s.Shape() && s.Live(u) && s.Live(y) && !kind.Null?
    requires t == CreateMany(s, u, kind, bits, device, addr, size, num).state
    ensures t.Shape() && t.N() == s.N() && Same(s, t, y)
    decreases num
  {
    hide AllocIndex, CreateOne;
    AllocatorFinds(s);
    var d := AllocIndex(s);
    if num > 0 && d < s.N() {
      LoopUnfold(s, u, kind, bits, device, addr, size, num, d);
      var c := CreateOne(s, u, d, kind, bits, device, addr, size);
      CreateOneSame(s, u, d, kind, bits, device, addr, size, c);
      assert Same(s, c, y) && Same(s, c, u);
      LoopKeeps(c, u, kind, bits, device, addr + size, size, num - 1, t, y);
    }
  }

  /** The k-th object is where it should be, and it is still there at the end. */
  lemma {:induction false} NthCarved(s: State, u: nat, kind: ObjectType, bits: nat, device: bool, addr: nat, size: nat,
                                     num: nat, t: State, k: nat) returns (x: nat)
    requires s.Shape() && s.Live(u) && !kind.Null? && k < num && k < |FreeSlots(s)|
    requires t == CreateMany(s, u, kind, bits, device, addr, size, num).state
    ensures t.Shape() && t.Live(x) && t.origin[x].Retyped? && t.parent[x] == u && t.cap[x].kind == kind
    ensures t.span[x] == Span(Past(addr, size, k), size)
    decreases num
  {
    hide AllocIndex, CreateOne, CreateMany, Past;
    AllocatorFinds(s);
    var d := AllocIndex(s);
    LoopUnfold(s, u, kind, bits, device, addr, size, num, d);
    var c := CreateOne(s, u, d, kind, bits, device, addr, size);
    CreateOneSame(s, u, d, kind, bits, device, addr, size, c);
    assert Same(s, c, u);
    if k == 0 {
      x := d;
      LoopKeeps(c, u, kind, bits, device, addr + size, size, num - 1, t, d);
      PastZero(addr, size);
    } else {
      x := NthCarved(c, u, kind, bits, device, addr + size, size, num - 1, t, k - 1);
      PastNext(addr, size, k);
    }
  }

  lemma {:induction false} LoopKeepsRegion(s: State, u: nat, kind: ObjectType, bits: nat, device: bool, addr: nat,
      size: nat,
                                           num: nat, t: State, o: Obj)
    requires s.Shape() && u < s.N() && o in s.regions && !kind.Null?
    requires o.UntypedAt? ==> s.Live(o.slot)
    requires t == CreateMany(s, u, kind, bits, device, addr, size, num).state
    ensures o in t.regions && t.regions[o] == s.regions[o]
    decreases num
  {
    hide AllocIndex, CreateOne;
    AllocatorFinds(s);
    var d := AllocIndex(s);
    if num > 0 && d < s.N() {
      LoopUnfold(s, u, kind, bits, device, addr, size, num, d);
      var c := CreateOne(s, u, d, kind, bits, device, addr, size);
      CreateOneSame(s, u, d, kind, bits, device, addr, size, c);
      assert o.UntypedAt? ==> Same(s, c, o.slot);
      LoopKeepsRegion(c, u, kind, bits, device, addr + size, size, num - 1, t, o);
    }
  }

  // ---- exactly when retype keeps memory apart ------------------------------

  /** Retype gets as far as carving objects of the given size from offset w. */
  ghost predicate Carves(s: State, u: nat, kind: ObjectType, bits: nat, num: nat, dest: Dest, size: nat, w: nat)
    requires s.Shape() && u < s.N()
  {
    var c := s.cap[u];
    && c.kind.Untyped? && c.obj in s.regions && Contains(c.rights, RETYPE) && dest.DestOk?
    && !kind.Null? && ObjectSize(s.layout, kind, bits) == Size(size) && size > 0 && Alignment(kind, size) > 0
    && var r := s.regions[c.obj];
    && (!r.device || kind.Frame? || kind.Untyped?)
    && w == AlignUp(r.watermark, Alignment(kind, size)) <= r.Size()
    && r.watermark + (Alignment(kind, size) - 1) < U64
    && Bytes(size, num) % U64 <= r.Available() && Bytes(size, num) % U64 <= r.Size() - w
  }

  predicate EvenStride(kind: ObjectType, size: nat) {
    Alignment(kind, size) > 0 && size % Alignment(kind, size) == 0
  }

  /** Nothing is carved, or everything asked for is, within the region and with a
      stride that keeps the alignment. */
  ghost predicate CarvesWell(s: State, kind: ObjectType, size: nat, num: nat) {
    || num == 0 || FreeSlots(s) == {}
    || (num <= |FreeSlots(s)| && Bytes(size, num) < U64 && (num <= 1 || EvenStride(kind, size)))
  }

  lemma AlignUpFacts(w: nat, a: nat)
    requires a > 0
    ensures w <= AlignUp(w, a) < w + a && AlignUp(w, a) % a == 0
  {
    var q, r := (w + (a - 1)) / a, (w + (a - 1)) % a;
    assert q * a + r == w + (a - 1);
    DivModUnique(q * a, a, q, 0);
  }

  lemma SizesPositive(l: Layout, kind: ObjectType, bits: nat)
    requires l.Valid()
    ensures ObjectSize(l, kind, bits).Size? && !kind.Null? ==>
              ObjectSize(l, kind, bits).bytes > 0 && Alignment(kind, ObjectSize(l, kind, bits).bytes) > 0
  {
    AlignUpFacts(l.memoryObject, 64);
    AlignUpFacts(AlignUp(l.memoryObject, 64), PAGE_SIZE);
  }

  lemma WatermarkMoves(s: State, o: Obj, w: nat)
    requires WellFormed(s) && Memory(s) && o in s.regions
    requires s.regions[o].watermark <= w <= s.regions[o].Size()
    ensures WellFormed(At(s, o, w)) && Memory(At(s, o, w))
  {
    var t := At(s, o, w);
    SetRegionWellFormed(s, o, t.regions[o]);
    RegionsUntouched(s, s);
    forall x | 0 <= x < s.N() && s.occ[x]
      ensures Stays(s, t, x)
    {
      assert Edge(s, x);
    }
    assert AllStay(s, t, s.N());
    MemoryStays(s, t, s.N());
  }

  lemma RegionSizeBound(r: Region)
    ensures r.Size() < U64
  {
    Pow2Mono(r.bits % 64, 63);
    Pow2Values();
  }

  lemma PastInRegion(r: Region, size: nat, num: nat)
    requires r.watermark + Bytes(size, num) <= r.Size()
    ensures (r.watermark + Bytes(size, num)) % U64 == Past(r.watermark, size, num)
  {
    RegionSizeBound(r);
    assert size * num == num * size;
  }

  lemma RetypeReachesCarving(s: State, u: nat, kind: ObjectType, bits: nat, num: nat, dest: Dest, size: nat, w: nat)
    requires s.Shape() && u < s.N() && Carves(s, u, kind, bits, num, dest, size, w)
    ensures
      var o := s.cap[u].obj;
      Retype(s, u, kind, bits, num, dest) == Carve(At(s, o, w), u, o, kind, bits, size, num, Bytes(size, num) % U64)
  {
    hide Carve, AlignUp, ObjectSize;
  }

  /** In the state the loop starts from, its result keeps memory apart when the
      request is carved well ... */
  lemma CarvingWellKeepsMemory(s: State, u: nat, o: Obj, kind: ObjectType, bits: nat, size: nat, num: nat, f: State)
    requires s.Shape() && WellFormed(s) && Memory(s) && s.Live(u) && s.cap[u].obj == o && o in s.regions
    requires s.cap[u].kind.Untyped? && !kind.Null? && num <= |FreeSlots(s)| && Bytes(size, num) < U64
    requires num > 0 ==> AllFit(s, o, kind, bits, size, num)
    requires s.regions[o].watermark + Bytes(size, num) <= s.regions[o].Size()
    requires f == Carve(s, u, o, kind, bits, size, num, Bytes(size, num)).state
    ensures WellFormed(f) && Memory(f)
  {
    hide WellFormed, Memory, AllFit, CreateMany, Past;
    var r := s.regions[o];
    var w := r.watermark;
    assert At(s, o, w) == s;
    var done := CreateMany(s, u, kind, bits, r.device, r.phys + w, size, num);
    LoopCompletes(s, u, kind, bits, r.device, r.phys + w, size, num);
    LoopMemory(s, u, o, kind, bits, w, size, num, done.state);
    PastInRegion(r, size, num);
    assert f == At(done.state, o, Past(w, size, num));
  }

  lemma ObjectsCarved(f: State, x: nat)
    requires WellFormed(f) && Memory(f) && f.Live(x) && f.origin[x].Retyped?
    ensures f.parent[x] < f.N() && Source(f, x) in f.regions && Carved(f.regions[Source(f, x)], f.cap[x], f.span[x])
  {
    assert Edge(f, x);
    assert Edge(f, f.parent[x]);
    assert SlotMemory(f, x);
  }

  /** Object k of the loop, as it stands in the state f the carving ends with. */
  lemma CarvedByLoop(s: State, u: nat, o: Obj, kind: ObjectType, bits: nat, size: nat, num: nat, total: nat, f: State,
      k: nat)
      returns (x: nat)
    requires s.Shape() && WellFormed(s) && s.Live(u) && s.cap[u].obj == o && o in s.regions && !kind.Null?
    requires k < num && k < |FreeSlots(s)| && f == Carve(s, u, o, kind, bits, size, num, total).state
    ensures f.Shape() && f.N() == s.N() && f.Live(x) && f.origin[x].Retyped? && f.cap[x].kind == kind
    ensures f.parent[x] == u && Source(f, x) == o && o in f.regions
    ensures f.span[x] == Span(Past(s.regions[o].phys + s.regions[o].watermark, size, k), size)
    ensures f.regions[o] == s.regions[o].(watermark :=
      if num <= |FreeSlots(s)| then (s.regions[o].watermark + total) % U64
                                                       else s.regions[o].watermark)
  {
    hide WellFormed, CreateMany, Past;
    var r := s.regions[o];
    var done := CreateMany(s, u, kind, bits, r.device, r.phys + r.watermark, size, num);
    LoopCompletes(s, u, kind, bits, r.device, r.phys + r.watermark, size, num);
    x := NthCarved(s, u, kind, bits, r.device, r.phys + r.watermark, size, num, done.state, k);
    LoopKeeps(s, u, kind, bits, r.device, r.phys + r.watermark, size, num, done.state, u);
    if o.UntypedAt? { MetadataOwnedBySubtree(s, u); }
    LoopKeepsRegion(s, u, kind, bits, r.device, r.phys + r.watermark, size, num, done.state, o);
  }

  /** ... and otherwise some carved object ends above the watermark or off its
      alignment. */
  lemma CarvingBadlyBreaksMemory(s: State, u: nat, o: Obj, kind: ObjectType, bits: nat, size: nat, num: nat, f: State)
    requires s.Shape() && WellFormed(s) && s.Live(u) && s.cap[u].obj == o && o in s.regions
    requires !kind.Null? && size > 0 && Alignment(kind, size) > 0 && s.regions[o].watermark % Alignment(kind, size) == 0
    requires s.regions[o].watermark + Bytes(size, num) % U64 <= s.regions[o].Size()
    requires f == Carve(s, u, o, kind, bits, size, num, Bytes(size, num) % U64).state && WellFormed(f)
    requires !CarvesWell(s, kind, size, num)
    ensures !Memory(f)
  {
    hide WellFormed, Memory, Carve, Carved, Past;
    var r, free, total := s.regions[o], |FreeSlots(s)|, Bytes(size, num) % U64;
    var k := if num > free then 0 else if Bytes(size, num) >= U64 then num - 1 else 1;
    var x := CarvedByLoop(s, u, o, kind, bits, size, num, total, f, k);
    RegionSizeBound(r);
    Misplaced(r, kind, size, num, free, k, f.regions[o], f.cap[x], f.span[x]);
    if Memory(f) { ObjectsCarved(f, x); }
  }

  lemma Misplaced(r: Region, kind: ObjectType, size: nat, num: nat, free: nat, k: nat, r': Region, c: Cap, m: Span)
    requires size > 0 && Alignment(kind, size) > 0 && r.watermark % Alignment(kind, size) == 0
    requires r.watermark + Bytes(size, num) % U64 < U64 && num > 0 && free > 0 && c.kind == kind
    requires k == if num > free then 0 else if Bytes(size, num) >= U64 then num - 1 else 1
    requires num <= free && Bytes(size, num) < U64 ==> num > 1 && size % Alignment(kind, size) != 0
    requires m == Span(Past(r.phys + r.watermark, size, k), size)
    requires r' == r.(watermark := if num <= free then (r.watermark + Bytes(size, num) % U64) % U64 else r.watermark)
    ensures !Carved(r', c, m)
  {
    var a := Alignment(kind, size);
    if num > free {
      PastZero(r.phys + r.watermark, size);
    } else if Bytes(size, num) >= U64 {
      assert (num - 1) * size + size == size * num;
    } else {
      assert m.start - r.phys == r.watermark + size;
      if (r.watermark + size) % a == 0 {
        var q := (r.watermark + size) / a - r.watermark / a;
        assert size == q * a + 0;
        DivModUnique(size, a, q, 0);
      }
    }
  }

  lemma RetypeWithoutCarving(s: State, u: nat, kind: ObjectType, bits: nat, num: nat, dest: Dest, f: State)
    requires s.Shape() && WellFormed(s) && Memory(s) && u < s.N() && (s.cap[u].kind.Untyped? ==> s.occ[u])
    requires f == Retype(s, u, kind, bits, num, dest).state
    requires forall size, w :: !Carves(s, u, kind, bits, num, dest, size, w)
    ensures WellFormed(f) && Memory(f)
  {
    var o, sz := s.cap[u].obj, ObjectSize(s.layout, kind, bits);
    SizesPositive(s.layout, kind, bits);
    if s.cap[u].kind.Untyped? && o in s.regions && sz.Size? {
      var r := s.regions[o];
      if kind.Null? {
        assert f in {s, Carve(s, u, o, kind, bits, 0, num, 0).state};
        NullCarving(s, u, o, kind, bits, num, Carve(s, u, o, kind, bits, 0, num, 0).state);
      } else {
        var w := AlignUp(r.watermark, Alignment(kind, sz.bytes));
        AlignUpFacts(r.watermark, Alignment(kind, sz.bytes));
        RetypeStops(s, u, kind, bits, num, dest, sz.bytes, w, f);
        if f != s { WatermarkMoves(s, o, w); }
      }
    }
  }

  lemma RetypeStops(s: State, u: nat, kind: ObjectType, bits: nat, num: nat, dest: Dest, size: nat, w: nat, f: State)
    requires s.Shape() && u < s.N() && f == Retype(s, u, kind, bits, num, dest).state
    requires s.cap[u].obj in s.regions && !kind.Null? && size > 0 && ObjectSize(s.layout, kind, bits) == Size(size)
    requires Alignment(kind, size) > 0 && w == AlignUp(s.regions[s.cap[u].obj].watermark, Alignment(kind, size))
    requires !Carves(s, u, kind, bits, num, dest, size, w)
    ensures f == s || (w <= s.regions[s.cap[u].obj].Size() && f == At(s, s.cap[u].obj, w))
  {
    hide Carve, AlignUp, ObjectSize;
  }

  lemma NullCarving(s: State, u: nat, o: Obj, kind: ObjectType, bits: nat, num: nat, f: State)
    requires s.Shape() && WellFormed(s) && Memory(s) && s.Live(u) && s.cap[u].kind.Untyped? && s.cap[u].obj == o
      && o in s.regions
    requires kind.Null? && f == Carve(s, u, o, kind, bits, 0, num, 0).state
    ensures WellFormed(f) && Memory(f)
  {
    hide AllocIndex, WellFormed, Memory, Carve, TakeAndFree;
    RegionsInBounds(s, u);
    NullCarveOutcome(s, u, o, kind, bits, num, f);
    if f != s {
      TakeAndFreeWellFormed(s, AllocIndex(s));
      FreeSlotReusable(s, AllocIndex(s));
    }
  }

  lemma NullCarveOutcome(s: State, u: nat, o: Obj, kind: ObjectType, bits: nat, num: nat, f: State)
    requires s.Shape() && u < s.N() && o in s.regions && SameRegion(s, s, o)
    requires kind.Null? && f == Carve(s, u, o, kind, bits, 0, num, 0).state
    ensures f == s || (AllocIndex(s) < s.N() && f == TakeAndFree(s, AllocIndex(s)))
  {
    hide AllocIndex, TakeAndFree;
    RegionSizeBound(s.regions[o]);
    if num == 0 {
      assert s.regions[o := s.regions[o]] == s.regions;
    }
  }

  // ---- the two theorems ---------------------------------------------------

  /** What a caller can check before retype: if objects get carved at all, there
      are enough free slots, the byte count does not wrap, and a batch of more
      than one keeps its alignment. */
  ghost predicate RetypeDisciplined(s: State, u: nat, kind: ObjectType, bits: nat, num: nat, dest: Dest)
    requires s.Shape() && u < s.N()
  {
    forall size, w :: Carves(s, u, kind, bits, num, dest, size, w) ==> CarvesWell(s, kind, size, num)
  }

  /** Retype keeps the memory invariant exactly when it is disciplined.  An undisciplined
      one leaves an object above the watermark or off its alignment; it is the next
      retype that then overlaps (ShortRetypeStays, CarvedAgain). */
  lemma RetypeMemory(s: State, u: nat, kind: ObjectType, bits: nat, num: nat, dest: Dest, f: State)
    requires s.Shape() && WellFormed(s) && Memory(s) && u < s.N() && (s.cap[u].kind.Untyped? ==> s.occ[u])
    requires f == Retype(s, u, kind, bits, num, dest).state && WellFormed(f)
    ensures Memory(f) <==> RetypeDisciplined(s, u, kind, bits, num, dest)
  {
    hide WellFormed, Memory, Carves, CarvesWell, Retype;
    if size, w :| Carves(s, u, kind, bits, num, dest, size, w) {
      CarvesUnique(s, u, kind, bits, num, dest, size, w);
      RetypeReachesCarving(s, u, kind, bits, num, dest, size, w);
      CarvingDecides(s, u, kind, bits, num, dest, size, w, f);
    } else {
      RetypeWithoutCarving(s, u, kind, bits, num, dest, f);
    }
  }

  lemma CarvesUnique(s: State, u: nat, kind: ObjectType, bits: nat, num: nat, dest: Dest, size: nat, w: nat)
    requires s.Shape() && u < s.N() && Carves(s, u, kind, bits, num, dest, size, w)
    ensures s.cap[u].kind.Untyped? && s.cap[u].obj in s.regions
    ensures forall size', w' :: Carves(s, u, kind, bits, num, dest, size', w') ==> size' == size && w' == w
  {
  }

  lemma CarvingDecides(s: State, u: nat, kind: ObjectType, bits: nat, num: nat, dest: Dest, size: nat, w: nat, f: State)
    requires s.Shape() && WellFormed(s) && Memory(s) && s.Live(u) && Carves(s, u, kind, bits, num, dest, size, w)
    requires s.cap[u].kind.Untyped? && s.cap[u].obj in s.regions
    requires f == Carve(At(s, s.cap[u].obj, w), u, s.cap[u].obj, kind, bits, size, num, Bytes(size, num) % U64).state
    requires WellFormed(f)
    ensures Memory(f) <==> CarvesWell(s, kind, size, num)
  {
    hide WellFormed, Memory, Carve, AllFit;
    var o := s.cap[u].obj;
    AlignUpFacts(s.regions[o].watermark, Alignment(kind, size));
    WatermarkMoves(s, o, w);
    var a := At(s, o, w);
    assert FreeSlots(a) == FreeSlots(s);
    if !CarvesWell(s, kind, size, num) {
      CarvingBadlyBreaksMemory(a, u, o, kind, bits, size, num, f);
    } else if num == 0 || FreeSlots(s) != {} {
      RequestFits(a, o, kind, bits, size, num);
      CarvingWellKeepsMemory(a, u, o, kind, bits, size, num, f);
    } else {
      NoSlotsNoCarving(a, u, o, kind, bits, size, num, f);
    }
  }

  lemma RequestFits(a: State, o: Obj, kind: ObjectType, bits: nat, size: nat, num: nat)
    requires o in a.regions && !kind.Null? && ObjectSize(a.layout, kind, bits) == Size(size) && size > 0
    requires Alignment(kind, size) > 0 && a.regions[o].watermark % Alignment(kind, size) == 0
    requires num == 0 || (Bytes(size, num) < U64 && (num <= 1 || EvenStride(kind, size)))
    requires a.regions[o].watermark + Bytes(size, num) % U64 <= a.regions[o].Size()
    ensures Bytes(size, num) < U64 && Bytes(size, num) % U64 == Bytes(size, num)
    ensures num > 0 ==> AllFit(a, o, kind, bits, size, num)
  {
    assert num * size == size * num;
  }

  lemma NoSlotsNoCarving(s: State, u: nat, o: Obj, kind: ObjectType, bits: nat, size: nat, num: nat, f: State)
    requires s.Shape() && u < s.N() && o in s.regions && num > 0 && FreeSlots(s) == {}
    requires f == Carve(s, u, o, kind, bits, size, num, Bytes(size, num) % U64).state
    ensures f == s
  {
    hide AllocIndex;
    AllocatorFinds(s);
  }

  // ---- running out of slots, then carving again ---------------------------

  /** A retype that runs out of slots part-way leaves its first object live at the
      watermark it started from. */
  lemma ShortRetypeStays(s: State, u: nat, kind: ObjectType, bits: nat, num: nat, dest: Dest, size: nat, w: nat,
      f: State)
    returns (x: nat)
    requires s.Shape() && s.Live(u) && Carves(s, u, kind, bits, num, dest, size, w) && 0 < |FreeSlots(s)| < num
    requires s.cap[u].obj.UntypedAt? ==> s.Live(s.cap[u].obj.slot)
    requires f == Retype(s, u, kind, bits, num, dest).state
    ensures Retype(s, u, kind, bits, num, dest).status.Err?
    ensures f.Shape() && f.Live(x) && f.cap[x].kind == kind && s.cap[u].obj in f.regions
    ensures
      var r := f.regions[s.cap[u].obj];
      r == s.regions[s.cap[u].obj].(watermark := w) && f.span[x] == Span(r.phys + r.watermark, size)
  {
    hide Retype, CreateMany;
    var o := s.cap[u].obj;
    var a := At(s, o, w);
    var r := a.regions[o];
    RetypeReachesCarving(s, u, kind, bits, num, dest, size, w);
    assert FreeSlots(a) == FreeSlots(s);
    LoopCompletes(a, u, kind, bits, r.device, r.phys + r.watermark, size, num);
    LoopKeepsRegion(a, u, kind, bits, r.device, r.phys + r.watermark, size, num, f, o);
    x := NthCarved(a, u, kind, bits, r.device, r.phys + r.watermark, size, num, f, 0);
    PastZero(r.phys + r.watermark, size);
  }

  /** With an object x at the watermark, the next retype of that size puts another live
      object on the same span. */
  lemma CarvedAgain(s: State, u: nat, kind: ObjectType, bits: nat, num: nat, dest: Dest, size: nat, x: nat, f: State)
    returns (y: nat)
    requires s.Shape() && s.Live(u) && s.Live(x) && s.cap[u].obj in s.regions && num > 0 && FreeSlots(s) != {}
    requires Carves(s, u, kind, bits, num, dest, size, s.regions[s.cap[u].obj].watermark)
    requires s.span[x] == Span(s.regions[s.cap[u].obj].phys + s.regions[s.cap[u].obj].watermark, size)
    requires f == Retype(s, u, kind, bits, num, dest).state
    ensures f.Shape() && f.Live(x) && f.Live(y) && x != y && f.span[x] == f.span[y] == s.span[x] && f.cap[x] == s.cap[x]
    ensures f.cap[y].kind == kind
  {
    hide Retype, CreateMany, CreateOne, AllocIndex, Carves;
    var o := s.cap[u].obj;
    var r := s.regions[o];
    CarvesUnique(s, u, kind, bits, num, dest, size, r.watermark);
    RetypeReachesCarving(s, u, kind, bits, num, dest, size, r.watermark);
    assert s.regions[o := r] == s.regions && At(s, o, r.watermark) == s;
    y := AllocIndex(s);
    AllocatorFinds(s);
    var addr := r.phys + r.watermark;
    var t := CreateMany(s, u, kind, bits, r.device, addr, size, num).state;
    CarvesKind(s, u, kind, bits, num, dest, size, r.watermark);
    LoopUnfold(s, u, kind, bits, r.device, addr, size, num, y);
    var c := CreateOne(s, u, y, kind, bits, r.device, addr, size);
    CreateOneSame(s, u, y, kind, bits, r.device, addr, size, c);
    assert Same(s, c, u) && Same(s, c, x);
    LoopKeeps(c, u, kind, bits, r.device, addr + size, size, num - 1, t, x);
    LoopKeeps(c, u, kind, bits, r.device, addr + size, size, num - 1, t, y);
  }

  lemma CarvesKind(s: State, u: nat, kind: ObjectType, bits: nat, num: nat, dest: Dest, size: nat, w: nat)
    requires s.Shape() && u < s.N() && Carves(s, u, kind, bits, num, dest, size, w)
    ensures !kind.Null?
  {
  }

  /** No live slot that names the region has untyped children. */
  ghost predicate RegionIdle(s: State, o: Obj)
    requires s.Shape()
  {
    forall x :: 0 <= x < s.N() && s.occ[x] && s.cap[x].obj == o ==> s.ut[x] == []
  }

  /** Rewinding the watermark keeps live memory apart exactly when the region is
      idle through every slot that names it, not just the one reset is called on. */
  lemma ResetMemory(s: State, u: nat, f: State)
    requires s.Shape() && WellFormed(s) && Memory(s) && s.Live(u) && s.cap[u].obj in s.regions
    requires Reset(s, u).status.Ok? && f == Reset(s, u).state
    ensures WellFormed(f) && (Memory(f) <==> RegionIdle(s, s.cap[u].obj))
  {
    hide WellFormed, Memory;
    var o := s.cap[u].obj;
    SetRegionWellFormed(s, o, s.regions[o].(watermark := 0));
    if RegionIdle(s, o) {
      IdleRewind(s, o);
    } else {
      BusyRewind(s, o);
    }
  }

  lemma IdleRewind(s: State, o: Obj)
    requires WellFormed(s) && Memory(s) && o in s.regions && RegionIdle(s, o) && WellFormed(At(s, o, 0))
    ensures Memory(At(s, o, 0))
  {
    var f := At(s, o, 0);
    forall x | 0 <= x < s.N() && s.occ[x]
      ensures SlotMemory(f, x)
    {
      assert SlotMemory(s, x);
      assert Edge(s, x);
      assert s.origin[x].Retyped? ==> x in s.ut[s.parent[x]];
    }
    forall x, y | 0 <= x < s.N() && 0 <= y < s.N() && x != y && s.occ[x] && s.occ[y]
      ensures PairMemory(f, x, y)
    {
      assert PairMemory(s, x, y);
    }
  }

  lemma BusyRewind(s: State, o: Obj)
    requires WellFormed(s) && o in s.regions && !RegionIdle(s, o) && WellFormed(At(s, o, 0))
    ensures !Memory(At(s, o, 0))
  {
    var f := At(s, o, 0);
    var p :| 0 <= p < s.N() && s.occ[p] && s.cap[p].obj == o && s.ut[p] != [];
    var x := s.ut[p][0];
    assert x in s.ut[p];
    assert Edge(s, x);
    if Memory(f) { ObjectsCarved(f, x); }
  }
}
