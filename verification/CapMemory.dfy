/** Memory carved from untyped regions: live objects never overlap unless one is
    an untyped that contains the other, and object identity follows from that. */
module CapMemory {
  import opened Bits
  import opened CapState
  import opened CapForest
  import opened CapOps
  import opened CapRuns

  predicate Disjoint(a: Span, b: Span) {
    a.start + a.len <= b.start || b.start + b.len <= a.start
  }

  predicate Inside(a: Span, b: Span) {
    b.start <= a.start && a.start + a.len <= b.start + b.len
  }

  /** The region slot x was carved from. */
  function Source(s: State, x: nat): Obj
    requires s.Shape() && x < s.N() && s.parent[x] < s.N()
  {
    s.cap[s.parent[x]].obj
  }

  /** Object x sits below its region's watermark, on its alignment. */
  ghost predicate Carved(r: Region, c: Cap, m: Span) {
    var a := Alignment(c.kind, m.len);
    && 0 < a <= m.len
    && r.phys <= m.start && m.start + m.len <= r.phys + r.watermark
    && (m.start - r.phys) % a == 0
  }

  /** An untyped's region is the memory it was created with. */
  ghost predicate RegionOk(r: Region, m: Span) {
    m == Span(r.phys, r.Size()) && r.watermark <= r.Size()
  }

  ghost predicate SlotMemory(s: State, x: nat)
    requires WellFormed(s) && s.Live(x)
  {
    assert Edge(s, x);
    && (s.home[x] == x && s.cap[x].kind.Untyped? ==> RegionOk(s.regions[s.cap[x].obj], s.span[x]))
    && (s.origin[x].Retyped? ==>
          assert Edge(s, s.parent[x]);
          Carved(s.regions[Source(s, x)], s.cap[x], s.span[x]))
    && (s.origin[x].Root? && !s.cap[x].kind.Untyped? ==> s.span[x] == NO_SPAN)
  }

  ghost predicate PairMemory(s: State, x: nat, y: nat)
    requires WellFormed(s) && s.Live(x) && s.Live(y)
  {
    assert Edge(s, x) && Edge(s, y);
    && (s.origin[x].Retyped? && s.origin[y].Retyped? && Source(s, x) == Source(s, y) ==>
          Disjoint(s.span[x], s.span[y]))
    && (s.origin[x].Root? && s.origin[y].Root? ==>
          s.cap[x].obj != s.cap[y].obj && Disjoint(s.span[x], s.span[y]))
  }

  /** Everything carved is below a watermark and apart from its siblings. */
  ghost predicate Memory(s: State)
    requires WellFormed(s)
  {
    && s.layout.Valid()
    && (forall x {:trigger SlotMemory(s, x)} :: 0 <= x < s.N() && s.occ[x] ==> SlotMemory(s, x))
    && (forall x, y {:trigger PairMemory(s, x, y)} ::
          0 <= x < s.N() && 0 <= y < s.N() && x != y && s.occ[x] && s.occ[y] ==> PairMemory(s, x, y))
  }

  // ---- nesting ------------------------------------------------------------

  /** The slot that created the region x was carved from. */
  function Container(s: State, x: nat): nat
    requires s.Shape() && x < s.N() && s.parent[x] < s.N()
  {
    s.home[s.parent[x]]
  }

  lemma ContainerFacts(s: State, x: nat)
    requires WellFormed(s) && Memory(s) && s.Live(x) && s.origin[x].Retyped?
    ensures
      var a := Container(s, x);
      && s.Live(a) && s.home[a] == a && s.cap[a].kind.Untyped? && s.rank[a] < s.rank[x]
      && s.cap[a].obj == Source(s, x) && Inside(s.span[x], s.span[a]) && s.span[x].len > 0
  {
    assert Edge(s, x);
    var p := s.parent[x];
    HomeIsAncestor(s, p);
    assert SlotMemory(s, x) && SlotMemory(s, s.home[p]);
  }

  /** x was carved, directly or through nested untypeds, from the region of a. */
  ghost predicate Within(s: State, a: nat, x: nat)
    requires WellFormed(s) && Memory(s) && s.Live(x)
    decreases s.rank[x]
  {
    s.origin[x].Retyped? &&
    (ContainerFacts(s, x);
     Container(s, x) == a || Within(s, a, Container(s, x)))
  }

  lemma {:induction false} WithinInside(s: State, a: nat, x: nat)
    requires WellFormed(s) && Memory(s) && s.Live(x) && Within(s, a, x)
    ensures s.Live(a) && s.cap[a].kind.Untyped? && s.home[a] == a && Inside(s.span[x], s.span[a])
    decreases s.rank[x]
  {
    ContainerFacts(s, x);
    if Container(s, x) != a { WithinInside(s, a, Container(s, x)); }
  }

  lemma {:induction false} BelowSibling(s: State, x: nat, y: nat)
    requires WellFormed(s) && Memory(s) && s.Live(x) && s.Live(y) && x != y
    requires s.origin[x].Retyped? && (ContainerFacts(s, x); Within(s, Container(s, x), y))
    ensures Disjoint(s.span[x], s.span[y]) || Within(s, x, y)
    decreases s.rank[y]
  {
    ContainerFacts(s, x);
    ContainerFacts(s, y);
    var a, b := Container(s, x), Container(s, y);
    if b == a {
      assert PairMemory(s, x, y);
    } else if b != x {
      BelowSibling(s, x, b);
    }
  }

  /** Any two objects that own memory are apart, unless one is an untyped the
      other was carved from. */
  lemma {:induction false} Laminar(s: State, x: nat, y: nat)
    requires WellFormed(s) && Memory(s) && s.Live(x) && s.Live(y) && x != y
    requires s.home[x] == x && s.home[y] == y
    ensures Disjoint(s.span[x], s.span[y]) || Within(s, x, y) || Within(s, y, x)
    decreases s.rank[x] + s.rank[y], if s.origin[x].Retyped? then 0 else 1
  {
    assert Edge(s, x) && Edge(s, y);
    if s.origin[x].Retyped? {
      ContainerFacts(s, x);
      var a := Container(s, x);
      if y != a {
        Laminar(s, a, y);
        if Within(s, a, y) { BelowSibling(s, x, y); }
      }
    } else if s.origin[y].Retyped? {
      Laminar(s, y, x);
    } else {
      HomeIsAncestor(s, x);
      HomeIsAncestor(s, y);
      assert PairMemory(s, x, y);
    }
  }

  /** Booted regions start at a multiple of their size. */
  ghost predicate BootAligned(s: State)
    requires s.Shape()
  {
    forall x: nat {:trigger s.span[x]} :: s.Live(x) && s.origin[x].Root? && s.cap[x].kind.Untyped? ==>
      s.span[x].len > 0 && s.span[x].start % s.span[x].len == 0
  }

  /** Then every carved object, through any nesting, is aligned in physical memory. */
  lemma {:induction false} PhysicallyAligned(s: State, x: nat, k: nat)
    requires WellFormed(s) && Memory(s) && BootAligned(s) && s.Live(x) && s.origin[x].Retyped?
    requires Alignment(s.cap[x].kind, s.span[x].len) == Pow2(k)
    ensures s.span[x].start % Pow2(k) == 0
    decreases s.rank[x]
  {
    hide Pow2, Memory;
    var j := CarvedFrom(s, x);
    var a := Container(s, x);
    if s.origin[a].Retyped? {
      PhysicallyAligned(s, a, j);
    }
    OffsetAligned(s.span[a].start, s.span[x].start, k, j, s.span[x].len);
  }

  /** The region x was carved from is 2^j bytes, and x's offset in it is aligned. */
  lemma CarvedFrom(s: State, x: nat) returns (j: nat)
    requires WellFormed(s) && Memory(s) && s.Live(x) && s.origin[x].Retyped?
    ensures
      var a := Container(s, x);
      && s.Live(a) && s.cap[a].kind.Untyped? && s.rank[a] < s.rank[x] && (s.origin[a].Root? || s.origin[a].Retyped?)
      && s.span[a].len == Pow2(j) && s.span[a].start <= s.span[x].start && s.span[x].len <= Pow2(j)
      && 0 < Alignment(s.cap[x].kind, s.span[x].len) <= s.span[x].len
      && (s.span[x].start - s.span[a].start) % Alignment(s.cap[x].kind, s.span[x].len) == 0
  {
    hide Pow2;
    ContainerFacts(s, x);
    var a := Container(s, x);
    HomeIsAncestor(s, a);
    assert Edge(s, x) && SlotMemory(s, x);
    j := s.regions[s.cap[a].obj].bits % 64;
    RegionLength(s, a);
  }

  lemma RegionLength(s: State, a: nat)
    requires WellFormed(s) && Memory(s) && s.Live(a) && s.home[a] == a && s.cap[a].kind.Untyped?
    ensures s.cap[a].obj in s.regions
    ensures s.span[a] == Span(s.regions[s.cap[a].obj].phys, Pow2(s.regions[s.cap[a].obj].bits % 64))
  {
    hide Pow2;
    assert Edge(s, a) && SlotMemory(s, a);
  }

  lemma OffsetAligned(base: nat, start: nat, k: nat, j: nat, len: nat)
    requires base % Pow2(j) == 0 && base <= start && Pow2(k) <= len <= Pow2(j) && (start - base) % Pow2(k) == 0
    ensures start % Pow2(k) == 0
  {
    if j < k { Pow2Less(j, k); }
    hide Pow2;
    PowerDivides(k, j);
    Multiple(base, Pow2(j), Pow2(k));
    MultiplesAdd(base, start - base, Pow2(k));
  }

  lemma MultiplesAdd(x: nat, y: nat, m: nat)
    requires m > 0 && x % m == 0 && y % m == 0
    ensures (x + y) % m == 0
  {
    assert x + y == (x / m + y / m) * m;
    DivModUnique(x + y, m, x / m + y / m, 0);
  }

  /** Distinct creations have distinct objects. */
  lemma ObjectsUnique(s: State, x: nat, y: nat)
    requires WellFormed(s) && Memory(s) && s.Live(x) && s.Live(y) && x != y
    requires s.home[x] == x && s.home[y] == y
    ensures s.cap[x].obj != s.cap[y].obj
  {
    HomeIsAncestor(s, x);
    HomeIsAncestor(s, y);
    assert Edge(s, x) && Edge(s, y);
    if s.origin[x].Retyped? && s.origin[y].Retyped? {
      Laminar(s, x, y);
      ContainerFacts(s, x);
      ContainerFacts(s, y);
      if Within(s, x, y) { WithinInside(s, x, y); }
      if Within(s, y, x) { WithinInside(s, y, x); }
    } else {
      assert PairMemory(s, x, y);
    }
  }

  // ---- preservation -------------------------------------------------------

  /** The same region, its watermark no lower and still inside. */
  predicate Grown(r: Region, r': Region) {
    r'.phys == r.phys && r'.bits == r.bits && r.watermark <= r'.watermark <= r'.Size()
  }

  /** Slot x and the slot it was derived from are the same in both states, and the
      regions they name only grew. */
  ghost predicate Stays(s: State, t: State, x: nat)
    requires WellFormed(s) && WellFormed(t) && t.N() == s.N() && s.Live(x)
  {
    && Same(s, t, x) && (s.cap[x].kind.Untyped? ==> SameRegion(s, t, s.cap[x].obj))
    && (s.parent[x] != NONE ==> Same(s, t, s.parent[x]))
    && (s.origin[x].Retyped? && s.parent[x] != NONE ==> SameRegion(s, t, Source(s, x)))
  }

  ghost predicate SameRegion(s: State, t: State, o: Obj) {
    o in s.regions ==> o in t.regions && Grown(s.regions[o], t.regions[o])
  }

  lemma SlotMemoryStays(s: State, t: State, x: nat)
    requires WellFormed(s) && WellFormed(t) && t.N() == s.N() && s.Live(x)
    requires SlotMemory(s, x) && Stays(s, t, x)
    ensures SlotMemory(t, x)
  {
    assert Edge(s, x);
    if s.origin[x].Retyped? { assert Edge(s, s.parent[x]); }
  }

  lemma PairMemoryStays(s: State, t: State, x: nat, y: nat)
    requires WellFormed(s) && WellFormed(t) && t.N() == s.N() && s.Live(x) && s.Live(y)
    requires PairMemory(s, x, y) && Stays(s, t, x) && Stays(s, t, y)
    ensures PairMemory(t, x, y)
  {
    assert Edge(s, x) && Edge(s, y);
  }

  /** Every live slot of t except possibly d was there in s and stayed. */
  ghost predicate AllStay(s: State, t: State, d: nat)
    requires WellFormed(s) && WellFormed(t)
  {
    && t.N() == s.N() && t.layout == s.layout
    && (forall x :: 0 <= x < s.N() && t.occ[x] && x != d ==> s.occ[x])
    && (forall x {:trigger Stays(s, t, x)} :: 0 <= x < s.N() && t.occ[x] && x != d ==> Stays(s, t, x))
  }

  lemma AllPairsStay(s: State, t: State, d: nat)
    requires s.Shape() && t.Shape() && WellFormed(s) && Memory(s) && WellFormed(t) && AllStay(s, t, d)
    ensures forall x, y {:trigger PairMemory(t, x, y)} ::
      0 <= x < t.N() && 0 <= y < t.N() && x != y && t.occ[x] && t.occ[y] && x != d && y != d ==> PairMemory(t, x, y)
  {
    hide WellFormed, Stays, PairMemory, SlotMemory;
    forall x, y | 0 <= x < t.N() && 0 <= y < t.N() && x != y && t.occ[x] && t.occ[y] && x != d && y != d
      ensures PairMemory(t, x, y)
    {
      assert Stays(s, t, x) && Stays(s, t, y) && PairMemory(s, x, y);
      PairMemoryStays(s, t, x, y);
    }
  }

  lemma AllSlotsStay(s: State, t: State, d: nat)
    requires s.Shape() && t.Shape() && WellFormed(s) && Memory(s) && WellFormed(t) && AllStay(s, t, d)
    ensures forall x {:trigger SlotMemory(t, x)} :: 0 <= x < t.N() && t.occ[x] && x != d ==> SlotMemory(t, x)
  {
    hide WellFormed, Stays, PairMemory, SlotMemory;
    forall x | 0 <= x < t.N() && t.occ[x] && x != d
      ensures SlotMemory(t, x)
    {
      assert Stays(s, t, x) && SlotMemory(s, x);
      SlotMemoryStays(s, t, x);
    }
  }

  lemma MemoryStays(s: State, t: State, d: nat)
    requires s.Shape() && t.Shape() && WellFormed(s) && Memory(s) && WellFormed(t) && AllStay(s, t, d)
    requires t.Live(d) ==> SlotMemory(t, d)
    requires t.Live(d) ==> forall y {:trigger PairMemory(t, d, y)} :: 0 <= y < s.N() && t.occ[y] && y != d ==>
      PairMemory(t, d, y)
    ensures Memory(t)
  {
    hide WellFormed, Stays, PairMemory, SlotMemory;
    AllSlotsStay(s, t, d);
    AllPairsStay(s, t, d);
    forall x | 0 <= x < t.N() && t.occ[x] && t.Live(d) && x != d
      ensures PairMemory(t, x, d)
    {
      assert PairMemory(t, d, x);
      PairSymmetric(t, d, x);
    }
  }

  lemma PairSymmetric(s: State, x: nat, y: nat)
    requires WellFormed(s) && s.Live(x) && s.Live(y) && PairMemory(s, x, y)
    ensures PairMemory(s, y, x)
  {
  }

  lemma RevokedMemory(s: State, x: nat, r: State)
    requires WellFormed(s) && Memory(s) && s.Live(x) && Revoked(s, x, r) && WellFormed(r)
    ensures Memory(r)
  {
    forall y | 0 <= y < s.N() && r.occ[y]
      ensures s.occ[y] && Stays(s, r, y)
    {
      assert SameSlot(s, x, r, y);
      var p := s.parent[y];
      if p != NONE { assert SameSlot(s, x, r, p); }
      assert Edge(s, y);
      if s.cap[y].kind.Untyped? { RegionsInBounds(s, y); }
      if s.origin[y].Retyped? { RegionsInBounds(s, p); }
    }
    assert AllStay(s, r, x);
    MemoryStays(s, r, x);
  }

  /** Every named region keeps its watermark inside. */
  lemma RegionsInBounds(s: State, x: nat)
    requires WellFormed(s) && Memory(s) && s.Live(x) && s.cap[x].kind.Untyped?
    ensures SameRegion(s, s, s.cap[x].obj)
  {
    HomeIsAncestor(s, x);
    assert SlotMemory(s, s.home[x]);
  }

  ghost predicate NamedRegionsGrow(s: State, t: State)
    requires s.Shape()
  {
    forall x {:trigger s.cap[x]} :: 0 <= x < s.N() && s.occ[x] && s.cap[x].kind.Untyped? ==>
      SameRegion(s, t, s.cap[x].obj)
  }

  lemma RegionsUntouched(s: State, t: State)
    requires WellFormed(s) && Memory(s) && t.regions == s.regions
    ensures NamedRegionsGrow(s, t)
  {
    forall x | 0 <= x < s.N() && s.occ[x] && s.cap[x].kind.Untyped?
      ensures SameRegion(s, t, s.cap[x].obj)
    {
      RegionsInBounds(s, x);
    }
  }

  /** Adding slot d, with the named regions at most growing. */
  lemma NewSlotAllStay(s: State, t: State, d: nat)
    requires WellFormed(s) && WellFormed(t) && t.N() == s.N() && t.layout == s.layout
    requires d < s.N() && !s.occ[d] && NamedRegionsGrow(s, t)
    requires forall y {:trigger Same(s, t, y)} :: 0 <= y < s.N() && y != d ==> Same(s, t, y)
    ensures AllStay(s, t, d)
  {
    forall x | 0 <= x < s.N() && t.occ[x] && x != d
      ensures s.occ[x] && Stays(s, t, x)
    {
      assert Same(s, t, x);
      assert Edge(s, x);
      if s.parent[x] != NONE { assert Same(s, t, s.parent[x]); }
    }
  }

  lemma DeriveMemory(s: State, src: nat, d: nat, c: Cap, how: Origin)
    requires WellFormed(s) && Memory(s) && s.Live(src) && d < s.N() && !s.occ[d] && MayDerive(s.cap[src], c, how)
    requires WellFormed(Derive(s, src, d, c, how))
    ensures Memory(Derive(s, src, d, c, how))
  {
    var t := Derive(s, src, d, c, how);
    RegionsUntouched(s, t);
    assert forall y :: 0 <= y < s.N() && y != d ==> Same(s, t, y);
    NewSlotAllStay(s, t, d);
    HomeIsAncestor(s, src);
    MemoryStays(s, t, d);
  }

  lemma FreeSlotReusable(s: State, d: nat)
    requires WellFormed(s) && Memory(s) && d < s.N() && !s.occ[d] && WellFormed(TakeAndFree(s, d))
    ensures Memory(TakeAndFree(s, d))
  {
    var t := TakeAndFree(s, d);
    RegionsUntouched(s, t);
    assert forall y :: 0 <= y < s.N() && y != d ==> Same(s, t, y);
    NewSlotAllStay(s, t, d);
    MemoryStays(s, t, d);
  }

  /** Boot hands out static objects not yet named, over memory not yet handed out. */
  ghost predicate BootFresh(s: State, id: nat, kind: ObjectType, region: Region)
    requires s.Shape()
  {
    forall x :: 0 <= x < s.N() && s.occ[x] ==>
      s.cap[x].obj != Static(id) &&
      (kind.Untyped? && s.origin[x].Root? ==> Disjoint(s.span[x], Span(region.phys, region.Size())))
  }

  lemma BootMemory(s: State, id: nat, kind: ObjectType, rights: Rights, region: Region)
    requires WellFormed(s) && Memory(s) && BootFresh(s, id, kind, region)
    requires WellFormed(Boot(s, id, kind, rights, region).state)
    ensures Memory(Boot(s, id, kind, rights, region).state)
  {
    var d, t := AllocIndex(s), Boot(s, id, kind, rights, region).state;
    if d < s.N() {
      RegionsUntouched(s, s);
      BootFields(s, id, kind, rights, region, d, t);
      hide Boot;
      NewSlotAllStay(s, t, d);
      forall y | 0 <= y < s.N() && t.occ[y] && y != d
        ensures PairMemory(t, d, y)
      {
        assert Same(s, t, y);
        BootPair(s, id, kind, region, d, t, y);
      }
      MemoryStays(s, t, d);
    }
  }

  lemma BootFields(s: State, id: nat, kind: ObjectType, rights: Rights, region: Region, d: nat, t: State)
    requires WellFormed(s) && NamedRegionsGrow(s, s) && BootFresh(s, id, kind, region)
    requires d == AllocIndex(s) < s.N() && t == Boot(s, id, kind, rights, region).state
    ensures t.Shape() && t.N() == s.N() && NamedRegionsGrow(s, t) && t.layout == s.layout
    ensures forall y {:trigger Same(s, t, y)} :: 0 <= y < s.N() && y != d ==> Same(s, t, y)
    ensures t.Live(d) && !s.occ[d] && t.origin[d].Root? && t.home[d] == d && t.cap[d].obj == Static(id)
      && t.cap[d].kind == kind
    ensures if kind.Untyped? then Static(id) in t.regions && t.regions[Static(id)] == region.(watermark := 0)
              && t.span[d] == Span(region.phys, region.Size())
            else t.span[d] == NO_SPAN
  {
    hide AllocIndex, Memory;
  }

  lemma BootPair(s: State, id: nat, kind: ObjectType, region: Region, d: nat, t: State, y: nat)
    requires WellFormed(s) && Memory(s) && WellFormed(t) && BootFresh(s, id, kind, region) && t.N() == s.N()
      && s.Live(y)
    requires t.Live(d) && t.origin[d].Root? && t.cap[d].obj == Static(id) && y != d && Same(s, t, y)
    requires t.span[d] == if kind.Untyped? then Span(region.phys, region.Size()) else NO_SPAN
    ensures PairMemory(t, d, y)
  {
    assert Edge(s, y);
    if s.origin[y].Root? { assert SlotMemory(s, y); }
  }

  // ---- carving ------------------------------------------------------------

  /** t is a with one more object, carved at the watermark of region o through
      slot u into slot d, and the watermark moved past it. */
  ghost predicate CarvedOne(a: State, t: State, u: nat, o: Obj, d: nat, kind: ObjectType, bits: nat, size: nat)
    requires a.Shape() && t.Shape() && o in a.regions && t.N() == a.N()
  {
    var r := a.regions[o];
    && a.Live(u) && a.cap[u].kind.Untyped? && a.cap[u].obj == o && d < a.N() && !a.occ[d] && t.layout == a.layout
    && (forall y {:trigger Same(a, t, y)} :: 0 <= y < a.N() && y != d ==> Same(a, t, y))
    && t.occ[d] && t.parent[d] == u && t.origin[d] == Retyped && t.home[d] == d
    && t.span[d] == Span(r.phys + r.watermark, size)
    && t.cap[d] == Cap(NewObject(kind, d, r.phys + r.watermark), 0, ALL_RIGHTS, kind, 0)
    && t.regions == (if kind.Untyped? then a.regions[UntypedAt(d) := Region(r.phys + r.watermark, bits, 0, r.device)]
                     else a.regions)[o := r.(watermark := r.watermark + size)]
  }

  /** The next object is of a real size, its place is aligned, and it fits. */
  ghost predicate Fits(a: State, o: Obj, kind: ObjectType, bits: nat, size: nat)
    requires o in a.regions
  {
    var r := a.regions[o];
    && !kind.Null? && ObjectSize(a.layout, kind, bits) == Size(size) && size > 0 && Alignment(kind, size) > 0
    && r.watermark % Alignment(kind, size) == 0 && r.watermark + size <= r.Size()
  }

  lemma FreshSlotUnnamed(s: State, x: nat, d: nat)
    requires WellFormed(s) && s.Live(x) && d < s.N() && !s.occ[d]
    ensures s.cap[x].obj != UntypedAt(d)
  {
    if s.cap[x].obj.UntypedAt? { MetadataOwnedBySubtree(s, x); }
  }

  lemma CarvedOneRegions(a: State, t: State, u: nat, o: Obj, d: nat, kind: ObjectType, bits: nat, size: nat)
    requires WellFormed(a) && Memory(a) && t.Shape() && o in a.regions && t.N() == a.N()
    requires CarvedOne(a, t, u, o, d, kind, bits, size) && Fits(a, o, kind, bits, size)
    requires d < a.N() && !a.occ[d]
    ensures NamedRegionsGrow(a, t)
  {
    hide CarvedOne;
    forall x | 0 <= x < a.N() && a.occ[x] && a.cap[x].kind.Untyped?
      ensures SameRegion(a, t, a.cap[x].obj)
    {
      RegionsInBounds(a, x);
      FreshSlotUnnamed(a, x, d);
      GrownAt(a, t, u, o, d, kind, bits, size, a.cap[x].obj);
    }
  }

  lemma GrownAt(a: State, t: State, u: nat, o: Obj, d: nat, kind: ObjectType, bits: nat, size: nat, o': Obj)
    requires a.Shape() && t.Shape() && o in a.regions && t.N() == a.N()
    requires CarvedOne(a, t, u, o, d, kind, bits, size) && Fits(a, o, kind, bits, size)
    requires SameRegion(a, a, o') && o' != UntypedAt(d)
    ensures SameRegion(a, t, o')
  {
  }

  lemma CarvedOneMemory(a: State, t: State, u: nat, o: Obj, d: nat, kind: ObjectType, bits: nat, size: nat)
    requires a.Shape() && t.Shape() && WellFormed(a) && Memory(a) && WellFormed(t) && o in a.regions && t.N() == a.N()
    requires CarvedOne(a, t, u, o, d, kind, bits, size) && Fits(a, o, kind, bits, size)
    ensures Memory(t)
  {
    CarvedOneRegions(a, t, u, o, d, kind, bits, size);
    NewSlotAllStay(a, t, d);
    FreshSlotUnnamed(a, u, d);
    CarvedSlotMemory(a, t, u, o, d, kind, bits, size);
    forall y | 0 <= y < a.N() && t.occ[y] && y != d
      ensures PairMemory(t, d, y)
    {
      assert Same(a, t, y);
      CarvedPairMemory(a, t, u, o, d, kind, bits, size, y);
    }
    MemoryStays(a, t, d);
  }

  lemma CarvedSlotFacts(a: State, t: State, u: nat, o: Obj, d: nat, kind: ObjectType, bits: nat, size: nat)
    requires a.Shape() && t.Shape() && o in a.regions && t.N() == a.N() && o != UntypedAt(d)
    requires CarvedOne(a, t, u, o, d, kind, bits, size) && Fits(a, o, kind, bits, size)
    ensures t.Live(d) && t.parent[d] == u && t.cap[u].obj == o && t.home[d] == d && t.origin[d].Retyped?
    ensures o in t.regions && Carved(t.regions[o], t.cap[d], t.span[d])
    ensures kind.Untyped? ==> t.cap[d].obj in t.regions && RegionOk(t.regions[t.cap[d].obj], t.span[d])
    ensures t.cap[d].kind == kind
  {
    assert Same(a, t, u);
  }

  lemma CarvedSlotMemory(a: State, t: State, u: nat, o: Obj, d: nat, kind: ObjectType, bits: nat, size: nat)
    requires t.Shape() && WellFormed(t) && o in a.regions && t.N() == a.N() && a.Shape() && o != UntypedAt(d)
    requires CarvedOne(a, t, u, o, d, kind, bits, size) && Fits(a, o, kind, bits, size)
    requires t.Live(d)
    ensures SlotMemory(t, d)
  {
    hide WellFormed, Edge, CarvedOne, Fits;
    CarvedSlotFacts(a, t, u, o, d, kind, bits, size);
  }

  lemma CarvedPairMemory(a: State, t: State, u: nat, o: Obj, d: nat, kind: ObjectType, bits: nat, size: nat, y: nat)
    requires WellFormed(a) && Memory(a) && WellFormed(t) && o in a.regions && t.N() == a.N()
    requires CarvedOne(a, t, u, o, d, kind, bits, size) && a.Live(y) && t.Live(y) && y != d && Same(a, t, y)
    ensures PairMemory(t, d, y)
  {
    assert SlotMemory(a, y);
    assert Edge(a, y);
    assert Same(a, t, u);
    if a.origin[y].Retyped? { assert Same(a, t, a.parent[y]); }
  }

  /** s with the watermark of region o moved to w. */
  function At(s: State, o: Obj, w: nat): State
    requires o in s.regions
  {
    SetRegion(s, o, s.regions[o].(watermark := w))
  }

  /** One turn of the allocation loop, seen at the watermark it will commit. */
  lemma CreateOneMemory(s: State, u: nat, o: Obj, d: nat, kind: ObjectType, bits: nat, w: nat, size: nat, c: State)
    requires s.Shape() && WellFormed(s) && s.Live(u) && s.cap[u].obj == o && o in s.regions && d < s.N() && !s.occ[d]
    requires s.cap[u].kind.Untyped? && !kind.Null?
    requires WellFormed(At(s, o, w)) && Memory(At(s, o, w)) && Fits(At(s, o, w), o, kind, bits, size)
    requires c == CreateOne(s, u, d, kind, bits, s.regions[o].device, s.regions[o].phys + w, size)
    ensures WellFormed(c) && o in c.regions && c.regions[o] == s.regions[o]
    ensures WellFormed(At(c, o, w + size)) && Memory(At(c, o, w + size))
  {
    hide WellFormed, Memory, Fits, CarvedOne, CreateOne;
    var r := s.regions[o];
    CreateOneWellFormed(s, u, d, kind, bits, r.device, r.phys + w, size);
    FreshSlotUnnamed(s, u, d);
    CreateOneCarves(s, u, o, d, kind, bits, w, size);
    SetRegionWellFormed(c, o, r.(watermark := w + size));
    CarvedOneMemory(At(s, o, w), At(c, o, w + size), u, o, d, kind, bits, size);
  }

  lemma CreateOneCarves(s: State, u: nat, o: Obj, d: nat, kind: ObjectType, bits: nat, w: nat, size: nat)
    requires s.Shape() && s.Live(u) && s.cap[u].obj == o && o in s.regions && d < s.N() && !s.occ[d]
    requires s.cap[u].kind.Untyped? && o != UntypedAt(d)
    ensures
      var r := s.regions[o];
      var c := CreateOne(s, u, d, kind, bits, r.device, r.phys + w, size);
      o in c.regions && c.regions[o] == r && CarvedOne(At(s, o, w), At(c, o, w + size), u, o, d, kind, bits, size)
  {
    hide CreateOne;
    var r := s.regions[o];
    var c := CreateOne(s, u, d, kind, bits, r.device, r.phys + w, size);
    CreateOneThere(s, u, d, kind, bits, r.device, r.phys + w, size, c);
    var a, t := At(s, o, w), At(c, o, w + size);
    forall y {:trigger Same(a, t, y)} | 0 <= y < s.N() && y != d ensures Same(a, t, y) {
      CreateOneElsewhere(s, u, d, kind, bits, r.device, r.phys + w, size, y);
    }
  }

  lemma CreateOneThere(s: State, u: nat, d: nat, kind: ObjectType, bits: nat, device: bool, addr: nat, size: nat,
      c: State)
    requires s.Shape() && u < s.N() && d < s.N() && c == CreateOne(s, u, d, kind, bits, device, addr, size)
    ensures c.Shape() && c.N() == s.N() && c.layout == s.layout
    ensures c.occ[d] && c.parent[d] == u && c.origin[d] == Retyped && c.home[d] == d && c.span[d] == Span(addr, size)
    ensures c.cap[d] == Cap(NewObject(kind, d, addr), 0, ALL_RIGHTS, kind, 0)
    ensures c.regions == if kind.Untyped? then s.regions[UntypedAt(d) := Region(addr, bits, 0, device)] else s.regions
  {
  }

  lemma CreateOneElsewhere(s: State, u: nat, d: nat, kind: ObjectType, bits: nat, device: bool, addr: nat, size: nat,
      y: nat)
    requires s.Shape() && u < s.N() && d < s.N() && !s.occ[d] && y < s.N() && y != d
    ensures Same(s, CreateOne(s, u, d, kind, bits, device, addr, size), y)
  {
  }
}
