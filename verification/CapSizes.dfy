/** How much memory objects take: in every run each carved object spans exactly what its
    kind needs. */
module CapSizes {
  import opened Bits
  import opened CapState
  import opened CapForest
  import opened CapOps
  import opened CapRuns
  import opened CapMemory
  import opened CapRetype
  import opened CapRefs

  /** The bytes an object of a kind takes, from the kernel's structures and the request's
      size bits. Shifts wrap at 64. */
  ghost predicate Occupies(l: Layout, kind: ObjectType, bits: nat, len: nat) {
    match kind
    case Null => false
    case Endpoint => len == l.endpoint
    case Notification => len == l.notification
    case Tcb => len == l.tcb
    case IrqHandler => len == l.irqHandler
    case IoPort => len == l.ioPort
    case SchedContext => len == l.schedContext
    case VSpace => len == 4096 + l.tracking
    case Frame => len == Pow2((if bits < 12 then 12 else bits) % 64)
    case Untyped => len == Pow2(bits % 64)
    case MemoryObject => len % 4096 == 0 && l.memoryObject <= len < l.memoryObject + 4096
    case CNode => (bits == 0 || 4 <= bits <= 16) && len == 24 + 4 * Pow2(if bits == 0 then 10 else bits)
  }

  /** The size the kernel computes is that size, and it computes none only for CNodes of
      1 to 3 or more than 16 bits. */
  lemma SizeOccupies(l: Layout, kind: ObjectType, bits: nat)
    requires !kind.Null?
    ensures ObjectSize(l, kind, bits).Size? ==> Occupies(l, kind, bits, ObjectSize(l, kind, bits).bytes)
    ensures ObjectSize(l, kind, bits).BadSize? <==> kind.CNode? && (1 <= bits <= 3 || bits > 16)
    ensures ObjectSize(l, kind, bits).BadSize? ==> ObjectSize(l, kind, bits).error == InvalidArgument
  {
    hide Pow2, AlignUp;
    if kind.MemoryObject? { PageRounded(l.memoryObject); }
  }

  lemma PageRounded(n: nat)
    ensures
      var m := AlignUp(AlignUp(n, 64), 4096);
      m % 4096 == 0 && n <= m < n + 4096
  {
    var a := (n + 63) / 64;
    var b := (64 * a + 4095) / 4096;
    assert AlignUp(n, 64) == 64 * a && AlignUp(64 * a, 4096) == 4096 * b;
    assert 64 * b < a + 64;
  }

  lemma OccupiesOne(l: Layout, kind: ObjectType, bits: nat, m: nat, n: nat)
    requires Occupies(l, kind, bits, m) && Occupies(l, kind, bits, n)
    ensures m == n
  {
    hide Pow2;
  }

  // ---- every live object --------------------------------------------------

  /** A carved object, and a booted region, spans what its kind takes. */
  ghost predicate SizedSlot(s: State, x: nat)
    requires s.Shape() && s.Live(x)
  {
    s.origin[x].Retyped? || (s.origin[x].Root? && s.cap[x].kind.Untyped?) ==>
      exists bits: nat :: Occupies(s.layout, s.cap[x].kind, bits, s.span[x].len)
  }

  ghost predicate Sized(s: State) {
    s.Shape() && forall x: nat {:trigger SizedSlot(s, x)} :: s.Live(x) ==> SizedSlot(s, x)
  }

  /** What a slot's size depends on. */
  ghost predicate SameOwner(s: State, t: State, x: nat)
    requires s.Shape() && t.Shape()
  {
    s.Live(x) && t.Live(x) && t.cap[x] == s.cap[x] && t.origin[x] == s.origin[x] && t.span[x] == s.span[x]
  }

  lemma SizedKept(s: State, t: State)
    requires Sized(s) && t.Shape() && t.layout == s.layout
    requires forall x: nat {:trigger t.Live(x)} :: t.Live(x) ==> SameOwner(s, t, x) || SizedSlot(t, x)
    ensures Sized(t)
  {
    forall x: nat {:trigger SizedSlot(t, x)} | t.Live(x) ensures SizedSlot(t, x) {
      if SameOwner(s, t, x) { assert SizedSlot(s, x); }
    }
  }

  lemma TakeAndFreeSized(s: State, d: nat)
    requires Sized(s) && d < s.N() && !s.occ[d]
    ensures Sized(TakeAndFree(s, d))
  {
    hide Occupies;
    SizedKept(s, TakeAndFree(s, d));
  }

  lemma DeriveSized(s: State, src: nat, d: nat, c: Cap, how: Origin)
    requires Sized(s) && src < s.N() && d < s.N() && !s.occ[d] && (how.Copied? || how.Minted?)
    ensures Sized(Derive(s, src, d, c, how))
  {
    hide Occupies;
    SizedKept(s, Derive(s, src, d, c, how));
  }

  lemma RevokedSized(s: State, x: nat, r: State)
    requires Sized(s) && Forest(s) && Revoked(s, x, r)
    ensures Sized(r)
  {
    hide Occupies, Forest;
    ShapeOf(r);
    forall y: nat {:trigger r.Live(y)} | r.Live(y) ensures SameOwner(s, r, y) {
      assert SameSlot(s, x, r, y);
    }
    SizedKept(s, r);
  }

  lemma ShapeOf(s: State)
    requires Forest(s)
    ensures s.Shape()
  {
  }

  lemma CreateOneSized(s: State, u: nat, d: nat, kind: ObjectType, bits: nat, device: bool, addr: nat, size: nat)
    requires Sized(s) && u < s.N() && d < s.N() && !s.occ[d] && Occupies(s.layout, kind, bits, size)
    ensures
      var c := CreateOne(s, u, d, kind, bits, device, addr, size);
      Sized(c) && c.N() == s.N() && c.layout == s.layout
  {
    hide Occupies, CreateOne;
    var c := CreateOne(s, u, d, kind, bits, device, addr, size);
    CreateOneThere(s, u, d, kind, bits, device, addr, size, c);
    forall x: nat {:trigger c.Live(x)} | c.Live(x) && x != d ensures SameOwner(s, c, x) {
      CreateOneElsewhere(s, u, d, kind, bits, device, addr, size, x);
    }
    assert SizedSlot(c, d);
    SizedKept(s, c);
  }

  lemma {:induction false} LoopSized(s: State, u: nat, kind: ObjectType, bits: nat, device: bool, addr: nat, size: nat,
      num: nat)
    requires Sized(s) && u < s.N() && Occupies(s.layout, kind, bits, size)
    ensures Sized(CreateMany(s, u, kind, bits, device, addr, size, num).state)
    decreases num
  {
    hide AllocIndex, CreateOne, Occupies, Sized;
    AllocatorFinds(s);
    SizedShape(s);
    var d := AllocIndex(s);
    if num > 0 && d < s.N() {
      CreateOneSized(s, u, d, kind, bits, device, addr, size);
      OccupiesKind(s.layout, kind, bits, size);
      LoopUnfold(s, u, kind, bits, device, addr, size, num, d);
      LoopSized(CreateOne(s, u, d, kind, bits, device, addr, size), u, kind, bits, device, addr + size, size, num - 1);
    }
  }

  lemma SizedShape(s: State)
    requires Sized(s)
    ensures s.Shape()
  {
  }

  lemma OccupiesKind(l: Layout, kind: ObjectType, bits: nat, len: nat)
    requires Occupies(l, kind, bits, len)
    ensures !kind.Null?
  {
  }

  lemma SetRegionSized(s: State, o: Obj, r: Region)
    requires Sized(s)
    ensures Sized(SetRegion(s, o, r))
  {
    hide Occupies;
    SizedKept(s, SetRegion(s, o, r));
  }

  lemma CarveSized(s: State, u: nat, o: Obj, kind: ObjectType, bits: nat, size: nat, num: nat, total: nat)
    requires Sized(s) && u < s.N() && o in s.regions && Occupies(s.layout, kind, bits, size)
    ensures Sized(Carve(s, u, o, kind, bits, size, num, total).state)
  {
    hide Occupies, Sized, CreateMany;
    var r := s.regions[o];
    SizedShape(s);
    LoopSized(s, u, kind, bits, r.device, r.phys + r.watermark, size, num);
    var t := CreateMany(s, u, kind, bits, r.device, r.phys + r.watermark, size, num).state;
    SetRegionSized(t, o, r.(watermark := (r.watermark + total) % U64));
  }

  /** Retype of nothing takes a slot and gives it back. */
  lemma NullSized(s: State, u: nat, o: Obj, kind: ObjectType, bits: nat, num: nat)
    requires Sized(s) && u < s.N() && o in s.regions && kind.Null?
    ensures Sized(Carve(s, u, o, kind, bits, 0, num, 0).state)
  {
    hide AllocIndex, TakeAndFree, Sized;
    SizedShape(s);
    AllocatorFinds(s);
    var r := s.regions[o];
    SetRegionSized(s, o, r.(watermark := (r.watermark + 0) % U64));
    if AllocIndex(s) < s.N() { TakeAndFreeSized(s, AllocIndex(s)); }
  }

  lemma RetypeSized(s: State, u: nat, kind: ObjectType, bits: nat, num: nat, dest: Dest)
    requires Sized(s) && u < s.N()
    ensures s.Shape() && Sized(Retype(s, u, kind, bits, num, dest).state)
  {
    hide Occupies, Sized, Carve, AlignUp, ObjectSize;
    SizedShape(s);
    var o, sz := s.cap[u].obj, ObjectSize(s.layout, kind, bits);
    if s.cap[u].kind.Untyped? && o in s.regions && sz.Size? {
      if kind.Null? {
        NullSize(s.layout, bits);
        NullSized(s, u, o, kind, bits, num);
      } else {
        SizeOccupies(s.layout, kind, bits);
        if sz.bytes == 0 {
          CarveSized(s, u, o, kind, bits, 0, num, 0);
        } else if Alignment(kind, sz.bytes) > 0 {
          var w := AlignUp(s.regions[o].watermark, Alignment(kind, sz.bytes));
          SetRegionSized(s, o, s.regions[o].(watermark := w));
          CarveSized(At(s, o, w), u, o, kind, bits, sz.bytes, num, Bytes(sz.bytes, num) % U64);
        }
      }
    }
  }

  lemma NullSize(l: Layout, bits: nat)
    ensures ObjectSize(l, Null, bits) == Size(0)
  {
  }

  lemma BootSized(s: State, id: nat, kind: ObjectType, rights: Rights, region: Region)
    requires Sized(s)
    ensures Sized(Boot(s, id, kind, rights, region).state)
  {
    hide AllocIndex, Occupies, Pow2;
    AllocatorFinds(s);
    var d, t := AllocIndex(s), Boot(s, id, kind, rights, region).state;
    if d < s.N() {
      UntypedSize(s.layout, region);
      assert t.Live(d) && t.cap[d].kind == kind;
      assert kind.Untyped? ==> t.span[d].len == region.Size();
      assert SizedSlot(t, d);
      SizedKept(s, t);
    }
  }

  lemma UntypedSize(l: Layout, r: Region)
    ensures Occupies(l, Untyped, r.bits, r.Size())
  {
  }

  lemma CopySized(s: State, src: nat, rights: Rights)
    requires Sized(s) && src < s.N()
    ensures s.Shape() && Sized(Copy(s, src, rights).state)
  {
    hide AllocIndex, Sized, Copy, Derive, TakeAndFree, MayDerive;
    SizedShape(s);
    AllocatorFinds(s);
    CopyOutcomes(s, src, rights);
    var d, c := AllocIndex(s), s.cap[src].(rights := rights, depth := s.cap[src].depth + 1);
    if d < s.N() {
      TakeAndFreeSized(s, d);
      DeriveSized(s, src, d, c, Copied);
    }
  }

  lemma MintSized(s: State, src: nat, badge: nat, rights: Rights)
    requires Sized(s) && src < s.N()
    ensures s.Shape() && Sized(Mint(s, src, badge, rights).state)
  {
    hide AllocIndex, Sized, Mint, Derive, TakeAndFree, MayDerive;
    SizedShape(s);
    AllocatorFinds(s);
    MintOutcomes(s, src, badge, rights);
    var d, c := AllocIndex(s), s.cap[src].(rights := rights, badge := badge, depth := s.cap[src].depth + 1);
    if d < s.N() {
      TakeAndFreeSized(s, d);
      DeriveSized(s, src, d, c, Minted);
    }
  }

  lemma DeleteSized(s: State, x: nat)
    requires Sized(s) && Forest(s) && x < s.N()
    ensures s.Shape() && Sized(Delete(s, x).state)
  {
    hide Sized, Forest, Revoked, DeleteLeaf;
    SizedShape(s);
    if s.kids[x] == [] {
      if s.occ[x] {
        DeleteLeafIsRevocation(s, x);
        RevokedSized(s, x, DeleteLeaf(s, x));
      } else {
        DeleteOfFreeSlot(s, x);
        CursorSized(s, if x < s.next then x else s.next);
      }
    }
  }

  lemma CursorSized(s: State, next: nat)
    requires Sized(s)
    ensures Sized(s.(next := next))
  {
    hide Occupies;
    SizedKept(s, s.(next := next));
  }

  lemma HeldSized(s: State, held: set<Obj>)
    requires Sized(s)
    ensures Sized(s.(held := held))
  {
    hide Occupies;
    SizedKept(s, s.(held := held));
  }

  lemma RevokeSized(s: State, x: nat)
    requires Sized(s) && Forest(s) && x < s.N()
    ensures Sized(RevokeSlot(s, x).state)
  {
    hide Sized, Forest, Revoked;
    SizedShape(s);
    if s.occ[x] { RevokedSized(s, x, Revoke(s, x)); }
  }

  /** One operation keeps every object's size. */
  lemma StepSized(s: State, op: Op)
    requires Sized(s) && WellFormed(s) && op.InRange(s.N())
    ensures Sized(Step(s, op).state)
  {
    hide Sized, Retype, Copy, Mint, Delete, Boot, RevokeSlot;
    SizedShape(s);
    match op
    case OpBoot(id, kind, rights, region) => BootSized(s, id, kind, rights, region);
    case OpCopy(src, rights) => CopySized(s, src, rights);
    case OpMint(src, badge, rights) => MintSized(s, src, badge, rights);
    case OpDelete(x) => DeleteSized(s, x);
    case OpRevoke(x) => RevokeSized(s, x);
    case OpRetype(u, kind, bits, num, dest) => RetypeSized(s, u, kind, bits, num, dest);
    case OpReset(u) =>
      if s.cap[u].obj in s.regions { SetRegionSized(s, s.cap[u].obj, s.regions[s.cap[u].obj].(watermark := 0)); }
    case OpUntype(u, x) => RevokeSized(s, x);
    case OpSchedule(held) => HeldSized(s, held);
  }

  /** Over every run, from the empty system on, every carved object and every booted region
      spans what its kind takes. */
  lemma {:induction false} RunSized(s: State, ops: seq<Op>)
    requires Sized(s) && WellFormed(s) && forall i :: 0 <= i < |ops| ==> ops[i].InRange(s.N())
    ensures Sized(Run(s, ops))
    decreases |ops|
  {
    hide Sized, Step;
    if ops != [] {
      StepWellFormed(s, ops[0]);
      StepKeepsSize(s, ops[0]);
      StepSized(s, ops[0]);
      RunSized(Step(s, ops[0]).state, ops[1..]);
    }
  }

  lemma InitialSized(n: nat, layout: Layout)
    requires n < NONE
    ensures Sized(Initial(n, layout))
  {
  }

  // ---- what one request makes ---------------------------------------------

  /** The slot holds a fresh object of this kind at this size: every right, no badge and no
      derivation behind it. */
  ghost predicate Fresh(t: State, x: nat, l: Layout, kind: ObjectType, bits: nat)
    requires t.Shape() && t.Live(x)
  {
    && t.cap[x].kind == kind && t.cap[x].rights == 0xFFFF_FFFF && t.cap[x].badge == 0 && t.cap[x].depth == 0
    && t.origin[x].Retyped? && Occupies(l, kind, bits, t.span[x].len)
  }

  /** So do all slots of t that are new since s. */
  ghost predicate NewOnes(s: State, t: State, l: Layout, kind: ObjectType, bits: nat)
    requires s.Shape() && t.Shape() && s.N() == t.N()
  {
    forall x: nat {:trigger Fresh(t, x, l, kind, bits)} :: t.Live(x) && !s.occ[x] ==> Fresh(t, x, l, kind, bits)
  }

  lemma FreshMade(s: State, u: nat, d: nat, kind: ObjectType, bits: nat, device: bool, addr: nat, size: nat, c: State)
    requires s.Shape() && u < s.N() && d < s.N() && !s.occ[d] && Occupies(s.layout, kind, bits, size)
    requires c == CreateOne(s, u, d, kind, bits, device, addr, size)
    ensures c.Shape() && c.Live(d) && Fresh(c, d, s.layout, kind, bits)
  {
    hide CreateOne, Occupies;
    CreateOneThere(s, u, d, kind, bits, device, addr, size, c);
  }

  lemma FreshSame(c: State, t: State, d: nat, l: Layout, kind: ObjectType, bits: nat)
    requires c.Shape() && t.Shape() && c.N() == t.N() && c.Live(d) && Same(c, t, d) && Fresh(c, d, l, kind, bits)
    ensures t.Live(d) && Fresh(t, d, l, kind, bits)
  {
    hide Occupies;
  }

  lemma {:induction false} LoopMakes(s: State, u: nat, kind: ObjectType, bits: nat, device: bool, addr: nat, size: nat,
      num: nat, t: State)
    requires s.Shape() && s.Live(u) && Occupies(s.layout, kind, bits, size)
    requires t == CreateMany(s, u, kind, bits, device, addr, size, num).state
    ensures t.Shape() && t.N() == s.N() && NewOnes(s, t, s.layout, kind, bits)
    decreases num
  {
    hide AllocIndex, CreateOne, Occupies, Fresh;
    AllocatorFinds(s);
    OccupiesKind(s.layout, kind, bits, size);
    LoopKeeps(s, u, kind, bits, device, addr, size, num, t, u);
    var d := AllocIndex(s);
    if num > 0 && d < s.N() {
      LoopUnfold(s, u, kind, bits, device, addr, size, num, d);
      var c := CreateOne(s, u, d, kind, bits, device, addr, size);
      LoopMakesStep(s, u, d, kind, bits, device, addr, size, num, c, t);
    }
  }

  lemma LoopMakesStep(s: State, u: nat, d: nat, kind: ObjectType, bits: nat, device: bool, addr: nat, size: nat,
      num: nat, c: State, t: State)
    requires s.Shape() && s.Live(u) && Occupies(s.layout, kind, bits, size) && d < s.N() && !s.occ[d] && num > 0
    requires c == CreateOne(s, u, d, kind, bits, device, addr, size) && c.Shape() && c.layout == s.layout
    requires t == CreateMany(c, u, kind, bits, device, addr + size, size, num - 1).state
    ensures t.Shape() && t.N() == s.N() && NewOnes(s, t, s.layout, kind, bits)
    decreases num, 0
  {
    hide CreateMany, CreateOne, Occupies, Fresh;
    OccupiesKind(s.layout, kind, bits, size);
    CreateOneSame(s, u, d, kind, bits, device, addr, size, c);
    assert Same(s, c, u);
    LoopMakes(c, u, kind, bits, device, addr + size, size, num - 1, t);
    LoopKeeps(c, u, kind, bits, device, addr + size, size, num - 1, t, d);
    FreshMade(s, u, d, kind, bits, device, addr, size, c);
    FreshSame(c, t, d, s.layout, kind, bits);
    forall x: nat {:trigger Fresh(t, x, s.layout, kind, bits)} | t.Live(x) && !s.occ[x] && x != d
      ensures Fresh(t, x, s.layout, kind, bits)
    {
      assert Same(s, c, x);
    }
  }

  /** Every slot a retype fills holds the kind asked for, at the size the request's bits
      give. */
  lemma RetypeMakes(s: State, u: nat, kind: ObjectType, bits: nat, num: nat, dest: Dest, size: nat, w: nat, f: State)
    requires s.Shape() && s.Live(u) && Carves(s, u, kind, bits, num, dest, size, w)
      && f == Retype(s, u, kind, bits, num, dest).state
    ensures f.Shape() && f.N() == s.N() && NewOnes(s, f, s.layout, kind, bits)
  {
    hide Retype, CreateMany, Occupies, ObjectSize;
    var o := s.cap[u].obj;
    var a := At(s, o, w);
    var r := a.regions[o];
    RetypeReachesCarving(s, u, kind, bits, num, dest, size, w);
    SizeOccupies(s.layout, kind, bits);
    var t := CreateMany(a, u, kind, bits, r.device, r.phys + r.watermark, size, num).state;
    LoopMakes(a, u, kind, bits, r.device, r.phys + r.watermark, size, num, t);
    forall x: nat {:trigger Fresh(f, x, s.layout, kind, bits)} | f.Live(x) && !s.occ[x]
      ensures Fresh(f, x, s.layout, kind, bits)
    {
      assert Fresh(t, x, s.layout, kind, bits);
    }
  }
}
