/** The kernel's capability operations as total functions on the abstract state,
    with every error path, and runs of them. */
module CapOps {
  import opened Bits
  import opened CapState
  import opened CapForest

  datatype Outcome = Outcome(state: State, status: Status)

  // ---- derivation ---------------------------------------------------------

  /** Fill fresh slot d with capability c, derived from the one in src. */
  function Derive(s: State, src: nat, d: nat, c: Cap, how: Origin): State
    requires s.Shape() && src < s.N() && d < s.N()
  {
    var s1 := SetCap(Alloc(s, d), d, c);
    var s2 := s1.(origin := s1.origin[d := how], home := s1.home[d := s.home[src]]);
    Retain(InsertChild(s2, src, d), c.obj)
  }

  /** A slot taken and given back: only the cursor and the slot's history move. */
  function TakeAndFree(s: State, d: nat): State
    requires s.Shape() && d < s.N()
  {
    Free(Alloc(s, d), d)
  }

  function Copy(s: State, src: nat, rights: Rights): Outcome
    requires s.Shape() && src < s.N()
  {
    var c := s.cap[src];
    var d := AllocIndex(s);
    if !Contains(c.rights, GRANT) then Outcome(s, Err(InsufficientRights))
    else if d == s.N() then Outcome(s, Err(OutOfSlots))
    else if !Contains(c.rights, rights) then Outcome(TakeAndFree(s, d), Err(RightsNotSubset))
    else if c.depth >= MAX_DERIVATION_DEPTH then Outcome(TakeAndFree(s, d), Err(DepthExceeded))
    else Outcome(Derive(s, src, d, c.(rights := rights, depth := c.depth + 1), Copied), Ok)
  }

  function Mint(s: State, src: nat, badge: nat, rights: Rights): Outcome
    requires s.Shape() && src < s.N()
  {
    var c := s.cap[src];
    var d := AllocIndex(s);
    if d == s.N() then Outcome(s, Err(OutOfSlots))
    else if !c.kind.Endpoint? && !c.kind.Notification? then Outcome(TakeAndFree(s, d), Err(InvalidOperation))
    else if !Contains(c.rights, GRANT) then Outcome(TakeAndFree(s, d), Err(InsufficientRights))
    else if Contains(rights, GRANT) then Outcome(TakeAndFree(s, d), Err(InvalidBadge))
    else if c.depth >= MAX_DERIVATION_DEPTH then Outcome(TakeAndFree(s, d), Err(DepthExceeded))
    else
      Outcome(Derive(s, src, d, c.(rights := rights, badge := badge, depth := c.depth + 1), Minted), Ok)
  }

  // ---- deletion -----------------------------------------------------------

  /** Deleting through a stale reference to a free slot only moves the cursor. */
  function Delete(s: State, x: nat): Outcome
    requires s.Shape() && x < s.N()
  {
    if s.kids[x] != [] then Outcome(s, Err(HasChildren)) else Outcome(DeleteLeaf(s, x), Ok)
  }

  function RevokeSlot(s: State, x: nat): Outcome
    requires Forest(s) && x < s.N()
  {
    Outcome(if s.occ[x] then Revoke(s, x) else s, Ok)
  }

  // ---- retype -------------------------------------------------------------

  datatype SizeResult = Size(bytes: nat) | BadSize(error: CapError)

  const CNODE_HEADER: nat := 24
  const CAPREF_SIZE: nat := 4
  const PAGE_SIZE: nat := 4096

  function CNodeBits(bits: nat): SizeResult {
    if bits == 0 then Size(10) else if bits < 4 || bits > 16 then BadSize(InvalidArgument) else Size(bits)
  }

  function AlignUp(w: nat, a: nat): nat
    requires a > 0
  {
    (w + (a - 1)) / a * a
  }

  function ObjectSize(l: Layout, kind: ObjectType, bits: nat): SizeResult {
    match kind
    case Null => Size(0)
    case Endpoint => Size(l.endpoint)
    case Notification => Size(l.notification)
    case Tcb => Size(l.tcb)
    case IrqHandler => Size(l.irqHandler)
    case IoPort => Size(l.ioPort)
    case SchedContext => Size(l.schedContext)
    case VSpace => Size(PAGE_SIZE + l.tracking)
    case Frame => Size(Pow2((if bits < 12 then 12 else bits) % 64))
    case Untyped => Size(Pow2(bits % 64))
    case MemoryObject => Size(AlignUp(AlignUp(l.memoryObject, 64), PAGE_SIZE))
    case CNode =>
      var b := CNodeBits(bits);
      if b.BadSize? then b else Size(CNODE_HEADER + Pow2(b.bytes) * CAPREF_SIZE)
  }

  /** What the watermark is rounded up to before carving. */
  function Alignment(kind: ObjectType, size: nat): nat {
    if kind.CNode? then 8 else if kind.VSpace? then PAGE_SIZE else size
  }

  function NewObject(kind: ObjectType, slot: nat, addr: nat): Obj {
    match kind
    case Frame => FrameAt(slot)
    case VSpace => VSpaceAt(slot)
    case Untyped => UntypedAt(slot)
    case _ => InMemory(addr)
  }

  /** Carve one object at addr into fresh slot d, as a child of slot u. */
  function CreateOne(s: State, u: nat, d: nat, kind: ObjectType, bits: nat, device: bool,
                     addr: nat, size: nat): State
    requires s.Shape() && u < s.N() && d < s.N()
  {
    var o := NewObject(kind, d, addr);
    var s1 := SetCap(Alloc(s, d), d, Cap(o, 0, ALL_RIGHTS, kind, 0));
    var s2 := s1.(origin := s1.origin[d := Retyped], span := s1.span[d := Span(addr, size)],
                  refs := s1.refs[o := 1], log := s1.log + [Created(o)],
                  regions := if kind.Untyped? then s1.regions[o := Region(addr, bits, 0, device)]
                             else s1.regions);
    AddUtChild(InsertChild(s2, u, d), u, d)
  }

  /** The allocation loop: stops at the first slot it cannot get. */
  function CreateMany(s: State, u: nat, kind: ObjectType, bits: nat, device: bool,
                      addr: nat, size: nat, num: nat): Outcome
    requires s.Shape() && u < s.N()
    decreases num
  {
    var d := AllocIndex(s);
    if num == 0 then Outcome(s, Ok)
    else if d == s.N() then Outcome(s, Err(OutOfSlots))
    else if kind.Null? then Outcome(TakeAndFree(s, d), Err(InvalidOperation))
    else CreateMany(CreateOne(s, u, d, kind, bits, device, addr, size), u, kind, bits, device,
                    addr + size, size, num - 1)
  }

  /** The slots the loop fills, in order. */
  function CreatedSlots(s: State, u: nat, kind: ObjectType, bits: nat, device: bool,
                        addr: nat, size: nat, num: nat): (made: seq<nat>)
    requires s.Shape() && u < s.N()
    ensures |made| <= num
    decreases num
  {
    var d := AllocIndex(s);
    if num == 0 || d == s.N() || kind.Null? then []
    else
      [d] + CreatedSlots(CreateOne(s, u, d, kind, bits, device, addr, size), u, kind, bits, device,
                         addr + size, size, num - 1)
  }

  /** State of the destination range in the destination CNode. */
  datatype Dest = DestOk | DestOutOfRange | DestOccupied

  const U64: nat := 0x1_0000_0000_0000_0000

  function SetRegion(s: State, o: Obj, r: Region): State {
    s.(regions := s.regions[o := r])
  }

  function Bytes(size: nat, num: nat): nat {
    size * num
  }

  function Retype(s: State, u: nat, kind: ObjectType, bits: nat, num: nat, dest: Dest): Outcome
    requires s.Shape() && u < s.N()
  {
    var c := s.cap[u];
    if !c.kind.Untyped? || c.obj !in s.regions then Outcome(s, Err(InvalidCapability))
    else if !Contains(c.rights, RETYPE) then Outcome(s, Err(InsufficientRights))
    else RetypeRegion(s, u, c.obj, kind, bits, num, dest)
  }

  function RetypeRegion(s: State, u: nat, o: Obj, kind: ObjectType, bits: nat, num: nat, dest: Dest): Outcome
    requires s.Shape() && u < s.N() && o in s.regions
  {
    var r := s.regions[o];
    var sz := ObjectSize(s.layout, kind, bits);
    if r.device && !kind.Frame? && !kind.Untyped? then Outcome(s, Err(InvalidOperation))
    else if sz.BadSize? then Outcome(s, Err(sz.error))
    else
      var total := Bytes(sz.bytes, num) % U64;
      if dest.DestOutOfRange? then Outcome(s, Err(InvalidSlot))
      else if r.Available() < total then Outcome(s, Err(InsufficientMemory))
      else if dest.DestOccupied? then Outcome(s, Err(SlotOccupied))
      else if sz.bytes == 0 then Carve(s, u, o, kind, bits, 0, num, 0)
      else AlignAndCarve(s, u, o, kind, bits, sz.bytes, num, total)
  }

  /** Round the watermark up, look again, and carve. */
  function AlignAndCarve(s: State, u: nat, o: Obj, kind: ObjectType, bits: nat, size: nat, num: nat,
      total: nat): Outcome
    requires s.Shape() && u < s.N() && o in s.regions && size > 0
  {
    var r, align := s.regions[o], Alignment(kind, size);
    var aligned := AlignUp(r.watermark, align);
    if r.watermark + (align - 1) >= U64 || aligned > r.Size() then Outcome(s, Err(InsufficientMemory))
    else
      var r1 := r.(watermark := aligned);
      var s1 := SetRegion(s, o, r1);
      if r1.Available() < total then Outcome(s1, Err(InsufficientMemory))
      else Carve(s1, u, o, kind, bits, size, num, total)
  }

  /** Run the loop from the watermark and, if it completes, advance the watermark. */
  function Carve(s: State, u: nat, o: Obj, kind: ObjectType, bits: nat, size: nat, num: nat, total: nat): Outcome
    requires s.Shape() && u < s.N() && o in s.regions
  {
    var r := s.regions[o];
    var done := CreateMany(s, u, kind, bits, r.device, r.phys + r.watermark, size, num);
    if done.status.Ok? then
      Outcome(SetRegion(done.state, o, r.(watermark := (r.watermark + total) % U64)), Ok)
    else done
  }

  function Reset(s: State, u: nat): Outcome
    requires s.Shape() && u < s.N()
  {
    var c := s.cap[u];
    if !c.kind.Untyped? || c.obj !in s.regions then Outcome(s, Err(InvalidCapability))
    else if !Contains(c.rights, RETYPE) then Outcome(s, Err(InsufficientRights))
    else if s.ut[u] != [] then Outcome(s, Err(HasChildren))
    else Outcome(SetRegion(s, c.obj, s.regions[c.obj].(watermark := 0)), Ok)
  }

  /** Free one unshared, underived object back to its untyped. */
  function Untype(s: State, u: nat, x: nat): Outcome
    requires Forest(s) && u < s.N() && x < s.N()
  {
    if s.utParent[x] != u then Outcome(s, Err(NotAChild))
    else if s.kids[x] != [] then Outcome(s, Err(HasDerivedCaps))
    else if RefCount(s, s.cap[x].obj) != 1 then Outcome(s, Err(ObjectInUse))
    else RevokeSlot(s, x)
  }

  /** Boot: a capability to a static kernel object, possibly a memory region. */
  function Boot(s: State, id: nat, kind: ObjectType, rights: Rights, region: Region): Outcome
    requires s.Shape()
  {
    var d := AllocIndex(s);
    if d == s.N() then Outcome(s, Err(OutOfSlots))
    else
      var o := Static(id);
      var s1 := SetCap(Alloc(s, d), d, Cap(o, 0, rights, kind, 0));
      var s2 := s1.(refs := s1.refs[o := 1], log := s1.log + [Created(o)]);
      Outcome(if kind.Untyped? then
                s2.(regions := s2.regions[o := region.(watermark := 0)],
                    span := s2.span[d := Span(region.phys, region.Size())])
              else s2, Ok)
  }

  // ---- runs ---------------------------------------------------------------

  datatype Op =
    | OpBoot(id: nat, kind: ObjectType, rights: Rights, region: Region)
    | OpCopy(src: nat, rights: Rights)
    | OpMint(src: nat, badge: nat, rights: Rights)
    | OpDelete(x: nat)
    | OpRevoke(x: nat)
    | OpRetype(u: nat, kind: ObjectType, bits: nat, num: nat, dest: Dest)
    | OpReset(u: nat)
    | OpUntype(u: nat, x: nat)
    | OpSchedule(held: set<Obj>)  // the scheduler takes or drops thread references
  {
    predicate InRange(n: nat) {
      match this
      case OpBoot(_, _, _, _) => true
      case OpCopy(src, _) => src < n
      case OpMint(src, _, _) => src < n
      case OpDelete(x) => x < n
      case OpRevoke(x) => x < n
      case OpRetype(u, _, _, _, _) => u < n
      case OpReset(u) => u < n
      case OpUntype(u, x) => u < n && x < n
      case OpSchedule(_) => true
    }
  }

  function Step(s: State, op: Op): Outcome
    requires Forest(s) && op.InRange(s.N())
  {
    match op
    case OpBoot(id, kind, rights, region) => Boot(s, id, kind, rights, region)
    case OpCopy(src, rights) => Copy(s, src, rights)
    case OpMint(src, badge, rights) => Mint(s, src, badge, rights)
    case OpDelete(x) => Delete(s, x)
    case OpRevoke(x) => RevokeSlot(s, x)
    case OpRetype(u, kind, bits, num, dest) => Retype(s, u, kind, bits, num, dest)
    case OpReset(u) => Reset(s, u)
    case OpUntype(u, x) => Untype(s, u, x)
    case OpSchedule(held) => Outcome(s.(held := held), Ok)
  }

  /** The state after slot-array initialisation. */
  function Initial(n: nat, layout: Layout): State
  {
    State(layout, seq(n, _ => false), seq(n, _ => NULL_CAP), seq(n, _ => NONE), seq(n, _ => []),
          seq(n, _ => NONE), seq(n, _ => []), 0, map[], map[], {}, [],
          seq(n, _ => Root), seq(n, i => i), seq(n, _ => NO_SPAN), seq(n, _ => 0))
  }
}
