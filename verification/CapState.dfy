/** Capabilities, kernel objects and the abstract capability state.

    The abstract state keeps, for every global slot, its capability and its place
    in two families of plain sequences: `kids` (the derivation children, newest
    first) and `ut` (the objects carved from an untyped through that slot).  The
    kernel's intrusive links are shown elsewhere to represent exactly these
    sequences. */
module CapState {
  import opened Bits

  const NONE: nat := 0xFFFF_FFFF
  const MAX_DERIVATION_DEPTH: nat := 64

  type Rights = bv32
  const GRANT: Rights := 0x8
  const RETYPE: Rights := 0x4000
  const ALL_RIGHTS: Rights := 0xFFFF_FFFF

  predicate Contains(r: Rights, other: Rights) {
    r & other == other
  }

  datatype ObjectType =
    | Null | Untyped | Endpoint | Notification | Tcb | CNode
    | VSpace | Frame | IrqHandler | IoPort | SchedContext | MemoryObject

  /** Kernel object identity.  Frames, VSpaces and untypeds live in metadata
      arrays indexed by the slot that created them; every other retyped object
      lives in the retyped memory itself; boot objects are static. */
  datatype Obj =
    | NoObject
    | FrameAt(slot: nat)
    | VSpaceAt(slot: nat)
    | UntypedAt(slot: nat)
    | InMemory(addr: nat)
    | Static(id: nat)

  datatype Cap = Cap(obj: Obj, badge: nat, rights: Rights, kind: ObjectType, depth: nat)

  const NULL_CAP: Cap := Cap(NoObject, 0, 0, Null, 0)

  datatype CapError =
    | InvalidSlot | SlotOccupied | SlotEmpty | InsufficientRights | RightsNotSubset
    | DepthExceeded | InvalidOperation | InvalidBadge | InsufficientMemory | OutOfSlots
    | NotAChild | HasChildren | HasDerivedCaps | ObjectInUse | InvalidArgument
    | GuardMismatch | InvalidCapability

  datatype Status = Ok | Err(error: CapError)

  datatype Region = Region(phys: nat, bits: nat, watermark: nat, device: bool) {
    // 1usize << size_bits, whose shift amount wraps at the word width
    function Size(): nat { Pow2(bits % 64) }

    function Available(): nat {
      if Size() >= watermark then Size() - watermark else 0
    }
  }

  /** A range of physical memory, empty when len is 0. */
  datatype Span = Span(start: nat, len: nat)

  const NO_SPAN: Span := Span(0, 0)

  datatype Origin = Root | Copied | Minted | Retyped

  datatype Event = Created(obj: Obj) | Destroyed(obj: Obj) | DestroyDeferred(obj: Obj)

  /** Sizes the kernel takes from its struct definitions. */
  datatype Layout = Layout(endpoint: nat, notification: nat, tcb: nat, tracking: nat,
                           irqHandler: nat, ioPort: nat, schedContext: nat, memoryObject: nat)
  {
    predicate Valid() {
      endpoint > 0 && notification > 0 && tcb > 0 && irqHandler > 0 && ioPort > 0 &&
      schedContext > 0 && memoryObject > 0
    }
  }

  /** `origin`, `home`, `span` and `rank` are history: how a capability came to be,
      the slot whose creation made its object, the memory carved for that object,
      and the distance from the root of its derivation tree. */
  datatype State = State(
    layout: Layout,
    occ: seq<bool>,
    cap: seq<Cap>,
    parent: seq<nat>,
    kids: seq<seq<nat>>,
    utParent: seq<nat>,
    ut: seq<seq<nat>>,
    next: nat,
    refs: map<Obj, nat>,
    regions: map<Obj, Region>,
    held: set<Obj>,
    log: seq<Event>,
    origin: seq<Origin>,
    home: seq<nat>,
    span: seq<Span>,
    rank: seq<nat>)
  {
    function N(): nat { |occ| }

    predicate Shape() {
      && N() < NONE
      && |cap| == N() && |parent| == N() && |kids| == N() && |utParent| == N() && |ut| == N()
      && |origin| == N() && |home| == N() && |span| == N() && |rank| == N()
    }

    predicate Live(x: nat) { x < N() && occ[x] }
  }

  // ---- sequence helpers ---------------------------------------------------

  predicate Distinct(q: seq<nat>) {
    forall i, j :: 0 <= i < j < |q| ==> q[i] != q[j]
  }

  /** q without its (first) occurrence of x. */
  function Without(q: seq<nat>, x: nat): (r: seq<nat>)
    ensures forall y :: y in r ==> y in q
    ensures forall y :: y in q && y != x ==> y in r
    ensures x !in q ==> r == q
  {
    if q == [] then []
    else if q[0] == x then
      assert q == [x] + q[1..];
      q[1..]
    else
      assert q == [q[0]] + q[1..];
      [q[0]] + Without(q[1..], x)
  }

  lemma {:induction false} WithoutAt(q: seq<nat>, x: nat, k: nat)
    requires k < |q| && q[k] == x && x !in q[..k]
    ensures Without(q, x) == q[..k] + q[k + 1..]
  {
    if k > 0 {
      assert q[0] == q[..k][0];
      assert q[1..][..k - 1] == q[..k][1..];
      WithoutAt(q[1..], x, k - 1);
      assert q[..k] == [q[0]] + q[1..][..k - 1];
      assert q[k + 1..] == q[1..][k..];
    }
  }

  lemma WithoutDistinct(q: seq<nat>, x: nat)
    requires Distinct(q)
    ensures Distinct(Without(q, x)) && x !in Without(q, x)
  {
    if x in q {
      var k :| 0 <= k < |q| && q[k] == x;
      WithoutAt(q, x, k);
    }
  }

  // ---- primitive transitions ----------------------------------------------

  /** First free slot in [lo, hi), if any. */
  function FirstFree(occ: seq<bool>, lo: nat, hi: nat): (r: nat)
    requires lo <= hi <= |occ|
    ensures lo <= r <= hi
    ensures r < hi ==> !occ[r]
    ensures forall i :: lo <= i < r ==> occ[i]
    decreases hi - lo
  {
    if lo == hi || !occ[lo] then lo else FirstFree(occ, lo + 1, hi)
  }

  /** The slot the allocator hands out: from the cursor up, then from zero. */
  function AllocIndex(s: State): (r: nat)
    ensures r <= s.N()
    ensures r < s.N() ==> !s.occ[r]
  {
    var start := if s.next <= s.N() then s.next else s.N();
    var up := FirstFree(s.occ, start, s.N());
    if up < s.N() then up
    else
      var low := FirstFree(s.occ, 0, start);
      if low < start then low else s.N()
  }

  function ClearLinks(s: State, x: nat): State
    requires s.Shape() && x < s.N()
  {
    s.(parent := s.parent[x := NONE], kids := s.kids[x := []],
       utParent := s.utParent[x := NONE], ut := s.ut[x := []])
  }

  /** Mark slot x occupied as an empty derivation root. */
  function Alloc(s: State, x: nat): State
    requires s.Shape() && x < s.N()
  {
    ClearLinks(s, x).(occ := s.occ[x := true], next := x + 1,
                      origin := s.origin[x := Root], home := s.home[x := x],
                      span := s.span[x := NO_SPAN], rank := s.rank[x := 0])
  }

  function Free(s: State, x: nat): State
    requires s.Shape() && x < s.N()
  {
    ClearLinks(s, x).(occ := s.occ[x := false], next := if x < s.next then x else s.next)
  }

  function SetCap(s: State, x: nat, c: Cap): State
    requires s.Shape() && x < s.N()
  {
    s.(cap := s.cap[x := c])
  }

  function InsertChild(s: State, p: nat, c: nat): State
    requires s.Shape() && p < s.N() && c < s.N()
  {
    s.(parent := s.parent[c := p], kids := s.kids[p := [c] + s.kids[p]],
       rank := s.rank[c := s.rank[p] + 1])
  }

  function AddUtChild(s: State, u: nat, c: nat): State
    requires s.Shape() && u < s.N() && c < s.N()
  {
    s.(utParent := s.utParent[c := u], ut := s.ut[u := [c] + s.ut[u]])
  }

  /** Take leaf x out of its parent's child list. */
  function Unlink(s: State, x: nat): (r: State)
    requires s.Shape() && x < s.N()
    ensures r == s.(kids := r.kids, parent := r.parent) && r.Shape()
  {
    var p := s.parent[x];
    var t := if p < s.N() then s.(kids := s.kids[p := Without(s.kids[p], x)]) else s;
    t.(parent := t.parent[x := NONE])
  }

  function RemoveUtChild(s: State, u: nat, x: nat): (r: State)
    requires s.Shape() && u < s.N() && x < s.N()
    ensures r == s.(ut := r.ut, utParent := r.utParent) && r.Shape()
  {
    if x in s.ut[u] then
      s.(ut := s.ut[u := Without(s.ut[u], x)], utParent := s.utParent[x := NONE])
    else s
  }

  // ---- reference counts (32-bit, wrapping) --------------------------------

  const U32: nat := 0x1_0000_0000

  function RefCount(s: State, o: Obj): nat {
    if o in s.refs then s.refs[o] else 0
  }

  function Retain(s: State, o: Obj): (r: State)
    ensures r == s.(refs := r.refs)
  {
    if o.NoObject? then s else s.(refs := s.refs[o := (RefCount(s, o) + 1) % U32])
  }

  function Release(s: State, o: Obj, kind: ObjectType): (r: State)
    ensures r == s.(refs := r.refs, log := r.log)
  {
    if o.NoObject? then s
    else
      var t := s.(refs := s.refs[o := (RefCount(s, o) + U32 - 1) % U32]);
      if RefCount(s, o) != 1 then t
      else if kind.Tcb? && o in s.held then t.(log := t.log + [DestroyDeferred(o)])
      else t.(log := t.log + [Destroyed(o)])
  }

  // ---- deletion -----------------------------------------------------------

  /** The whole life-cycle end of one leaf capability. */
  function DeleteLeaf(s: State, x: nat): State
    requires s.Shape() && x < s.N()
  {
    var s1 := Unlink(s, x);
    var u := s.utParent[x];
    var s2 := if u < s.N() then RemoveUtChild(s1, u, x) else s1;
    var s3 := Release(s2, s.cap[x].obj, s.cap[x].kind);
    Free(SetCap(s3, x, NULL_CAP), x)
  }
}
