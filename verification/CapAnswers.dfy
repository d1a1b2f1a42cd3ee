/** What each capability operation answers: the exact condition of every status, and what
    the state holds after it. */
module CapAnswers {
  import opened Bits
  import opened CapState
  import opened CapForest
  import opened CapOps
  import opened CapRuns
  import opened CapMemory
  import opened CapRetype
  import opened CapSizes

  ghost predicate Full(s: State) {
    forall x {:trigger s.occ[x]} :: 0 <= x < s.N() ==> s.occ[x]
  }

  lemma FullMeansNone(s: State)
    ensures Full(s) <==> AllocIndex(s) == s.N()
  {
    AllocatorFinds(s);
    if !Full(s) {
      var x :| 0 <= x < s.N() && !s.occ[x];
      assert x in FreeSlots(s);
    }
  }

  /** The same capabilities in the same slots, deriving from one another in the same way. */
  ghost predicate Unaltered(s: State, t: State)
    requires s.Shape()
  {
    && t.Shape() && t.occ == s.occ && t.cap == s.cap && t.refs == s.refs && t.regions == s.regions && t.log == s.log
    && forall x: nat {:trigger s.Live(x)} :: s.Live(x) ==>
         t.parent[x] == s.parent[x] && t.kids[x] == s.kids[x] && t.utParent[x] == s.utParent[x] && t.ut[x] == s.ut[x]
  }

  /** Slot d, free before, holds c as the newest child of src; nothing else is new. */
  ghost predicate Derived(s: State, src: nat, t: State, d: nat, c: Cap)
    requires s.Shape() && src < s.N()
  {
    && t.Shape() && d < s.N() && !s.occ[d] && t.occ == s.occ[d := true] && t.cap == s.cap[d := c]
    && t.parent == s.parent[d := src] && t.kids[src] == [d] + s.kids[src] && t.regions == s.regions && t.log == s.log
    && forall x :: 0 <= x < s.N() && x != src && x != d ==> t.kids[x] == s.kids[x]
  }

  lemma GivenBack(s: State, d: nat)
    requires s.Shape() && d < s.N() && !s.occ[d]
    ensures Unaltered(s, TakeAndFree(s, d))
  {
    assert TakeAndFree(s, d).occ == s.occ;
  }

  lemma DeriveAdds(s: State, src: nat, d: nat, c: Cap, how: Origin)
    requires s.Shape() && s.Live(src) && d < s.N() && !s.occ[d]
    ensures Derived(s, src, Derive(s, src, d, c, how), d, c)
  {
  }

  predicate MayGrant(r: Rights) { r & 0x8 != 0 }
  predicate MayRetype(r: Rights) { r & 0x4000 != 0 }
  predicate Within(r: Rights, all: Rights) { all & r == r }

  lemma RightsBits(r: Rights, other: Rights)
    ensures Contains(r, GRANT) <==> MayGrant(r)
    ensures Contains(r, RETYPE) <==> MayRetype(r)
    ensures Contains(r, other) <==> Within(other, r)
  {
  }

  // ---- copy and mint ------------------------------------------------------

  /** Why a copy is refused, most pressing first. */
  ghost function CopyAnswer(s: State, src: nat, rights: Rights): Status
    requires s.Shape() && src < s.N()
  {
    if !MayGrant(s.cap[src].rights) then Err(InsufficientRights)
    else if Full(s) then Err(OutOfSlots)
    else if !Within(rights, s.cap[src].rights) then Err(RightsNotSubset)
    else if s.cap[src].depth > 63 then Err(DepthExceeded)
    else Ok
  }

  lemma CopyAnswers(s: State, src: nat, rights: Rights)
    requires Forest(s) && src < s.N()
    ensures Copy(s, src, rights).status == CopyAnswer(s, src, rights)
    ensures var r := Copy(s, src, rights); r.status.Err? ==> Unaltered(s, r.state)
    ensures var r, c := Copy(s, src, rights), s.cap[src]; r.status.Ok? ==>
      Derived(s, src, r.state, AllocIndex(s), Cap(c.obj, c.badge, rights, c.kind, c.depth + 1))
  {
    hide AllocIndex, TakeAndFree, Derive, Contains, Forest, CopyAnswer, Unaltered, Derived;
    Live1(s, src);
    CopyStatus(s, src, rights);
    var d, c := AllocIndex(s), s.cap[src];
    if d < s.N() {
      GivenBack(s, d);
      if s.occ[src] { DeriveAdds(s, src, d, Cap(c.obj, c.badge, rights, c.kind, c.depth + 1), Copied); }
    }
    UnalteredSelf(s);
  }

  lemma UnalteredSelf(s: State)
    requires s.Shape()
    ensures Unaltered(s, s)
  {
  }

  lemma CopyStatus(s: State, src: nat, rights: Rights)
    requires s.Shape() && src < s.N()
    ensures Copy(s, src, rights).status == CopyAnswer(s, src, rights)
  {
    hide AllocIndex, TakeAndFree, Derive, Contains, Full, MayGrant, Within;
    FullMeansNone(s);
    RightsBits(s.cap[src].rights, rights);
  }

  lemma Live1(s: State, src: nat)
    requires Forest(s) && src < s.N()
    ensures s.Shape() && (Contains(s.cap[src].rights, GRANT) ==> s.occ[src])
  {
    if !s.occ[src] { assert s.cap[src] == NULL_CAP; }
  }

  /** Why a mint is refused: only endpoints and notifications are minted, and a minted
      capability may not itself be granted on. */
  ghost function MintAnswer(s: State, src: nat, rights: Rights): Status
    requires s.Shape() && src < s.N()
  {
    if Full(s) then Err(OutOfSlots)
    else if s.cap[src].kind != Endpoint && s.cap[src].kind != Notification then Err(InvalidOperation)
    else if !MayGrant(s.cap[src].rights) then Err(InsufficientRights)
    else if MayGrant(rights) then Err(InvalidBadge)
    else if s.cap[src].depth > 63 then Err(DepthExceeded)
    else Ok
  }

  lemma MintAnswers(s: State, src: nat, badge: nat, rights: Rights)
    requires Forest(s) && src < s.N()
    ensures Mint(s, src, badge, rights).status == MintAnswer(s, src, rights)
    ensures var r := Mint(s, src, badge, rights); r.status.Err? ==> Unaltered(s, r.state)
    ensures var r, c := Mint(s, src, badge, rights), s.cap[src]; r.status.Ok? ==>
      Derived(s, src, r.state, AllocIndex(s), Cap(c.obj, badge, rights, c.kind, c.depth + 1))
  {
    hide AllocIndex, TakeAndFree, Derive, Contains, Forest, MintAnswer, Unaltered, Derived;
    Live1(s, src);
    MintStatus(s, src, badge, rights);
    var d, c := AllocIndex(s), s.cap[src];
    if d < s.N() {
      GivenBack(s, d);
      if s.occ[src] { DeriveAdds(s, src, d, Cap(c.obj, badge, rights, c.kind, c.depth + 1), Minted); }
    }
    UnalteredSelf(s);
  }

  lemma MintStatus(s: State, src: nat, badge: nat, rights: Rights)
    requires s.Shape() && src < s.N()
    ensures Mint(s, src, badge, rights).status == MintAnswer(s, src, rights)
  {
    hide AllocIndex, TakeAndFree, Derive, Contains, Full, MayGrant, Within;
    FullMeansNone(s);
    RightsBits(s.cap[src].rights, rights);
    RightsBits(rights, rights);
  }

  // ---- delete, reset and untype -------------------------------------------

  /** Delete refuses exactly the capabilities others derive from, and otherwise frees its
      slot alone. */
  lemma DeleteAnswers(s: State, x: nat)
    requires Forest(s) && s.Live(x)
    ensures
      var r := Delete(s, x);
      if s.kids[x] != [] then r == Outcome(s, Err(HasChildren))
      else
        && r.status.Ok? && r.state.Shape() && r.state.occ == s.occ[x := false]
        && forall y :: 0 <= y < s.N() && y != x ==> SameSlot(s, x, r.state, y)
  {
    hide DeleteLeaf, SameSlot;
    if s.kids[x] == [] {
      DeleteLeafIsRevocation(s, x);
      var t := DeleteLeaf(s, x);
      forall y | 0 <= y < s.N() ensures Under(s, x, y) <==> y == x {
        if Under(s, x, y) { OnlySelfUnderLeaf(s, x, y); }
      }
      assert t.occ == s.occ[x := false];
    }
  }

  /** Reset's three refusals; it otherwise rewinds the region and nothing else. */
  lemma ResetAnswers(s: State, u: nat)
    requires s.Shape() && u < s.N()
    ensures
      var c, r := s.cap[u], Reset(s, u);
      if c.kind != Untyped || c.obj !in s.regions then r == Outcome(s, Err(InvalidCapability))
      else if !MayRetype(c.rights) then r == Outcome(s, Err(InsufficientRights))
      else if |s.ut[u]| > 0 then r == Outcome(s, Err(HasChildren))
      else
        && r.status.Ok? && r.state == s.(regions := r.state.regions) && r.state.regions.Keys == s.regions.Keys
        && r.state.regions[c.obj] == Region(s.regions[c.obj].phys, s.regions[c.obj].bits, 0, s.regions[c.obj].device)
        && forall o :: o in s.regions && o != c.obj ==> r.state.regions[o] == s.regions[o]
  {
    hide Contains, MayRetype;
    RightsBits(s.cap[u].rights, 0);
  }

  /** Untype's three refusals: not carved through this slot, others derive from it, or
      others refer to its object. It otherwise frees the slot alone. */
  lemma UntypeAnswers(s: State, u: nat, x: nat)
    requires Forest(s) && u < s.N() && s.Live(x)
    ensures
      var r := Untype(s, u, x);
      if x !in s.ut[u] then r == Outcome(s, Err(NotAChild))
      else if s.kids[x] != [] then r == Outcome(s, Err(HasDerivedCaps))
      else if !(s.cap[x].obj in s.refs && s.refs[s.cap[x].obj] == 1) then r == Outcome(s, Err(ObjectInUse))
      else
        && r.status.Ok? && r.state.Shape() && r.state.occ == s.occ[x := false]
        && forall y :: 0 <= y < s.N() && y != x ==> SameSlot(s, x, r.state, y)
  {
    hide DeleteLeaf, SameSlot;
    if s.kids[x] == [] {
      DeleteAnswers(s, x);
      assert Revoke(s, x) == DeleteLeaf(s, x);
    }
  }

  // ---- boot and retype ----------------------------------------------------

  /** Boot fails only when no slot is free. */
  lemma BootAnswers(s: State, id: nat, kind: ObjectType, rights: Rights, region: Region)
    requires s.Shape()
    ensures
      var r, d := Boot(s, id, kind, rights, region), AllocIndex(s);
      if Full(s) then r == Outcome(s, Err(OutOfSlots))
      else
        && r.status.Ok? && !s.occ[d] && r.state.occ == s.occ[d := true]
        && r.state.cap == s.cap[d := Cap(Static(id), 0, rights, kind, 0)]
        && (kind == Untyped ==>
              && Static(id) in r.state.regions
              && r.state.regions[Static(id)] == Region(region.phys, region.bits, 0, region.device))
  {
    hide AllocIndex;
    FullMeansNone(s);
  }

  /** What a retype rounds its start up to. */
  ghost function Granule(kind: ObjectType, size: nat): nat {
    match kind
    case CNode => 8
    case VSpace => 4096
    case _ => size
  }

  /** There is room for this many bytes from w, the first multiple of a past the watermark. */
  ghost predicate Room(r: Region, a: nat, bytes: nat, w: nat) {
    && a > 0 && w % a == 0 && r.watermark <= w < r.watermark + a
    && r.watermark + a <= 0x1_0000_0000_0000_0000 && w + bytes <= Pow2(r.bits % 64)
  }

  /** Why a retype of num objects of this size is refused. The bytes asked for are counted
      modulo 2^64. */
  ghost function RetypeAnswer(s: State, u: nat, kind: ObjectType, size: nat, num: nat, dest: Dest): Status
    requires s.Shape() && u < s.N()
  {
    var c, bytes := s.cap[u], Bytes(size, num) % 0x1_0000_0000_0000_0000;
    if c.kind != Untyped || c.obj !in s.regions then Err(InvalidCapability)
    else
      var r := s.regions[c.obj];
      if !MayRetype(c.rights) then Err(InsufficientRights)
      else if r.device && kind != Frame && kind != Untyped then Err(InvalidOperation)
      else if dest == DestOutOfRange then Err(InvalidSlot)
      else if bytes > 0 && r.watermark + bytes > Pow2(r.bits % 64) then Err(InsufficientMemory)
      else if dest == DestOccupied then Err(SlotOccupied)
      else if !exists w :: Room(r, Granule(kind, size), bytes, w) then Err(InsufficientMemory)
      else if num > |FreeSlots(s)| then Err(OutOfSlots)
      else Ok
  }

  lemma RoundsUp(w: nat, a: nat, v: nat)
    requires a > 0
    ensures w <= v < w + a && v % a == 0 <==> v == AlignUp(w, a)
  {
    AlignUpFacts(w, a);
    if w <= v < w + a && v % a == 0 {
      DivModUnique(w + (a - 1), a, v / a, w + (a - 1) - v);
    }
  }

  lemma SizeOf(l: Layout, kind: ObjectType, bits: nat, size: nat)
    requires Occupies(l, kind, bits, size)
    ensures ObjectSize(l, kind, bits) == Size(size) && !kind.Null?
  {
    hide ObjectSize, Pow2;
    SizeOccupies(l, kind, bits);
    OccupiesOne(l, kind, bits, ObjectSize(l, kind, bits).bytes, size);
  }

  lemma RoomIs(r: Region, kind: ObjectType, size: nat, bytes: nat)
    requires size > 0
    ensures
      var a := Alignment(kind, size);
      && a > 0 && Granule(kind, size) == a
      && ((exists w :: Room(r, a, bytes, w)) <==>
           AlignUp(r.watermark, a) + bytes <= r.Size() && r.watermark + (a - 1) < U64)
  {
    hide AlignUp, Pow2;
    var a := Alignment(kind, size);
    var v := AlignUp(r.watermark, a);
    RoundsUp(r.watermark, a, v);
    if v + bytes <= r.Size() && r.watermark + (a - 1) < U64 { assert Room(r, a, bytes, v); }
    forall w | Room(r, a, bytes, w) ensures w == v { RoundsUp(r.watermark, a, w); }
  }

  /** A retype answers as its request deserves, in particular with success exactly when
      none of the refusals applies. */
  lemma RetypeAnswers(s: State, u: nat, kind: ObjectType, bits: nat, num: nat, dest: Dest, size: nat)
    requires s.Shape() && u < s.N() && Occupies(s.layout, kind, bits, size) && size > 0
    ensures Retype(s, u, kind, bits, num, dest).status == RetypeAnswer(s, u, kind, size, num, dest)
  {
    hide Contains, MayRetype, AlignAndCarve, ObjectSize, Occupies, Pow2, Bytes, Room;
    RightsBits(s.cap[u].rights, 0);
    SizeOf(s.layout, kind, bits, size);
    var o := s.cap[u].obj;
    if s.cap[u].kind.Untyped? && o in s.regions {
      AlignAnswers(s, u, o, kind, bits, size, num, Bytes(size, num) % U64);
    }
  }

  lemma AlignAnswers(s: State, u: nat, o: Obj, kind: ObjectType, bits: nat, size: nat, num: nat, bytes: nat)
    requires s.Shape() && u < s.N() && o in s.regions && size > 0 && !kind.Null?
    ensures AlignAndCarve(s, u, o, kind, bits, size, num, bytes).status
         == if !exists w :: Room(s.regions[o], Granule(kind, size), bytes, w) then Err(InsufficientMemory)
            else if num > |FreeSlots(s)| then Err(OutOfSlots) else Ok
  {
    hide AlignUp, Carve, Pow2, Room;
    var r := s.regions[o];
    RoomIs(r, kind, size, bytes);
    var w := AlignUp(r.watermark, Alignment(kind, size));
    RoundsUp(r.watermark, Alignment(kind, size), w);
    CarveAnswers(At(s, o, w), u, o, kind, bits, size, num, bytes);
    assert FreeSlots(At(s, o, w)) == FreeSlots(s);
  }

  lemma CarveAnswers(s: State, u: nat, o: Obj, kind: ObjectType, bits: nat, size: nat, num: nat, total: nat)
    requires s.Shape() && u < s.N() && o in s.regions && !kind.Null?
    ensures Carve(s, u, o, kind, bits, size, num, total).status
         == if num <= |FreeSlots(s)| then Ok else Err(OutOfSlots)
  {
    hide CreateMany;
    var r := s.regions[o];
    LoopCompletes(s, u, kind, bits, r.device, r.phys + r.watermark, size, num);
    LoopRefusal(s, u, kind, bits, r.device, r.phys + r.watermark, size, num);
  }

  lemma {:induction false} LoopRefusal(s: State, u: nat, kind: ObjectType, bits: nat, device: bool, addr: nat,
      size: nat, num: nat)
    requires s.Shape() && u < s.N() && !kind.Null?
    ensures CreateMany(s, u, kind, bits, device, addr, size, num).status in {Ok, Err(OutOfSlots)}
    decreases num
  {
    hide AllocIndex, CreateOne;
    AllocatorFinds(s);
    var d := AllocIndex(s);
    if num > 0 && d < s.N() {
      LoopUnfold(s, u, kind, bits, device, addr, size, num, d);
      LoopRefusal(CreateOne(s, u, d, kind, bits, device, addr, size), u, kind, bits, device, addr + size, size,
          num - 1);
    }
  }

  /** CNodes of 1 to 3 or more than 16 bits are refused, after the capability itself. */
  lemma BadCNodeRefused(s: State, u: nat, bits: nat, num: nat, dest: Dest)
    requires s.Shape() && u < s.N() && (1 <= bits <= 3 || bits > 16)
    requires s.cap[u].kind == Untyped && s.cap[u].obj in s.regions && MayRetype(s.cap[u].rights)
    requires !s.regions[s.cap[u].obj].device
    ensures Retype(s, u, CNode, bits, num, dest) == Outcome(s, Err(InvalidArgument))
  {
    hide Contains, MayRetype;
    RightsBits(s.cap[u].rights, 0);
  }
}
