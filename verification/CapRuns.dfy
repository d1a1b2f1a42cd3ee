/** What every run of capability operations keeps, whatever the operations are
    and whether they succeed or fail. */
module CapRuns {
  import opened CapState
  import opened CapForest
  import opened CapOps

  // ---- the edge invariant -------------------------------------------------

  /** How the capability in live slot x relates to the one it was derived from. */
  ghost predicate Edge(s: State, x: nat)
    requires Tree(s) && s.Live(x)
  {
    var c, p := s.cap[x], s.parent[x];
    && c.depth <= MAX_DERIVATION_DEPTH
    && (c.kind.Untyped? ==> c.obj in s.regions)
    && match s.origin[x]
       case Root =>
         p == NONE && s.utParent[x] == NONE && s.home[x] == x && c.obj.Static?
       case Retyped =>
         && p != NONE && s.utParent[x] == p && s.home[x] == x
         && s.cap[p].kind.Untyped? && !c.kind.Null? && c.obj == NewObject(c.kind, x, s.span[x].start)
       case Copied =>
         && Derived(s, x) && Contains(s.cap[p].rights, c.rights)
       case Minted =>
         && Derived(s, x) && !Contains(c.rights, GRANT)
         && (c.kind.Endpoint? || c.kind.Notification?)
  }

  ghost predicate Derived(s: State, x: nat)
    requires Tree(s) && s.Live(x)
  {
    var c, p := s.cap[x], s.parent[x];
    && p != NONE && s.utParent[x] == NONE && s.home[x] == s.home[p]
    && c.obj == s.cap[p].obj && c.kind == s.cap[p].kind
    && Contains(s.cap[p].rights, GRANT) && c.depth == s.cap[p].depth + 1
  }

  ghost predicate WellFormed(s: State) {
    && Forest(s)
    && forall x :: 0 <= x < s.N() && s.occ[x] ==> Edge(s, x)
  }

  // ---- consequences -------------------------------------------------------

  /** Walking up from any capability reaches the slot that created its object, and
      every capability on the way, that slot included, names the same object. */
  lemma {:induction false} HomeIsAncestor(s: State, x: nat)
    requires WellFormed(s) && s.Live(x)
    ensures s.Live(s.home[x]) && s.home[s.home[x]] == s.home[x]
    ensures Under(s, s.home[x], x) && s.rank[s.home[x]] <= s.rank[x]
    ensures s.cap[s.home[x]].obj == s.cap[x].obj && s.cap[s.home[x]].kind == s.cap[x].kind
    ensures s.origin[s.home[x]].Root? || s.origin[s.home[x]].Retyped?
    decreases s.rank[x]
  {
    assert Edge(s, x);
    if s.origin[x].Copied? || s.origin[x].Minted? {
      HomeIsAncestor(s, s.parent[x]);
    }
  }

  lemma ParentsCanDerive(s: State, x: nat)
    requires WellFormed(s) && s.Live(x)
    ensures s.kids[x] != [] ==> Contains(s.cap[x].rights, GRANT) || s.cap[x].kind.Untyped?
  {
    FirstIsMember(s.kids[x]);
    if s.kids[x] != [] {
      assert Edge(s, s.kids[x][0]);
    }
  }

  /** A minted capability never has derivation children. */
  lemma MintedIsLeaf(s: State, x: nat)
    requires WellFormed(s) && s.Live(x) && s.origin[x].Minted?
    ensures s.kids[x] == []
  {
    ParentsCanDerive(s, x);
    assert Edge(s, x);
  }

  /** x was reached from a by copying alone. */
  ghost predicate CopiedFrom(s: State, a: nat, x: nat)
    requires Tree(s) && s.Live(x)
    decreases s.rank[x]
  {
    x == a || (s.origin[x].Copied? && s.parent[x] != NONE && CopiedFrom(s, a, s.parent[x]))
  }

  /** Along copies rights only shrink, while object, kind and badge chain stay. */
  lemma {:induction false} RightsShrink(s: State, a: nat, x: nat)
    requires WellFormed(s) && s.Live(a) && s.Live(x) && CopiedFrom(s, a, x)
    ensures Contains(s.cap[a].rights, s.cap[x].rights)
    ensures s.cap[x].obj == s.cap[a].obj && s.cap[x].kind == s.cap[a].kind
    decreases s.rank[x]
  {
    assert Edge(s, x);
    if x != a {
      RightsShrink(s, a, s.parent[x]);
    }
  }

  ghost predicate SlotIndexed(o: Obj) {
    o.FrameAt? || o.VSpaceAt? || o.UntypedAt?
  }

  /** Every capability naming the metadata of slot m lies in the derivation subtree
      of m, and m is live.  So when slot m is free, no live capability names its
      metadata, and reusing m overwrites nothing that can still be reached. */
  lemma MetadataOwnedBySubtree(s: State, x: nat)
    requires WellFormed(s) && s.Live(x) && SlotIndexed(s.cap[x].obj)
    ensures s.Live(s.cap[x].obj.slot) && Under(s, s.cap[x].obj.slot, x)
  {
    HomeIsAncestor(s, x);
    assert Edge(s, s.home[x]);
  }

  // ---- preservation -------------------------------------------------------

  /** Slot y carries the same capability, history and place in both states. */
  ghost predicate Same(s: State, t: State, y: nat)
    requires s.Shape() && t.Shape() && y < s.N() == t.N()
  {
    && t.occ[y] == s.occ[y] && t.cap[y] == s.cap[y] && t.parent[y] == s.parent[y]
    && t.utParent[y] == s.utParent[y] && t.origin[y] == s.origin[y]
    && t.home[y] == s.home[y] && t.span[y] == s.span[y]
  }

  lemma EdgeKept(s: State, t: State, x: nat)
    requires WellFormed(s) && Forest(t) && t.N() == s.N() && s.Live(x)
    requires Same(s, t, x) && (s.parent[x] != NONE ==> Same(s, t, s.parent[x]))
    requires s.regions.Keys <= t.regions.Keys
    ensures Edge(t, x)
  {
    assert Edge(s, x);
  }

  /** t is s with one more live slot d. */
  lemma NewSlotWellFormed(s: State, t: State, d: nat)
    requires WellFormed(s) && d < s.N() && !s.occ[d]
    requires Forest(t) && t.N() == s.N() && t.Live(d) && Edge(t, d)
    requires forall y :: 0 <= y < s.N() && y != d ==> Same(s, t, y)
    requires s.regions.Keys <= t.regions.Keys
    ensures WellFormed(t)
  {
    forall x | 0 <= x < t.N() && t.occ[x]
      ensures Edge(t, x)
    {
      if x != d {
        assert Same(s, t, x);
        EdgeKept(s, t, x);
      }
    }
  }

  lemma RevokedWellFormed(s: State, x: nat, r: State)
    requires WellFormed(s) && s.Live(x) && Revoked(s, x, r)
    ensures WellFormed(r)
  {
    forall y | 0 <= y < r.N() && r.occ[y]
      ensures Edge(r, y)
    {
      assert SameSlot(s, x, r, y);
      assert Same(s, r, y);
      var p := s.parent[y];
      if p != NONE {
        assert SameSlot(s, x, r, p);
        assert Same(s, r, p);
      }
      EdgeKept(s, r, y);
    }
  }

  lemma FillForest(s: State, d: nat, c: Cap)
    requires Forest(s) && d < s.N() && !s.occ[d]
    ensures Forest(SetCap(Alloc(s, d), d, c))
  {
    AllocForest(s, d);
    var a := Alloc(s, d);
    var t := SetCap(a, d, c);
    assert Tree(t) && UtLists(t);
  }

  /** Forest does not look at history, reference counts, regions or events. */
  lemma ForestIgnoresHistory(s: State, t: State)
    requires Forest(s)
    requires t == s.(origin := t.origin, home := t.home, span := t.span, refs := t.refs,
                     regions := t.regions, held := t.held, log := t.log)
    requires t.Shape()
    ensures Forest(t)
  {
    assert Tree(t) && UtLists(t);
  }

  lemma DeriveForest(s: State, src: nat, d: nat, c: Cap, how: Origin)
    requires Forest(s) && s.Live(src) && d < s.N() && !s.occ[d]
    ensures Forest(Derive(s, src, d, c, how))
  {
    FillForest(s, d, c);
    var s1 := SetCap(Alloc(s, d), d, c);
    var s2 := s1.(origin := s1.origin[d := how], home := s1.home[d := s.home[src]]);
    ForestIgnoresHistory(s1, s2);
    InsertChildForest(s2, src, d);
    var s3 := InsertChild(s2, src, d);
    ForestIgnoresHistory(s3, Retain(s3, c.obj));
  }

  ghost predicate MayDerive(from: Cap, c: Cap, how: Origin) {
    && c.obj == from.obj && c.kind == from.kind && Contains(from.rights, GRANT)
    && c.depth == from.depth + 1 <= MAX_DERIVATION_DEPTH
    && match how
       case Copied => Contains(from.rights, c.rights)
       case Minted => !Contains(c.rights, GRANT) && (c.kind.Endpoint? || c.kind.Notification?)
       case _ => false
  }

  lemma DeriveWellFormed(s: State, src: nat, d: nat, c: Cap, how: Origin)
    requires WellFormed(s) && s.Live(src) && d < s.N() && !s.occ[d] && MayDerive(s.cap[src], c, how)
    ensures WellFormed(Derive(s, src, d, c, how))
  {
    DeriveForest(s, src, d, c, how);
    var t := Derive(s, src, d, c, how);
    assert Edge(t, d) by {
      assert Edge(s, src);
    }
    assert forall y :: 0 <= y < s.N() && y != d ==> Same(s, t, y);
    NewSlotWellFormed(s, t, d);
  }

  lemma TakeAndFreeWellFormed(s: State, d: nat)
    requires WellFormed(s) && d < s.N() && !s.occ[d]
    ensures WellFormed(TakeAndFree(s, d)) && TakeAndFree(s, d).regions == s.regions
  {
    FreeSlotIsIsolated(s, d);
    var t := TakeAndFree(s, d);
    assert t.occ == s.occ && t.parent == s.parent && t.kids == s.kids && t.utParent == s.utParent && t.ut == s.ut;
    assert Forest(t);
    forall x | 0 <= x < t.N() && t.occ[x]
      ensures Edge(t, x)
    {
      assert Same(s, t, x);
      EdgeKept(s, t, x);
    }
  }

  lemma NullCapCannotDerive(c: Cap, how: Origin)
    ensures !MayDerive(NULL_CAP, c, how)
  {
  }

  /** The only states a copy can lead to. */
  lemma CopyOutcomes(s: State, src: nat, rights: Rights)
    requires s.Shape() && src < s.N()
    ensures
      var c := s.cap[src].(rights := rights, depth := s.cap[src].depth + 1);
      var d, r := AllocIndex(s), Copy(s, src, rights);
      || (r.state == s && r.status.Err?)
      || (d < s.N() && r.state == TakeAndFree(s, d) && r.status.Err?)
      || (d < s.N() && MayDerive(s.cap[src], c, Copied) && r == Outcome(Derive(s, src, d, c, Copied), Ok))
  {
  }

  lemma CopyWellFormed(s: State, src: nat, rights: Rights)
    requires WellFormed(s) && src < s.N()
    ensures WellFormed(Copy(s, src, rights).state)
  {
    CopyOutcomes(s, src, rights);
    var d, r := AllocIndex(s), Copy(s, src, rights);
    var c := s.cap[src].(rights := rights, depth := s.cap[src].depth + 1);
    if r.status.Ok? {
      NullCapCannotDerive(c, Copied);
      DeriveWellFormed(s, src, d, c, Copied);
    } else if d < s.N() {
      TakeAndFreeWellFormed(s, d);
    }
  }

  lemma MintWellFormed(s: State, src: nat, badge: nat, rights: Rights)
    requires WellFormed(s) && src < s.N()
    ensures WellFormed(Mint(s, src, badge, rights).state)
  {
    hide Derived, Derive, TakeAndFree;
    var d := AllocIndex(s);
    var c := s.cap[src].(rights := rights, badge := badge, depth := s.cap[src].depth + 1);
    if d < s.N() && MayDerive(s.cap[src], c, Minted) {
      NullCapCannotDerive(c, Minted);
      DeriveWellFormed(s, src, d, c, Minted);
      assert Mint(s, src, badge, rights).state == Derive(s, src, d, c, Minted);
    } else if d < s.N() {
      TakeAndFreeWellFormed(s, d);
      assert Mint(s, src, badge, rights).state == TakeAndFree(s, d);
    }
  }

  /** Deleting through a stale reference to a free slot moves only the cursor. */
  lemma DeleteOfFreeSlot(s: State, x: nat)
    requires Forest(s) && x < s.N() && !s.occ[x]
    ensures Delete(s, x) == Outcome(s.(next := if x < s.next then x else s.next), Ok)
  {
    FreeSlotIsIsolated(s, x);
    var t := DeleteLeaf(s, x);
    assert t.occ == s.occ && t.cap == s.cap && t.parent == s.parent && t.kids == s.kids;
    assert t.utParent == s.utParent && t.ut == s.ut;
  }

  lemma CursorIgnored(s: State, t: State)
    requires WellFormed(s) && t == s.(next := t.next, held := t.held)
    ensures WellFormed(t)
  {
    assert Tree(t) && UtLists(t);
    forall x | 0 <= x < t.N() && t.occ[x]
      ensures Edge(t, x)
    {
      EdgeKept(s, t, x);
    }
  }

  lemma DeleteKeepsForest(s: State, x: nat)
    requires Forest(s) && x < s.N() && s.kids[x] == []
    ensures Forest(DeleteLeaf(s, x))
  {
    if s.occ[x] {
      DeleteLeafForest(s, x);
    } else {
      DeleteOfFreeSlot(s, x);
      var t := DeleteLeaf(s, x);
      assert Tree(t) && UtLists(t);
    }
  }

  lemma DeleteWellFormed(s: State, x: nat)
    requires WellFormed(s) && x < s.N()
    ensures WellFormed(Delete(s, x).state)
  {
    if s.kids[x] != [] {
    } else if s.occ[x] {
      DeleteLeafIsRevocation(s, x);
      RevokedWellFormed(s, x, DeleteLeaf(s, x));
    } else {
      DeleteOfFreeSlot(s, x);
      CursorIgnored(s, Delete(s, x).state);
    }
  }

  lemma RevokeWellFormed(s: State, x: nat)
    requires WellFormed(s) && x < s.N()
    ensures WellFormed(RevokeSlot(s, x).state)
  {
    if s.occ[x] { RevokedWellFormed(s, x, Revoke(s, x)); }
  }

  lemma CreateOneForest(s: State, u: nat, d: nat, kind: ObjectType, bits: nat, device: bool, addr: nat, size: nat)
    requires Forest(s) && s.Live(u) && d < s.N() && !s.occ[d]
    ensures Forest(CreateOne(s, u, d, kind, bits, device, addr, size))
  {
    var o := NewObject(kind, d, addr);
    var c := Cap(o, 0, ALL_RIGHTS, kind, 0);
    FillForest(s, d, c);
    var s1 := SetCap(Alloc(s, d), d, c);
    var s2 := s1.(origin := s1.origin[d := Retyped], span := s1.span[d := Span(addr, size)],
                  refs := s1.refs[o := 1], log := s1.log + [Created(o)],
                  regions := if kind.Untyped? then s1.regions[o := Region(addr, bits, 0, device)]
                             else s1.regions);
    ForestIgnoresHistory(s1, s2);
    InsertChildForest(s2, u, d);
    AddUtChildForest(InsertChild(s2, u, d), u, d);
  }

  lemma CreateOneWellFormed(s: State, u: nat, d: nat, kind: ObjectType, bits: nat, device: bool, addr: nat, size: nat)
    requires WellFormed(s) && s.Live(u) && d < s.N() && !s.occ[d] && s.cap[u].kind.Untyped? && !kind.Null?
    ensures
      var t := CreateOne(s, u, d, kind, bits, device, addr, size);
      WellFormed(t) && t.Shape() && t.N() == s.N() && t.Live(u) && t.cap[u] == s.cap[u]
          && s.regions.Keys <= t.regions.Keys
  {
    CreateOneForest(s, u, d, kind, bits, device, addr, size);
    var t := CreateOne(s, u, d, kind, bits, device, addr, size);
    assert Edge(t, d);
    assert forall y :: 0 <= y < s.N() && y != d ==> Same(s, t, y);
    NewSlotWellFormed(s, t, d);
  }

  lemma {:induction false} CreateManyWellFormed(s: State, u: nat, kind: ObjectType, bits: nat, device: bool,
                                                addr: nat, size: nat, num: nat)
    requires s.Shape() && WellFormed(s) && s.Live(u) && s.cap[u].kind.Untyped?
    ensures WellFormed(CreateMany(s, u, kind, bits, device, addr, size, num).state)
    ensures s.regions.Keys <= CreateMany(s, u, kind, bits, device, addr, size, num).state.regions.Keys
    decreases num
  {
    hide AllocIndex, CreateOne, TakeAndFree, WellFormed;
    var d := AllocIndex(s);
    if num == 0 || d == s.N() {
    } else if kind.Null? {
      TakeAndFreeWellFormed(s, d);
    } else {
      CreateOneWellFormed(s, u, d, kind, bits, device, addr, size);
      var t := CreateOne(s, u, d, kind, bits, device, addr, size);
      CreateManyWellFormed(t, u, kind, bits, device, addr + size, size, num - 1);
    }
  }

  lemma SetRegionWellFormed(s: State, o: Obj, r: Region)
    requires WellFormed(s)
    ensures WellFormed(SetRegion(s, o, r))
  {
    var t := SetRegion(s, o, r);
    ForestIgnoresHistory(s, t);
    forall x | 0 <= x < t.N() && t.occ[x]
      ensures Edge(t, x)
    {
      EdgeKept(s, t, x);
    }
  }

  lemma CarveWellFormed(s: State, u: nat, o: Obj, kind: ObjectType, bits: nat, size: nat, num: nat, total: nat)
    requires s.Shape() && WellFormed(s) && s.Live(u) && s.cap[u].kind.Untyped? && o in s.regions
    ensures WellFormed(Carve(s, u, o, kind, bits, size, num, total).state)
  {
    hide WellFormed, CreateMany;
    var r := s.regions[o];
    CreateManyWellFormed(s, u, kind, bits, r.device, r.phys + r.watermark, size, num);
    var t := CreateMany(s, u, kind, bits, r.device, r.phys + r.watermark, size, num).state;
    SetRegionWellFormed(t, o, r.(watermark := (r.watermark + total) % U64));
  }

  lemma RetypeWellFormed(s: State, u: nat, kind: ObjectType, bits: nat, num: nat, dest: Dest)
    requires s.Shape() && WellFormed(s) && u < s.N() && (s.cap[u].kind.Untyped? ==> s.occ[u])
    ensures WellFormed(Retype(s, u, kind, bits, num, dest).state)
  {
    hide WellFormed, Carve;
    var o := s.cap[u].obj;
    if s.cap[u].kind.Untyped? && o in s.regions {
      var r, sz := s.regions[o], ObjectSize(s.layout, kind, bits);
      if sz.Size? {
        var total := Bytes(sz.bytes, num) % U64;
        if sz.bytes == 0 {
          CarveWellFormed(s, u, o, kind, bits, 0, num, 0);
        } else {
          var r1 := r.(watermark := AlignUp(r.watermark, Alignment(kind, sz.bytes)));
          SetRegionWellFormed(s, o, r1);
          CarveWellFormed(SetRegion(s, o, r1), u, o, kind, bits, sz.bytes, num, total);
        }
      }
    }
  }

  lemma BootWellFormed(s: State, id: nat, kind: ObjectType, rights: Rights, region: Region)
    requires WellFormed(s)
    ensures WellFormed(Boot(s, id, kind, rights, region).state)
  {
    var d := AllocIndex(s);
    if d < s.N() {
      var c := Cap(Static(id), 0, rights, kind, 0);
      FillForest(s, d, c);
      var t := Boot(s, id, kind, rights, region).state;
      ForestIgnoresHistory(SetCap(Alloc(s, d), d, c), t);
      assert Edge(t, d);
      assert forall y :: 0 <= y < s.N() && y != d ==> Same(s, t, y);
      NewSlotWellFormed(s, t, d);
    }
  }

  /** One operation, successful or not, keeps the state well formed. */
  lemma StepWellFormed(s: State, op: Op)
    requires WellFormed(s) && op.InRange(s.N())
    ensures WellFormed(Step(s, op).state)
  {
    match op
    case OpBoot(id, kind, rights, region) => BootWellFormed(s, id, kind, rights, region);
    case OpCopy(src, rights) => CopyWellFormed(s, src, rights);
    case OpMint(src, badge, rights) => MintWellFormed(s, src, badge, rights);
    case OpDelete(x) => DeleteWellFormed(s, x);
    case OpRevoke(x) => RevokeWellFormed(s, x);
    case OpRetype(u, kind, bits, num, dest) => RetypeWellFormed(s, u, kind, bits, num, dest);
    case OpReset(u) =>
      var o := s.cap[u].obj;
      if o in s.regions { SetRegionWellFormed(s, o, s.regions[o].(watermark := 0)); }
    case OpUntype(u, x) => RevokeWellFormed(s, x);
    case OpSchedule(held) => CursorIgnored(s, s.(held := held));
  }

  lemma {:induction false} CreateManyKeepsSize(s: State, u: nat, kind: ObjectType, bits: nat, device: bool,
                                               addr: nat, size: nat, num: nat)
    requires s.Shape() && u < s.N()
    ensures CreateMany(s, u, kind, bits, device, addr, size, num).state.N() == s.N()
    decreases num
  {
    hide AllocIndex;
    var d := AllocIndex(s);
    if num > 0 && d < s.N() && !kind.Null? {
      CreateManyKeepsSize(CreateOne(s, u, d, kind, bits, device, addr, size), u, kind, bits, device,
                          addr + size, size, num - 1);
    }
  }

  lemma CarveKeepsSize(s: State, u: nat, o: Obj, kind: ObjectType, bits: nat, size: nat, num: nat, total: nat)
    requires s.Shape() && u < s.N() && o in s.regions
    ensures Carve(s, u, o, kind, bits, size, num, total).state.N() == s.N()
  {
    hide CreateMany;
    var r := s.regions[o];
    CreateManyKeepsSize(s, u, kind, bits, r.device, r.phys + r.watermark, size, num);
  }

  lemma RetypeKeepsSize(s: State, u: nat, kind: ObjectType, bits: nat, num: nat, dest: Dest)
    requires s.Shape() && u < s.N()
    ensures Retype(s, u, kind, bits, num, dest).state.N() == s.N()
  {
    hide Carve, AlignUp;
    var o := s.cap[u].obj;
    if s.cap[u].kind.Untyped? && o in s.regions {
      var r, sz := s.regions[o], ObjectSize(s.layout, kind, bits);
      CarveKeepsSize(s, u, o, kind, bits, 0, num, 0);
      if sz.Size? && sz.bytes > 0 {
        var r1 := r.(watermark := AlignUp(r.watermark, Alignment(kind, sz.bytes)));
        CarveKeepsSize(SetRegion(s, o, r1), u, o, kind, bits, sz.bytes, num, Bytes(sz.bytes, num) % U64);
      }
    }
  }

  lemma StepKeepsSize(s: State, op: Op)
    requires WellFormed(s) && op.InRange(s.N())
    ensures Step(s, op).state.N() == s.N()
  {
    hide AllocIndex, Retype, Copy, Mint, DeleteLeaf;
    match op
    case OpRetype(u, kind, bits, num, dest) => RetypeKeepsSize(s, u, kind, bits, num, dest);
    case OpCopy(src, rights) => CopyKeepsSize(s, src, rights);
    case OpMint(src, badge, rights) => MintKeepsSize(s, src, badge, rights);
    case OpDelete(x) => DeleteKeepsSize(s, x);
    case _ =>
  }

  lemma CopyKeepsSize(s: State, src: nat, rights: Rights)
    requires s.Shape() && src < s.N()
    ensures Copy(s, src, rights).state.N() == s.N()
  {
    hide AllocIndex;
  }

  lemma MintKeepsSize(s: State, src: nat, badge: nat, rights: Rights)
    requires s.Shape() && src < s.N()
    ensures Mint(s, src, badge, rights).state.N() == s.N()
  {
    hide AllocIndex;
  }

  lemma DeleteKeepsSize(s: State, x: nat)
    requires s.Shape() && x < s.N()
    ensures DeleteLeaf(s, x).N() == s.N()
  {
    hide Without, Unlink, RemoveUtChild, Release;
  }

  /** Any sequence of operations from a well-formed state, in any order, with any
      arguments and any mixture of successes and failures. */
  function Run(s: State, ops: seq<Op>): (t: State)
    requires WellFormed(s) && forall i :: 0 <= i < |ops| ==> ops[i].InRange(s.N())
    ensures WellFormed(t) && t.N() == s.N()
    decreases |ops|
  {
    if ops == [] then s
    else
      StepWellFormed(s, ops[0]);
      StepKeepsSize(s, ops[0]);
      Run(Step(s, ops[0]).state, ops[1..])
  }

  lemma InitialWellFormed(n: nat, layout: Layout)
    requires n < NONE
    ensures WellFormed(Initial(n, layout))
  {
  }
}
