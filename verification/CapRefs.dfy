/** Reference counts and object lifetimes: over every disciplined run each count
    is the number of capabilities naming the object, and each object is destroyed
    once per creation, exactly when its last capability goes. */
module CapRefs {
  import opened Bits
  import opened CapState
  import opened CapForest
  import opened CapOps
  import opened CapRuns
  import opened CapMemory
  import opened CapRetype

  ghost function Naming(s: State, o: Obj): set<nat> {
    set x | 0 <= x < s.N() && x < |s.cap| && s.occ[x] && s.cap[x].obj == o
  }

  function Births(log: seq<Event>, o: Obj): nat {
    if log == [] then 0
    else Births(log[..|log| - 1], o) + BitVal(log[|log| - 1] == Created(o))
  }

  function Deaths(log: seq<Event>, o: Obj): nat {
    if log == [] then 0
    else Deaths(log[..|log| - 1], o) + BitVal(log[|log| - 1] in {Destroyed(o), DestroyDeferred(o)})
  }

  lemma LogGrows(log: seq<Event>, e: Event, o: Obj)
    ensures Births(log + [e], o) == Births(log, o) + BitVal(e == Created(o))
    ensures Deaths(log + [e], o) == Deaths(log, o) + BitVal(e in {Destroyed(o), DestroyDeferred(o)})
  {
    assert (log + [e])[..|log|] == log;
  }

  /** o is counted right, and is alive in the log exactly when some live slot names it. */
  ghost predicate AccountedFor(s: State, o: Obj) {
    && (Naming(s, o) != {} ==> RefCount(s, o) == |Naming(s, o)|)
    && Births(s.log, o) == Deaths(s.log, o) + BitVal(Naming(s, o) != {})
  }

  ghost predicate Accounts(s: State) {
    forall o {:trigger AccountedFor(s, o)} :: o != NoObject ==> AccountedFor(s, o)
  }

  lemma {:induction false} BoundedSet(xs: set<nat>, n: nat)
    requires forall x :: x in xs ==> x < n
    ensures |xs| <= n
  {
    if n == 0 {
      assert xs == {};
    } else {
      BoundedSet(xs - {n - 1}, n - 1);
    }
  }

  /** The 32-bit counters never wrap: there are fewer slots than counter values. */
  lemma CountsFit(s: State, o: Obj)
    requires s.Shape()
    ensures |Naming(s, o)| <= s.N() < U32
  {
    BoundedSet(Naming(s, o), s.N());
  }

  lemma AccountsSame(s: State, t: State)
    requires s.Shape() && t.Shape() && Accounts(s)
    requires t.occ == s.occ && t.cap == s.cap && t.refs == s.refs && t.log == s.log
    ensures Accounts(t)
  {
    forall o | o != NoObject
      ensures AccountedFor(t, o)
    {
      assert AccountedFor(s, o);
      assert Naming(t, o) == Naming(s, o);
    }
  }

  lemma DeriveNaming(s: State, src: nat, d: nat, c: Cap, how: Origin, t: State, o: Obj)
    requires s.Shape() && s.Live(src) && d < s.N() && !s.occ[d] && c.obj != NoObject
    requires t == Derive(s, src, d, c, how)
    ensures t.Shape() && t.log == s.log
    ensures Naming(t, o) == if o == c.obj then Naming(s, o) + {d} else Naming(s, o)
    ensures RefCount(t, o) == if o == c.obj then (RefCount(s, o) + 1) % U32 else RefCount(s, o)
  {
  }

  lemma DeriveAccounts(s: State, src: nat, d: nat, c: Cap, how: Origin, t: State)
    requires s.Shape() && Accounts(s) && s.Live(src) && d < s.N() && !s.occ[d]
    requires c.obj == s.cap[src].obj != NoObject && t == Derive(s, src, d, c, how)
    ensures Accounts(t)
  {
    hide Derive, AccountedFor;
    forall o | o != NoObject
      ensures AccountedFor(t, o)
    {
      assert AccountedFor(s, o);
      DeriveNaming(s, src, d, c, how, t, o);
      OneMore(s, src, d, t, o);
    }
  }

  lemma OneMore(s: State, src: nat, d: nat, t: State, o: Obj)
    requires s.Shape() && t.Shape() && AccountedFor(s, o) && s.Live(src) && d !in Naming(s, o) && t.log == s.log
    requires Naming(t, o) == if o == s.cap[src].obj then Naming(s, o) + {d} else Naming(s, o)
    requires RefCount(t, o) == if o == s.cap[src].obj then (RefCount(s, o) + 1) % U32 else RefCount(s, o)
    ensures AccountedFor(t, o)
  {
    hide Births, Deaths;
    CountsFit(t, o);
    assert o == s.cap[src].obj ==> src in Naming(s, o);
  }

  lemma DeleteLeafFacts(s: State, x: nat, r: State)
    requires s.Shape() && x < s.N() && r == DeleteLeaf(s, x)
    ensures r.Shape() && r.cap == s.cap[x := NULL_CAP] && r.occ == s.occ[x := false]
    ensures r.refs == Release(s, s.cap[x].obj, s.cap[x].kind).refs
    ensures r.log == Release(s, s.cap[x].obj, s.cap[x].kind).log
  {
    hide Without, Unlink, RemoveUtChild, Release;
    var s1 := Unlink(s, x);
    var u := s.utParent[x];
    var s2 := if u < s.N() then RemoveUtChild(s1, u, x) else s1;
    SameRelease(s, s2, s.cap[x].obj, s.cap[x].kind);
    DeleteLeafSlot(s, x, r);
  }

  lemma SameRelease(s: State, t: State, o: Obj, kind: ObjectType)
    requires t.refs == s.refs && t.log == s.log && t.held == s.held
    ensures Release(t, o, kind).refs == Release(s, o, kind).refs && Release(t, o, kind).log == Release(s, o, kind).log
  {
  }

  lemma DeleteLeafSlot(s: State, x: nat, r: State)
    requires s.Shape() && x < s.N() && r == DeleteLeaf(s, x)
    ensures r.Shape() && r.cap == s.cap[x := NULL_CAP] && r.occ == s.occ[x := false]
  {
    hide Without, Unlink, RemoveUtChild, Release;
  }

  lemma DeleteNaming(s: State, x: nat, r: State, o: Obj)
    requires s.Shape() && s.Live(x) && s.cap[x].obj != NoObject && r == DeleteLeaf(s, x) && o != NoObject
    ensures r.Shape()
    ensures Naming(r, o) == Naming(s, o) - {x}
    ensures o != s.cap[x].obj ==> RefCount(r, o) == RefCount(s, o)
    ensures RefCount(r, s.cap[x].obj) == (RefCount(s, s.cap[x].obj) + U32 - 1) % U32
    ensures r.log == if RefCount(s, s.cap[x].obj) != 1 then s.log
                     else if s.cap[x].kind.Tcb? && s.cap[x].obj in s.held then s.log + [DestroyDeferred(s.cap[x].obj)]
                     else s.log + [Destroyed(s.cap[x].obj)]
  {
    hide DeleteLeaf;
    DeleteLeafFacts(s, x, r);
  }

  /** Deleting a capability destroys its object exactly when it was the last one. */
  lemma DeleteAccounts(s: State, x: nat, r: State)
    requires s.Shape() && Accounts(s) && s.Live(x) && s.cap[x].obj != NoObject && r == DeleteLeaf(s, x)
    ensures Accounts(r)
    ensures r.log != s.log <==> Naming(s, s.cap[x].obj) == {x}
  {
    hide DeleteLeaf, AccountedFor;
    var o0 := s.cap[x].obj;
    assert AccountedFor(s, o0);
    DeleteNaming(s, x, r, o0);
    LastReleased(s, x);
    forall o | o != NoObject
      ensures AccountedFor(r, o)
    {
      assert AccountedFor(s, o);
      DeleteNaming(s, x, r, o);
      OneLess(s, x, r, o);
    }
  }

  lemma LastReleased(s: State, x: nat)
    requires s.Shape() && s.Live(x) && AccountedFor(s, s.cap[x].obj)
    ensures RefCount(s, s.cap[x].obj) == |Naming(s, s.cap[x].obj)| < U32
    ensures RefCount(s, s.cap[x].obj) == 1 <==> Naming(s, s.cap[x].obj) == {x}
  {
    assert x in Naming(s, s.cap[x].obj);
    CountsFit(s, s.cap[x].obj);
    LastOne(Naming(s, s.cap[x].obj), x);
  }

  lemma OneLess(s: State, x: nat, r: State, o: Obj)
    requires s.Shape() && s.Live(x) && AccountedFor(s, o) && AccountedFor(s, s.cap[x].obj)
    requires Naming(r, o) == Naming(s, o) - {x}
    requires o != s.cap[x].obj ==> RefCount(r, o) == RefCount(s, o)
    requires RefCount(r, s.cap[x].obj) == (RefCount(s, s.cap[x].obj) + U32 - 1) % U32
    requires r.log == if RefCount(s, s.cap[x].obj) != 1 then s.log
                      else if s.cap[x].kind.Tcb? && s.cap[x].obj in s.held then s.log + [DestroyDeferred(s.cap[x].obj)]
                      else s.log + [Destroyed(s.cap[x].obj)]
    ensures AccountedFor(r, o)
  {
    LastReleased(s, x);
    LogGrows(s.log, Destroyed(s.cap[x].obj), o);
    LogGrows(s.log, DestroyDeferred(s.cap[x].obj), o);
    if o == s.cap[x].obj {
      LastOne(Naming(s, o), x);
    }
  }

  lemma LastOne(xs: set<nat>, x: nat)
    requires x in xs
    ensures |xs| == 1 <==> xs == {x}
    ensures xs - {x} == {} <==> xs == {x}
    ensures |xs - {x}| == |xs| - 1
  {
    if |xs| == 1 {
      assert |xs - {x}| == 0;
    }
  }

  lemma {:induction false} RevokeAccounts(s: State, x: nat)
    requires WellFormed(s) && Accounts(s) && s.Live(x)
    ensures Accounts(Revoke(s, x))
    decreases Subtree(s, x)
  {
    NamesRealObject(s, x);
    if s.kids[x] == [] {
      DeleteAccounts(s, x, DeleteLeaf(s, x));
    } else {
      var c := s.kids[x][0];
      FirstChild(s, x);
      RevokeAccounts(s, c);
      var t := Revoke(s, c);
      RevokedWellFormed(s, c, t);
      AfterFirstChild(s, x, t);
      RevokeAccounts(t, x);
    }
  }

  lemma NamesRealObject(s: State, x: nat)
    requires WellFormed(s) && s.Live(x)
    ensures s.cap[x].obj != NoObject
  {
    HomeIsAncestor(s, x);
    assert Edge(s, s.home[x]);
  }

  // ---- creation -----------------------------------------------------------

  /** A freshly carved object is named by nobody yet. */
  lemma CarvedObjectIsFresh(a: State, t: State, u: nat, o: Obj, d: nat, kind: ObjectType, bits: nat, size: nat)
    requires WellFormed(a) && WellFormed(t) && Memory(t) && o in a.regions && t.N() == a.N()
    requires CarvedOne(a, t, u, o, d, kind, bits, size)
    ensures Naming(a, t.cap[d].obj) == {}
  {
    forall y | y in Naming(a, t.cap[d].obj)
      ensures false
    {
      HomeIsAncestor(a, y);
      var h := a.home[y];
      assert Same(a, t, h);
      ObjectsUnique(t, h, d);
    }
  }

  lemma CreateNaming(s: State, u: nat, d: nat, kind: ObjectType, bits: nat, device: bool, addr: nat, size: nat,
      t: State, o: Obj)
    requires s.Shape() && u < s.N() && d < s.N() && !s.occ[d] && t == CreateOne(s, u, d, kind, bits, device, addr, size)
    ensures
      var o1 := NewObject(kind, d, addr);
      && t.Shape() && t.N() == s.N() && t.cap[d].obj == o1 && t.log == s.log + [Created(o1)]
      && Naming(t, o) == (if o == o1 then Naming(s, o) + {d} else Naming(s, o))
      && RefCount(t, o) == (if o == o1 then 1 else RefCount(s, o))
  {
  }

  lemma BornAccounted(s: State, t: State, d: nat, o1: Obj, o: Obj)
    requires AccountedFor(s, o) && Naming(s, o1) == {} && t.log == s.log + [Created(o1)]
    requires Naming(t, o) == if o == o1 then Naming(s, o) + {d} else Naming(s, o)
    requires RefCount(t, o) == if o == o1 then 1 else RefCount(s, o)
    ensures AccountedFor(t, o)
  {
    LogGrows(s.log, Created(o1), o);
  }

  lemma CreateAccounts(s: State, u: nat, d: nat, kind: ObjectType, bits: nat, device: bool, addr: nat, size: nat,
      t: State)
    requires s.Shape() && Accounts(s) && u < s.N() && d < s.N() && !s.occ[d]
    requires t == CreateOne(s, u, d, kind, bits, device, addr, size) && Naming(s, NewObject(kind, d, addr)) == {}
    ensures Accounts(t)
  {
    hide CreateOne, AccountedFor;
    forall o | o != NoObject
      ensures AccountedFor(t, o)
    {
      assert AccountedFor(s, o);
      CreateNaming(s, u, d, kind, bits, device, addr, size, t, o);
      BornAccounted(s, t, d, NewObject(kind, d, addr), o);
    }
  }

  lemma LoopAccountsStep(s: State, u: nat, o: Obj, kind: ObjectType, bits: nat, w: nat, size: nat, d: nat, c: State)
    requires s.Shape() && WellFormed(s) && Accounts(s) && s.Live(u) && s.cap[u].obj == o && o in s.regions
    requires s.cap[u].kind.Untyped? && d < s.N() && !s.occ[d] && WellFormed(At(s, o, w))
    requires c == CreateOne(s, u, d, kind, bits, s.regions[o].device, s.regions[o].phys + w, size)
    requires c.Shape() && o in c.regions && WellFormed(At(c, o, w + size)) && Memory(At(c, o, w + size))
    ensures Accounts(c)
  {
    hide WellFormed, Memory, CreateOne, CarvedOne;
    var a, t := At(s, o, w), At(c, o, w + size);
    FreshSlotUnnamed(s, u, d);
    CreateOneCarves(s, u, o, d, kind, bits, w, size);
    CreateNaming(s, u, d, kind, bits, s.regions[o].device, s.regions[o].phys + w, size, c, o);
    CarvedObjectIsFresh(a, t, u, o, d, kind, bits, size);
    assert Naming(a, t.cap[d].obj) == Naming(s, t.cap[d].obj);
    CreateAccounts(s, u, d, kind, bits, s.regions[o].device, s.regions[o].phys + w, size, c);
  }

  lemma {:induction false} LoopAccounts(s: State, u: nat, o: Obj, kind: ObjectType, bits: nat, w: nat, size: nat,
      num: nat, t: State)
    requires s.Shape() && WellFormed(s) && Accounts(s) && s.Live(u) && s.cap[u].obj == o && o in s.regions
    requires s.cap[u].kind.Untyped? && !kind.Null? && num <= |FreeSlots(s)|
    requires WellFormed(At(s, o, w)) && Memory(At(s, o, w))
      && (num > 0 ==> AllFit(At(s, o, w), o, kind, bits, size, num))
    requires t == CreateMany(s, u, kind, bits, s.regions[o].device, s.regions[o].phys + w, size, num).state
    ensures Accounts(t)
    decreases num
  {
    hide WellFormed, Memory, AllocIndex, CreateOne, CreateMany, AllFit, Fits, Accounts;
    var r := s.regions[o];
    if num == 0 {
      LoopDone(s, u, kind, bits, r.device, r.phys + w, size);
    } else {
      var d := AllocIndex(s);
      AllocatorFinds(s);
      LoopUnfold(s, u, kind, bits, r.device, r.phys + w, size, num, d);
      var c := CreateOne(s, u, d, kind, bits, r.device, r.phys + w, size);
      LoopMemoryStep(s, u, o, kind, bits, w, size, num, d, c);
      LoopAccountsStep(s, u, o, kind, bits, w, size, d, c);
      LoopAccounts(c, u, o, kind, bits, w + size, size, num - 1, t);
    }
  }

  lemma TakeAndFreeAccounts(s: State, d: nat, t: State)
    requires s.Shape() && Accounts(s) && d < s.N() && !s.occ[d] && t == TakeAndFree(s, d)
    ensures Accounts(t)
  {
    assert t.occ == s.occ;
    AccountsSame(s, t);
  }

  lemma CarveAccounts(s: State, u: nat, o: Obj, kind: ObjectType, bits: nat, size: nat, num: nat, total: nat, f: State)
    requires s.Shape() && WellFormed(s) && Memory(s) && Accounts(s) && s.Live(u) && s.cap[u].obj == o && o in s.regions
    requires s.cap[u].kind.Untyped? && !kind.Null? && num <= |FreeSlots(s)|
    requires num > 0 ==> AllFit(s, o, kind, bits, size, num)
    requires f == Carve(s, u, o, kind, bits, size, num, total).state
    ensures Accounts(f)
  {
    hide WellFormed, Memory, AllFit, CreateMany, Accounts;
    var r := s.regions[o];
    var w := r.watermark;
    assert At(s, o, w) == s;
    var done := CreateMany(s, u, kind, bits, r.device, r.phys + w, size, num);
    LoopAccounts(s, u, o, kind, bits, w, size, num, done.state);
    LoopKeeps(s, u, kind, bits, r.device, r.phys + w, size, num, done.state, u);
    AccountsSame(done.state, f);
  }

  lemma RetypeAccounts(s: State, u: nat, kind: ObjectType, bits: nat, num: nat, dest: Dest, f: State)
    requires s.Shape() && WellFormed(s) && Memory(s) && Accounts(s) && u < s.N()
      && (s.cap[u].kind.Untyped? ==> s.occ[u])
    requires f == Retype(s, u, kind, bits, num, dest).state && RetypeDisciplined(s, u, kind, bits, num, dest)
    ensures Accounts(f)
  {
    hide WellFormed, Memory, Carves, CarvesWell, Retype, Accounts;
    if size, w :| Carves(s, u, kind, bits, num, dest, size, w) {
      CarvesUnique(s, u, kind, bits, num, dest, size, w);
      RetypeReachesCarving(s, u, kind, bits, num, dest, size, w);
      CarvingAccounts(s, u, kind, bits, num, dest, size, w, f);
    } else {
      IdleRetypeAccounts(s, u, kind, bits, num, dest, f);
    }
  }

  lemma CarvingAccounts(s: State, u: nat, kind: ObjectType, bits: nat, num: nat, dest: Dest, size: nat, w: nat,
      f: State)
    requires s.Shape() && WellFormed(s) && Memory(s) && Accounts(s) && s.Live(u)
      && Carves(s, u, kind, bits, num, dest, size, w)
    requires s.cap[u].kind.Untyped? && s.cap[u].obj in s.regions && CarvesWell(s, kind, size, num)
    requires f == Carve(At(s, s.cap[u].obj, w), u, s.cap[u].obj, kind, bits, size, num, Bytes(size, num) % U64).state
    ensures Accounts(f)
  {
    hide WellFormed, Memory, Carve, AllFit, Accounts;
    var o := s.cap[u].obj;
    AlignUpFacts(s.regions[o].watermark, Alignment(kind, size));
    WatermarkMoves(s, o, w);
    var a := At(s, o, w);
    AccountsSame(s, a);
    assert FreeSlots(a) == FreeSlots(s);
    if num == 0 || FreeSlots(s) != {} {
      RequestFits(a, o, kind, bits, size, num);
      CarveAccounts(a, u, o, kind, bits, size, num, Bytes(size, num) % U64, f);
    } else {
      NoSlotsNoCarving(a, u, o, kind, bits, size, num, f);
    }
  }

  lemma IdleRetypeAccounts(s: State, u: nat, kind: ObjectType, bits: nat, num: nat, dest: Dest, f: State)
    requires s.Shape() && WellFormed(s) && Memory(s) && Accounts(s) && u < s.N()
      && (s.cap[u].kind.Untyped? ==> s.occ[u])
    requires f == Retype(s, u, kind, bits, num, dest).state
    requires forall size, w :: !Carves(s, u, kind, bits, num, dest, size, w)
    ensures Accounts(f)
  {
    hide Accounts, AllocIndex, Carve, TakeAndFree;
    var o, sz := s.cap[u].obj, ObjectSize(s.layout, kind, bits);
    SizesPositive(s.layout, kind, bits);
    if s.cap[u].kind.Untyped? && o in s.regions && sz.Size? {
      if kind.Null? {
        RegionsInBounds(s, u);
        var g := Carve(s, u, o, kind, bits, 0, num, 0).state;
        assert f in {s, g};
        NullCarveOutcome(s, u, o, kind, bits, num, g);
        if f != s { TakeAndFreeAccounts(s, AllocIndex(s), f); }
      } else {
        var w := AlignUp(s.regions[o].watermark, Alignment(kind, sz.bytes));
        RetypeStops(s, u, kind, bits, num, dest, sz.bytes, w, f);
        AccountsSame(s, f);
      }
    }
  }

  lemma BootNaming(s: State, id: nat, kind: ObjectType, rights: Rights, region: Region, t: State, d: nat, o: Obj)
    requires s.Shape() && d == AllocIndex(s) < s.N() && t == Boot(s, id, kind, rights, region).state
    ensures t.log == s.log + [Created(Static(id))] && RefCount(t, o) == if o == Static(id) then 1 else RefCount(s, o)
    ensures Naming(t, o) == if o == Static(id) then Naming(s, o) + {d} else Naming(s, o)
  {
    hide AllocIndex;
    assert t.occ == s.occ[d := true] && t.cap[d].obj == Static(id);
    assert t.cap == s.cap[d := t.cap[d]];
  }

  lemma BootAccounts(s: State, id: nat, kind: ObjectType, rights: Rights, region: Region, t: State)
    requires s.Shape() && Accounts(s) && BootFresh(s, id, kind, region) && t == Boot(s, id, kind, rights, region).state
    ensures Accounts(t)
  {
    var d, o1 := AllocIndex(s), Static(id);
    if d < s.N() {
      assert Naming(s, o1) == {};
      forall o | o != NoObject
        ensures AccountedFor(t, o)
      {
        assert AccountedFor(s, o);
        BootNaming(s, id, kind, rights, region, t, d, o);
        BornAccounted(s, t, d, o1, o);
      }
    }
  }

  // ---- disciplined runs ---------------------------------------------------

  ghost predicate Good(s: State) {
    WellFormed(s) && Memory(s) && Accounts(s)
  }

  /** What the callers of the kernel keep to: boot hands out fresh objects and
      memory, retype requests can be met in full, and a region is reset only when
      it is idle through every slot naming it. */
  ghost predicate Disciplined(s: State, op: Op)
    requires WellFormed(s) && op.InRange(s.N())
  {
    match op
    case OpBoot(id, kind, _, region) => BootFresh(s, id, kind, region)
    case OpRetype(u, kind, bits, num, dest) => RetypeDisciplined(s, u, kind, bits, num, dest)
    case OpReset(u) => Reset(s, u).status.Ok? ==> RegionIdle(s, s.cap[u].obj)
    case _ => true
  }

  lemma CopyGood(s: State, src: nat, rights: Rights, t: State)
    requires Good(s) && src < s.N() && t == Copy(s, src, rights).state && WellFormed(t)
    ensures Good(t)
  {
    hide Memory, Accounts, AllocIndex, Copy, Derive, TakeAndFree;
    CopyOutcomes(s, src, rights);
    var d := AllocIndex(s);
    var c := s.cap[src].(rights := rights, depth := s.cap[src].depth + 1);
    if t != s {
      if t == TakeAndFree(s, d) {
        FreeSlotReusable(s, d);
        TakeAndFreeAccounts(s, d, t);
      } else {
        NullCapCannotDerive(c, Copied);
        NamesRealObject(s, src);
        DeriveMemory(s, src, d, c, Copied);
        DeriveAccounts(s, src, d, c, Copied, t);
      }
    }
  }

  lemma MintOutcomes(s: State, src: nat, badge: nat, rights: Rights)
    requires s.Shape() && src < s.N()
    ensures
      var c := s.cap[src].(rights := rights, badge := badge, depth := s.cap[src].depth + 1);
      var d, r := AllocIndex(s), Mint(s, src, badge, rights);
      || (r.state == s && r.status.Err?)
      || (d < s.N() && r.state == TakeAndFree(s, d) && r.status.Err?)
      || (d < s.N() && MayDerive(s.cap[src], c, Minted) && r == Outcome(Derive(s, src, d, c, Minted), Ok))
  {
  }

  lemma MintGood(s: State, src: nat, badge: nat, rights: Rights, t: State)
    requires Good(s) && src < s.N() && t == Mint(s, src, badge, rights).state && WellFormed(t)
    ensures Good(t)
  {
    hide Memory, Accounts, AllocIndex, Mint, Derive, TakeAndFree;
    MintOutcomes(s, src, badge, rights);
    var d := AllocIndex(s);
    var c := s.cap[src].(rights := rights, badge := badge, depth := s.cap[src].depth + 1);
    if t != s {
      if t == TakeAndFree(s, d) {
        FreeSlotReusable(s, d);
        TakeAndFreeAccounts(s, d, t);
      } else {
        NullCapCannotDerive(c, Minted);
        NamesRealObject(s, src);
        DeriveMemory(s, src, d, c, Minted);
        DeriveAccounts(s, src, d, c, Minted, t);
      }
    }
  }

  lemma QuietStepGood(s: State, t: State)
    requires Good(s) && t == s.(next := t.next, held := t.held)
    ensures Good(t)
  {
    CursorIgnored(s, t);
    RegionsUntouched(s, t);
    forall x | 0 <= x < s.N() && s.occ[x]
      ensures Stays(s, t, x)
    {
      assert Edge(s, x);
    }
    assert AllStay(s, t, s.N());
    MemoryStays(s, t, s.N());
    AccountsSame(s, t);
  }

  lemma DeleteGood(s: State, x: nat, t: State)
    requires Good(s) && x < s.N() && t == Delete(s, x).state && WellFormed(t)
    ensures Good(t)
  {
    hide Memory, Accounts;
    if s.kids[x] != [] {
    } else if s.occ[x] {
      DeleteLeafIsRevocation(s, x);
      RevokedMemory(s, x, t);
      NamesRealObject(s, x);
      DeleteAccounts(s, x, t);
    } else {
      DeleteOfFreeSlot(s, x);
      QuietStepGood(s, t);
    }
  }

  lemma RevokeGood(s: State, x: nat, t: State)
    requires Good(s) && x < s.N() && t == RevokeSlot(s, x).state && WellFormed(t)
    ensures Good(t)
  {
    hide Memory, Accounts, Revoke;
    if s.occ[x] {
      RevokedMemory(s, x, t);
      RevokeAccounts(s, x);
    }
  }

  lemma ResetGood(s: State, u: nat, t: State)
    requires Good(s) && u < s.N() && t == Reset(s, u).state && (Reset(s, u).status.Ok? ==> RegionIdle(s, s.cap[u].obj))
    ensures Good(t)
  {
    hide Memory, Accounts;
    if Reset(s, u).status.Ok? {
      ResetMemory(s, u, t);
      AccountsSame(s, t);
    }
  }

  /** A disciplined operation keeps memory apart, counts exact and lifetimes balanced. */
  lemma DisciplinedStep(s: State, op: Op, t: State)
    requires Good(s) && op.InRange(s.N()) && Disciplined(s, op) && t == Step(s, op).state
    ensures Good(t)
  {
    hide Memory, Accounts, AllocIndex, Revoke, Retype, Copy, Mint, Delete, Boot, Reset, RevokeSlot;
    StepWellFormed(s, op);
    match op
    case OpBoot(id, kind, rights, region) =>
      BootMemory(s, id, kind, rights, region);
      BootAccounts(s, id, kind, rights, region, t);
    case OpCopy(src, rights) => CopyGood(s, src, rights, t);
    case OpMint(src, badge, rights) => MintGood(s, src, badge, rights, t);
    case OpDelete(x) => DeleteGood(s, x, t);
    case OpRevoke(x) => RevokeGood(s, x, t);
    case OpRetype(u, kind, bits, num, dest) =>
      RetypeMemory(s, u, kind, bits, num, dest, t);
      RetypeAccounts(s, u, kind, bits, num, dest, t);
    case OpReset(u) => ResetGood(s, u, t);
    case OpUntype(u, x) => if t != s { RevokeGood(s, x, t); }
    case OpSchedule(held) => QuietStepGood(s, t);
  }

  /** Every operation of the run is disciplined in the state it meets. */
  ghost predicate DisciplinedRun(s: State, ops: seq<Op>)
    requires WellFormed(s) && forall i :: 0 <= i < |ops| ==> ops[i].InRange(s.N())
    decreases |ops|
  {
    ops == [] ||
    (Disciplined(s, ops[0]) &&
     (StepWellFormed(s, ops[0]);
      StepKeepsSize(s, ops[0]);
      DisciplinedRun(Step(s, ops[0]).state, ops[1..])))
  }

  lemma {:induction false} RunGood(s: State, ops: seq<Op>)
    requires Good(s) && forall i :: 0 <= i < |ops| ==> ops[i].InRange(s.N())
    requires DisciplinedRun(s, ops)
    ensures Good(Run(s, ops))
    decreases |ops|
  {
    hide Memory, Accounts, Step, Disciplined;
    if ops != [] {
      StepWellFormed(s, ops[0]);
      StepKeepsSize(s, ops[0]);
      DisciplinedStep(s, ops[0], Step(s, ops[0]).state);
      RunGood(Step(s, ops[0]).state, ops[1..]);
    }
  }

  lemma InitialGood(n: nat, layout: Layout)
    requires n < NONE && layout.Valid()
    ensures Good(Initial(n, layout))
  {
    var s := Initial(n, layout);
    InitialWellFormed(n, layout);
    forall o | o != NoObject
      ensures AccountedFor(s, o)
    {
      assert Naming(s, o) == {};
    }
  }
}
