/** The capability system in its own form: one object holding the slot array, its
    intrusive links, the allocator bitmap and the kernel object headers, updated
    in place.  Every method is tied to the abstract operation it implements. */
module CapSpace {
  import opened Bits
  import opened CapState
  import opened CapForest
  import opened CapOps
  import opened CapRuns
  import opened CapRetype
  import opened CapLinks
  import opened CapBitmap

  datatype Slot = NoSlot | Some(index: nat)

  class Space {
    const meta: array<Meta>
    const caps: array<Cap>
    const bitmap: array<nat>
    const layout: Layout
    var next: nat
    var refs: map<Obj, nat>
    var regions: map<Obj, Region>
    var held: set<Obj>
    var log: seq<Event>
    ghost var s: State

    /** The stored words, links and maps represent the abstract state. */
    ghost predicate Represents()
      reads this, meta, caps, bitmap
    {
      && s.Shape() && meta.Length == s.N() && Linked(meta[..], s) && caps[..] == s.cap && Bitmap(bitmap[..], s.occ)
      && next == s.next <= s.N() && refs == s.refs && regions == s.regions
      && held == s.held && log == s.log && layout == s.layout
    }

    ghost predicate Valid()
      reads this, meta, caps, bitmap
    {
      Represents() && Forest(s)
    }

    constructor (n: nat, sizes: Layout)
      requires n < NONE
      ensures Valid() && s == Initial(n, sizes)
      ensures fresh(meta) && fresh(caps) && fresh(bitmap)
    {
      meta := new Meta[n](_ => FREE_META);
      caps := new Cap[n](_ => NULL_CAP);
      bitmap := new nat[(n + 63) / 64](_ => 0);
      layout := sizes;
      next := 0;
      refs, regions, held, log := map[], map[], {}, [];
      s := Initial(n, sizes);
      new;
      assert caps[..] == s.cap;
      forall i | 0 <= i < 64 * bitmap.Length
        ensures !BitOf(bitmap[..], i)
      {
        BitZero(i % 64);
      }
    }

    // ---- slots ------------------------------------------------------------

    /** The allocator's scan: the first clear bit in [lo, hi). */
    method FindFree(lo: nat, hi: nat) returns (i: nat)
      requires Represents() && lo <= hi <= s.N()
      ensures i == FirstFree(s.occ, lo, hi)
    {
      i := lo;
      while i < hi
        invariant lo <= i <= hi && FirstFree(s.occ, lo, hi) == FirstFree(s.occ, i, hi)
      {
        TestBit(bitmap[..], s.occ, i);
        if And(bitmap[i / 64], Pow2(i % 64)) == 0 { return; }
        i := i + 1;
      }
    }

    method AllocSlot() returns (r: Slot)
      requires Valid()
      modifies this, meta, bitmap
      ensures Valid()
      ensures r == if AllocIndex(old(s)) == old(s.N()) then NoSlot else Some(AllocIndex(old(s)))
      ensures s == if r.NoSlot? then old(s) else Alloc(old(s), r.index)
    {
      var start := next;
      var i := FindFree(start, meta.Length);
      if i == meta.Length {
        i := FindFree(0, start);
        if i == start { return NoSlot; }
      }
      Take(i);
      return Some(i);
    }

    method Take(i: nat)
      requires Valid() && i < s.N() && !s.occ[i]
      modifies this, meta, bitmap
      ensures Valid() && s == Alloc(old(s), i)
    {
      FreeSlotIsIsolated(s, i);
      AllocForest(s, i);
      ghost var m, b := meta[..], bitmap[..];
      AllocLinked(m, s, i);
      SetBitmap(b, s.occ, i);
      bitmap[i / 64] := Or(bitmap[i / 64], Pow2(i % 64));
      meta[i] := OCCUPIED_META;
      next := i + 1;
      s := Alloc(s, i);
      assert meta[..] == m[i := OCCUPIED_META];
      assert bitmap[..] == SetBit(b, i);
    }

    method FreeSlot(x: nat)
      requires Represents() && (x < s.N() ==> Isolated(s, x))
      modifies this, meta, bitmap
      ensures Represents()
      ensures s == if x < old(s.N()) then Free(old(s), x) else old(s)
    {
      hide Linked, Isolated, And, Not, Pow2, BitOf;
      if x >= meta.Length { return; }
      ghost var m, b := meta[..], bitmap[..];
      FreeLinked(m, s, x);
      ClearBitmap(b, s.occ, x);
      Pow2Less(x % 64, WORD);
      bitmap[x / 64] := And(bitmap[x / 64], Not(Pow2(x % 64), WORD));
      meta[x] := FREE_META;
      if x < next { next := x; }
      s := Free(s, x);
      assert meta[..] == m[x := FREE_META];
      assert bitmap[..] == ClearBit(b, x);
    }

    // ---- the derivation tree ----------------------------------------------

    method InsertChild(p: nat, c: nat)
      requires Represents() && Tree(s) && s.Live(p) && s.Live(c) && p != c && s.parent[c] == NONE && s.kids[c] == []
      modifies this`s, meta
      ensures Represents() && s == CapState.InsertChild(old(s), p, c)
    {
      ghost var m := meta[..];
      InsertLinked(m, s, p, c);
      meta[c] := meta[c].(parent := p);
      var head := meta[p].first;
      meta[c] := meta[c].(next := head, prev := NONE);
      if head != NONE {
        meta[head] := meta[head].(prev := c);
      }
      meta[p] := meta[p].(first := c);
      assert meta[..] == InsertLinks(m, p, c);
      s := CapState.InsertChild(s, p, c);
    }

    method Remove(x: nat)
      requires Represents() && Tree(s) && x < s.N() && s.kids[x] == []
      modifies this`s, meta
      ensures Represents() && s == Unlink(old(s), x)
    {
      hide Linked, Tree, Bitmap, Unlink;
      ghost var m := meta[..];
      UnlinkLinked(m, s, x);
      var parent, prev, nxt := meta[x].parent, meta[x].prev, meta[x].next;
      if prev != NONE {
        meta[prev] := meta[prev].(next := nxt);
      } else if parent != NONE {
        meta[parent] := meta[parent].(first := nxt);
      }
      if nxt != NONE {
        meta[nxt] := meta[nxt].(prev := prev);
      }
      meta[x] := meta[x].(parent := NONE, first := NONE, next := NONE, prev := NONE);
      assert meta[..] == UnlinkLinks(m, x);
      s := Unlink(s, x);
    }

    // ---- untyped child lists ----------------------------------------------

    method AddUtChild(u: nat, c: nat)
      requires Represents() && UtOwned(s) && s.Live(u) && s.Live(c) && u != c && s.utParent[c] == NONE
      modifies this`s, meta
      ensures Represents() && s == CapState.AddUtChild(old(s), u, c)
    {
      ghost var m := meta[..];
      AddUtLinked(m, s, u, c);
      meta[c] := meta[c].(utNext := meta[u].utFirst, utParent := u);
      meta[u] := meta[u].(utFirst := c);
      assert meta[..] == AddUtLinks(m, u, c);
      s := CapState.AddUtChild(s, u, c);
    }

    /** Walk u's list for x and splice it out; no effect when x is not on it. */
    method RemoveUtChild(u: nat, x: nat)
      requires Represents() && UtOwned(s) && u < s.N() && x < s.N() && u != x
      modifies this`s, meta
      ensures Represents() && s == CapState.RemoveUtChild(old(s), u, x)
    {
      hide Linked, UtOwned, Bitmap, CapState.RemoveUtChild;
      var prev, current := NONE, meta[u].utFirst;
      ghost var q, k := s.ut[u], 0;
      UtThread(meta[..], s, u);
      while current != NONE && current != x
        invariant 0 <= k <= |q|
        invariant current == Elem(q, k) && prev == Elem(q, k - 1) && x !in q[..k]
        decreases |q| - k
      {
        assert current == q[k];
        prev, current, k := current, meta[current].utNext, k + 1;
      }
      if current == x {
        SpliceUt(u, x, prev, k);
      } else {
        assert q[..k] == q;
        NotListed(s, u, x);
      }
    }

    method SpliceUt(u: nat, x: nat, prev: nat, ghost k: nat)
      requires Represents() && UtOwned(s) && u < s.N() && u != x < s.N() && k < |s.ut[u]| && s.ut[u][k] == x
      requires prev == Elem(s.ut[u], k - 1)
      modifies this`s, meta
      ensures Represents() && s == CapState.RemoveUtChild(old(s), u, x)
    {
      hide Linked, UtOwned, Bitmap, CapState.RemoveUtChild;
      ghost var m := meta[..];
      RemoveUtLinked(m, s, u, x, k);
      var nxt := meta[x].utNext;
      if prev == NONE {
        meta[u] := meta[u].(utFirst := nxt);
      } else {
        meta[prev] := meta[prev].(utNext := nxt);
      }
      meta[x] := meta[x].(utNext := NONE, utParent := NONE);
      assert meta[..] == RemoveUtLinks(m, u, x, prev);
      s := CapState.RemoveUtChild(s, u, x);
    }

    // ---- deletion and revocation ------------------------------------------

    method ReleaseObject(o: Obj, kind: ObjectType)
      requires Represents()
      modifies this`refs, this`log, this`s
      ensures Represents() && s == Release(old(s), o, kind)
    {
      ghost var t := Release(s, o, kind);
      if o.NoObject? { return; }
      var count := if o in refs then refs[o] else 0;
      refs := refs[o := (count + U32 - 1) % U32];
      if count == 1 {
        if kind.Tcb? && o in held {
          log := log + [DestroyDeferred(o)];
          s := t;
          return;
        }
        log := log + [Destroyed(o)];
      }
      s := t;
    }

    /** Take a childless slot off its two lists. */
    method DetachSlot(x: nat)
      requires Valid() && x < s.N() && s.kids[x] == []
      modifies this`s, meta
      ensures Represents() && s == Detach(old(s), x)
    {
      ghost var s0 := s;
      OwnedWhenListed(s);
      Remove(x);
      assert UtOwned(s);
      var u := meta[x].utParent;
      if u != NONE { RemoveUtChild(u, x); }
    }

    /** The shared tail of both delete paths, for a slot without children. */
    method DeleteLeaf(x: nat)
      requires Valid() && x < s.N() && s.kids[x] == []
      modifies this, meta, caps, bitmap
      ensures Valid() && s == CapState.DeleteLeaf(old(s), x)
    {
      hide Linked, Bitmap, Forest, Detach, CapState.Unlink, CapState.RemoveUtChild, Without, CapState.DeleteLeaf;
      ghost var s0 := s;
      DetachedIsolated(s, x);
      DeleteKeepsForest(s, x);
      DeleteSteps(s, x);
      DetachSlot(x);
      var c := caps[x];
      if !c.obj.NoObject? { ReleaseObject(c.obj, c.kind); }
      caps[x] := NULL_CAP;
      LinkedFrame(meta[..], s, SetCap(s, x, NULL_CAP));
      s := SetCap(s, x, NULL_CAP);
      FreeSlot(x);
    }

    /** Delete one capability; a slot that is already free is left alone. */
    method DeleteCapability(x: nat)
      requires Valid() && x < s.N() && (s.occ[x] ==> s.kids[x] == [])
      modifies this, meta, caps, bitmap
      ensures Valid() && s == if old(s.occ[x]) then CapState.DeleteLeaf(old(s), x) else old(s)
    {
      hide Forest, Bitmap, CapState.DeleteLeaf;
      if !meta[x].occupied { return; }
      DeleteLeaf(x);
    }

    /** Depth-first: revoke the first child until there is none, then delete. */
    method RevokeSlot(x: nat)
      requires Valid() && x < s.N()
      modifies this, meta, caps, bitmap
      ensures Valid() && s == CapOps.RevokeSlot(old(s), x).state
      decreases Subtree(s, x)
    {
      ghost var s0 := s;
      while meta[x].first != NONE
        invariant Valid() && s.N() == s0.N() && s.occ[x] == s0.occ[x]
        invariant s0.occ[x] ==> Subtree(s, x) <= Subtree(s0, x) && Revoke(s, x) == Revoke(s0, x)
        invariant !s0.occ[x] ==> s == s0
        decreases Subtree(s, x)
      {
        ghost var t := s;
        assert Threaded(meta[..], x, s.kids[x]);
        if !s.occ[x] { FreeSlotIsIsolated(s, x); }
        FirstChild(s, x);
        var child := meta[x].first;
        RevokeSlot(child);
        AfterFirstChild(t, x, s);
      }
      assert Threaded(meta[..], x, s.kids[x]);
      FirstIsMember(s.kids[x]);
      DeleteCapability(x);
    }

    // ---- derivation -------------------------------------------------------

    method IncrementRefCount(o: Obj)
      requires Represents()
      modifies this`refs, this`s
      ensures Represents() && s == Retain(old(s), o)
    {
      ghost var t := Retain(s, o);
      if o.NoObject? { return; }
      refs := refs[o := ((if o in refs then refs[o] else 0) + 1) % U32];
      s := t;
    }

    /** Write capability c into fresh slot d as a child of src. */
    method DeriveInto(src: nat, d: nat, c: Cap, ghost how: Origin, ghost s0: State)
      requires Represents() && s0.Shape() && Forest(s0) && s0.Live(src) && d < s0.N() && !s0.occ[d] && s == Alloc(s0, d)
      modifies this`s, this`refs, meta, caps
      ensures Valid() && s == Derive(s0, src, d, c, how)
    {
      hide Linked, Bitmap, Forest, Tree;
      DeriveSteps(s0, src, d, c, how);
      caps[d] := c;
      LinkedFrame(meta[..], s, Filled(s0, src, d, c, how));
      s := Filled(s0, src, d, c, how);
      InsertChild(src, d);
      if !c.obj.NoObject? { IncrementRefCount(c.obj); }
    }

    method CopyInto(src: nat, rights: Rights, d: nat, ghost s0: State) returns (st: Status)
      requires Represents() && s0.Shape() && Forest(s0) && src < s0.N()
      requires d == AllocIndex(s0) < s0.N() && s == Alloc(s0, d)
      modifies this`s, this`refs, meta, caps
      ensures Represents() && st == Copy(s0, src, rights).status
      ensures if st.Ok? then Valid() && s == Copy(s0, src, rights).state else s == Alloc(s0, d)
    {
      hide Linked, Bitmap, Forest, Derive, AllocIndex;
      var c := caps[src];
      if !Contains(c.rights, GRANT) { return Err(InsufficientRights); }
      if !Contains(c.rights, rights) { return Err(RightsNotSubset); }
      if c.depth >= MAX_DERIVATION_DEPTH { return Err(DepthExceeded); }
      GrantsAreLive(s0, src);
      DeriveInto(src, d, c.(rights := rights, depth := c.depth + 1), Copied, s0);
      st := Ok;
    }

    method MintInto(src: nat, badge: nat, rights: Rights, d: nat, ghost s0: State) returns (st: Status)
      requires Represents() && s0.Shape() && Forest(s0) && src < s0.N()
      requires d == AllocIndex(s0) < s0.N() && s == Alloc(s0, d)
      modifies this`s, this`refs, meta, caps
      ensures Represents() && st == Mint(s0, src, badge, rights).status
      ensures if st.Ok? then Valid() && s == Mint(s0, src, badge, rights).state else s == Alloc(s0, d)
    {
      hide Linked, Bitmap, Forest, Derive, AllocIndex;
      var c := caps[src];
      if !c.kind.Endpoint? && !c.kind.Notification? { return Err(InvalidOperation); }
      if !Contains(c.rights, GRANT) { return Err(InsufficientRights); }
      if Contains(rights, GRANT) { return Err(InvalidBadge); }
      if c.depth >= MAX_DERIVATION_DEPTH { return Err(DepthExceeded); }
      GrantsAreLive(s0, src);
      DeriveInto(src, d, c.(rights := rights, badge := badge, depth := c.depth + 1), Minted, s0);
      st := Ok;
    }

    /** Give back a slot whose derivation was refused. */
    method Abandon(d: nat, ghost s0: State)
      requires Represents() && Forest(s0) && d < s0.N() && !s0.occ[d] && s == Alloc(s0, d)
      modifies this, meta, bitmap
      ensures Valid() && s == TakeAndFree(s0, d)
    {
      AbandonSteps(s0, d);
      FreeSlot(d);
    }

    // ---- operations through CNode slots -----------------------------------

    method CopySlot(dest: array<nat>, di: nat, src: array<nat>, si: nat, rights: Rights) returns (st: Status)
      requires Valid() && dest != bitmap && src != bitmap && RefsInRange(src[..], s.N())
      modifies this, meta, caps, bitmap, dest
      ensures Valid()
      ensures var pre := TransferCheck(old(dest[..]), di, old(src[..]), si);
        if pre.Err? then st == pre && s == old(s) && dest[..] == old(dest[..])
        else
          && Outcome(s, st) == Copy(old(s), old(src[si]), rights)
          && dest[..] == if st.Ok? then old(dest[..])[di := AllocIndex(old(s))] else old(dest[..])
    {
      hide Linked, Bitmap, Forest;
      ghost var s0 := s;
      if di >= dest.Length || si >= src.Length { return Err(InvalidSlot); }
      if dest[di] != NONE { return Err(SlotOccupied); }
      var ref := src[si];
      if ref == NONE { return Err(SlotEmpty); }
      if !Contains(caps[ref].rights, GRANT) { return Err(InsufficientRights); }
      var slot := AllocSlot();
      if slot.NoSlot? { return Err(OutOfSlots); }
      st := CopyInto(ref, rights, slot.index, s0);
      if st.Err? {
        Abandon(slot.index, s0);
        return;
      }
      dest[di] := slot.index;
    }

    method MintSlot(dest: array<nat>, di: nat, src: array<nat>, si: nat, badge: nat, rights: Rights)
        returns (st: Status)
      requires Valid() && dest != bitmap && src != bitmap && RefsInRange(src[..], s.N())
      modifies this, meta, caps, bitmap, dest
      ensures Valid()
      ensures var pre := TransferCheck(old(dest[..]), di, old(src[..]), si);
        if pre.Err? then st == pre && s == old(s) && dest[..] == old(dest[..])
        else
          && Outcome(s, st) == Mint(old(s), old(src[si]), badge, rights)
          && dest[..] == if st.Ok? then old(dest[..])[di := AllocIndex(old(s))] else old(dest[..])
    {
      hide Linked, Bitmap, Forest;
      ghost var s0 := s;
      if di >= dest.Length || si >= src.Length { return Err(InvalidSlot); }
      if dest[di] != NONE { return Err(SlotOccupied); }
      var ref := src[si];
      if ref == NONE { return Err(SlotEmpty); }
      var slot := AllocSlot();
      if slot.NoSlot? { return Err(OutOfSlots); }
      st := MintInto(ref, badge, rights, slot.index, s0);
      if st.Err? {
        Abandon(slot.index, s0);
        return;
      }
      dest[di] := slot.index;
    }

    method DeleteSlot(node: array<nat>, i: nat) returns (st: Status)
      requires Valid() && node != bitmap && RefsInRange(node[..], s.N())
      modifies this, meta, caps, bitmap, node
      ensures Valid()
      ensures var pre := SlotCheck(old(node[..]), i);
        if pre.Err? then st == pre && s == old(s) && node[..] == old(node[..])
        else
          && Outcome(s, st) == Delete(old(s), old(node[i]))
          && node[..] == if st.Ok? then old(node[..])[i := NONE] else old(node[..])
    {
      if i >= node.Length { return Err(InvalidSlot); }
      var ref := node[i];
      if ref == NONE { return Err(SlotEmpty); }
      assert Threaded(meta[..], ref, s.kids[ref]);
      FirstIsMember(s.kids[ref]);
      if meta[ref].first != NONE { return Err(HasChildren); }
      DeleteLeaf(ref);
      node[i] := NONE;
      st := Ok;
    }

    /** Only the index revoke was called on is cleared. */
    method RevokeIndex(node: array<nat>, i: nat) returns (st: Status)
      requires Valid() && node != bitmap && RefsInRange(node[..], s.N())
      modifies this, meta, caps, bitmap, node
      ensures Valid()
      ensures var pre := SlotCheck(old(node[..]), i);
        if pre.Err? then st == pre && s == old(s) && node[..] == old(node[..])
        else Outcome(s, st) == CapOps.RevokeSlot(old(s), old(node[i])) && node[..] == old(node[..])[i := NONE]
    {
      if i >= node.Length { return Err(InvalidSlot); }
      var ref := node[i];
      if ref == NONE { return Err(SlotEmpty); }
      RevokeSlot(ref);
      node[i] := NONE;
      st := Ok;
    }

    // ---- untyped memory ---------------------------------------------------

    method Reset(u: nat) returns (st: Status)
      requires Valid() && u < s.N()
      modifies this`regions, this`s
      ensures Valid() && Outcome(s, st) == CapOps.Reset(old(s), u)
    {
      var c := caps[u];
      if !c.kind.Untyped? || c.obj !in regions { return Err(InvalidCapability); }
      if !Contains(c.rights, RETYPE) { return Err(InsufficientRights); }
      assert UtThreaded(meta[..], u, s.ut[u]);
      FirstIsMember(s.ut[u]);
      if meta[u].utFirst != NONE { return Err(HasChildren); }
      regions := regions[c.obj := regions[c.obj].(watermark := 0)];
      ghost var t := SetRegion(s, c.obj, s.regions[c.obj].(watermark := 0));
      ForestIgnoresHistory(s, t);
      LinkedFrame(meta[..], s, t);
      s := t;
      st := Ok;
    }

    /** Header, capability and links of one carved object, in fresh slot d. */
    method CreateObject(u: nat, d: nat, kind: ObjectType, bits: nat, device: bool, addr: nat, size: nat,
        ghost s0: State)
      requires Represents() && s0.Shape() && Forest(s0) && s0.Live(u) && d < s0.N() && !s0.occ[d] && s == Alloc(s0, d)
      modifies this`s, this`refs, this`regions, this`log, meta, caps
      ensures Valid() && s == CreateOne(s0, u, d, kind, bits, device, addr, size)
    {
      hide Linked, Bitmap, Forest, Tree, UtOwned;
      CreateSteps(s0, u, d, kind, bits, device, addr, size);
      var o := NewObject(kind, d, addr);
      refs := refs[o := 1];
      log := log + [Created(o)];
      if kind.Untyped? { regions := regions[o := Region(addr, bits, 0, device)]; }
      caps[d] := Cap(o, 0, ALL_RIGHTS, kind, 0);
      LinkedFrame(meta[..], s, Carved(s0, d, kind, bits, device, addr, size));
      s := Carved(s0, d, kind, bits, device, addr, size);
      InsertChild(u, d);
      AddUtChild(u, d);
    }

    method RangeEmpty(dest: array<nat>, off: nat, num: nat) returns (empty: bool)
      requires off + num <= dest.Length
      ensures empty <==> forall i :: off <= i < off + num ==> dest[i] == NONE
    {
      for i := 0 to num
        invariant forall j :: off <= j < off + i ==> dest[j] == NONE
      {
        if dest[off + i] != NONE { return false; }
      }
      return true;
    }

    /** One turn of the allocation loop. */
    method CreateNext(u: nat, kind: ObjectType, bits: nat, device: bool, addr: nat, size: nat)
        returns (d: nat, st: Status)
      requires Valid() && s.Live(u)
      modifies this, meta, caps, bitmap
      ensures Valid() && s.N() == old(s.N())
      ensures d == AllocIndex(old(s))
      ensures if d == s.N() then st == Err(OutOfSlots) && s == old(s)
              else if kind.Null? then st == Err(InvalidOperation) && s == TakeAndFree(old(s), d)
              else st == Ok && s == CreateOne(old(s), u, d, kind, bits, device, addr, size)
    {
      hide Linked, Bitmap, Forest, TakeAndFree, AllocIndex;
      ghost var s0 := s;
      var slot := AllocSlot();
      if slot.NoSlot? { return meta.Length, Err(OutOfSlots); }
      d := slot.index;
      if kind.Null? {
        KeepsSize(s0, u, d, kind, bits, device, addr, size);
        Abandon(d, s0);
        return d, Err(InvalidOperation);
      }
      KeepsSize(s0, u, d, kind, bits, device, addr, size);
      CreateObject(u, d, kind, bits, device, addr, size, s0);
      st := Ok;
    }

    /** The allocation loop, filling num empty CNode entries from off. */
    method CarveLoop(u: nat, kind: ObjectType, bits: nat, device: bool, base: nat, size: nat, num: nat,
                     dest: array<nat>, off: nat) returns (st: Status)
      requires Valid() && s.Live(u) && dest != bitmap && off + num <= dest.Length
      modifies this, meta, caps, bitmap, dest
      ensures Valid() && s.N() == old(s.N())
      ensures Outcome(s, st) == CreateMany(old(s), u, kind, bits, device, base, size, num)
      ensures dest[..] == Placed(old(dest[..]), off, CreatedSlots(old(s), u, kind, bits, device, base, size, num))
    {
      hide Linked, Bitmap, Forest, CreateOne, CreateMany, CreatedSlots, TakeAndFree, AllocIndex, Progress, Placed;
      ghost var s0, d0 := s, dest[..];
      ghost var made: seq<nat> := [];
      var addr: nat, i: nat := base, 0;
      ProgressStart(s, u, kind, bits, device, base, size, num, d0, off);
      while i < num
        invariant i <= num && Valid() && s.Live(u) && s.N() == s0.N() && |made| == i
        invariant Progress(s0, u, kind, bits, device, base, size, num, s, addr, made)
        invariant dest[..] == Placed(d0, off, made)
      {
        ghost var s1 := s;
        var d, turn := CreateNext(u, kind, bits, device, addr, size);
        ProgressTurn(s0, u, kind, bits, device, base, size, num, s1, addr, made, d, s, turn);
        if turn.Err? { return turn; }
        PlacedNext(d0, off, made, d);
        dest[off + i] := d;
        made := made + [d];
        addr, i := addr + size, i + 1;
      }
      ProgressEnd(s0, u, kind, bits, device, base, size, num, s, addr, made);
      st := Ok;
    }

    method SetWatermark(o: Obj, w: nat)
      requires Valid() && o in regions
      modifies this`regions, this`s
      ensures Valid() && s == SetRegion(old(s), o, old(s.regions[o]).(watermark := w))
    {
      ghost var t := SetRegion(s, o, s.regions[o].(watermark := w));
      ForestIgnoresHistory(s, t);
      LinkedFrame(meta[..], s, t);
      regions := regions[o := regions[o].(watermark := w)];
      s := t;
    }

    /** Carve from the current watermark of o and, on success, move it. */
    method CarveFrom(u: nat, o: Obj, kind: ObjectType, bits: nat, size: nat, num: nat, total: nat, dest: array<nat>,
        off: nat)
        returns (st: Status, ghost made: seq<nat>)
      requires Valid() && s.Live(u) && s.cap[u].obj == o && o in s.regions && (o.UntypedAt? ==> s.Live(o.slot))
      requires dest != bitmap && off + num <= dest.Length
      modifies this, meta, caps, bitmap, dest
      ensures Valid() && Outcome(s, st) == Carve(old(s), u, o, kind, bits, size, num, total)
      ensures |made| <= num && dest[..] == Placed(old(dest[..]), off, made) && FreshSlots(old(s), made)
      ensures st.Ok? ==> |made| == num
    {
      hide Linked, Bitmap, Forest, CreateMany, CreatedSlots, Placed;
      ghost var s0 := s;
      var r := regions[o];
      made := CreatedSlots(s, u, kind, bits, r.device, r.phys + r.watermark, size, num);
      MadeFresh(s, u, kind, bits, r.device, r.phys + r.watermark, size, num);
      st := CarveLoop(u, kind, bits, r.device, r.phys + r.watermark, size, num, dest, off);
      if st.Ok? {
        if !kind.Null? {
          LoopKeepsRegion(s0, u, kind, bits, r.device, r.phys + r.watermark, size, num, s, o);
        } else {
          NullLoop(s0, u, kind, bits, r.device, r.phys + r.watermark, size, num);
        }
        SetWatermark(o, (r.watermark + total) % U64);
      }
    }

    method AlignAndCarve(u: nat, o: Obj, kind: ObjectType, bits: nat, size: nat, num: nat, total: nat,
        dest: array<nat>, off: nat)
        returns (st: Status, ghost made: seq<nat>)
      requires Valid() && s.Live(u) && s.cap[u].obj == o && o in s.regions && (o.UntypedAt? ==> s.Live(o.slot))
        && size > 0
      requires dest != bitmap && off + num <= dest.Length
      modifies this, meta, caps, bitmap, dest
      ensures Valid() && Outcome(s, st) == CapOps.AlignAndCarve(old(s), u, o, kind, bits, size, num, total)
      ensures |made| <= num && dest[..] == Placed(old(dest[..]), off, made) && FreshSlots(old(s), made)
      ensures st.Ok? ==> |made| == num
    {
      hide Linked, Bitmap, Forest, Carve, Placed, AlignUp, Pow2;
      made := [];
      PlacedNothing(dest[..], off);
      var r, align := regions[o], Alignment(kind, size);
      if r.watermark + (align - 1) >= U64 { return Err(InsufficientMemory), made; }
      var aligned := AlignUp(r.watermark, align);
      if aligned > r.Size() { return Err(InsufficientMemory), made; }
      SetWatermark(o, aligned);
      if regions[o].Available() < total { return Err(InsufficientMemory), made; }
      st, made := CarveFrom(u, o, kind, bits, size, num, total, dest, off);
    }

    /** Carve num objects into CNode entries off, off+1, ... of dest. */
    method Retype(u: nat, kind: ObjectType, bits: nat, num: nat, dest: array<nat>, off: nat)
        returns (st: Status, ghost made: seq<nat>)
      requires Valid() && WellFormed(s) && u < s.N() && dest != bitmap
      modifies this, meta, caps, bitmap, dest
      ensures Valid()
      ensures Outcome(s, st) == CapOps.Retype(old(s), u, kind, bits, num, DestState(old(dest[..]), off, num))
      ensures off + |made| <= dest.Length || made == []
      ensures dest[..] == if made == [] then old(dest[..]) else Placed(old(dest[..]), off, made)
      ensures FreshSlots(old(s), made) && (st.Ok? ==> |made| == num)
    {
      hide Linked, Bitmap, Forest, WellFormed, Carve, Placed, ObjectSize, CapOps.AlignAndCarve, Pow2;
      made := [];
      var c := caps[u];
      if !c.kind.Untyped? || c.obj !in regions { return Err(InvalidCapability), made; }
      if !Contains(c.rights, RETYPE) { return Err(InsufficientRights), made; }
      UntypedIsLive(s, u);
      var r, sz := regions[c.obj], ObjectSize(layout, kind, bits);
      if r.device && !kind.Frame? && !kind.Untyped? { return Err(InvalidOperation), made; }
      if sz.BadSize? { return Err(sz.error), made; }
      var total := Bytes(sz.bytes, num) % U64;
      if off + num > dest.Length { return Err(InvalidSlot), made; }
      if r.Available() < total { return Err(InsufficientMemory), made; }
      var empty := RangeEmpty(dest, off, num);
      if !empty { return Err(SlotOccupied), made; }
      if sz.bytes == 0 {
        st, made := CarveFrom(u, c.obj, kind, bits, 0, num, 0, dest, off);
      } else {
        st, made := AlignAndCarve(u, c.obj, kind, bits, sz.bytes, num, total, dest, off);
      }
      PlacedNothing(old(dest[..]), off);
    }

    // ---- queries ----------------------------------------------------------

    method ChildCount(x: nat) returns (count: nat)
      requires Valid() && x < s.N()
      ensures count == |s.kids[x]|
    {
      ghost var q := s.kids[x];
      assert Threaded(meta[..], x, q);
      count := 0;
      var current := meta[x].first;
      while current != NONE
        invariant count <= |q| && current == Elem(q, count)
        decreases |q| - count
      {
        assert current == q[count];
        count := count + 1;
        current := meta[current].next;
      }
      NoneIsNoMember(meta[..], x, q);
    }

    /** How many slots revoking x would free besides x. */
    method DescendantCount(x: nat) returns (count: nat)
      requires Valid() && s.Live(x)
      ensures count == |Subtree(s, x)| - 1
      decreases Subtree(s, x)
    {
      hide Linked, Forest, Bitmap, Subtree, BelowChildren;
      ghost var q, k := s.kids[x], 0;
      ChildThread(meta[..], s, x);
      count := 0;
      var child := meta[x].first;
      while child != NONE
        invariant k <= |q| && child == Elem(q, k) && count == |BelowChildren(s, x, k)|
        decreases |q| - k
      {
        assert child == q[k];
        ChildSmaller(s, x, k);
        BelowNext(s, x, k);
        var below := DescendantCount(child);
        count := count + 1 + below;
        k := k + 1;
        child := meta[child].next;
      }
    }

    method AllocatedCount() returns (count: nat)
      requires Valid()
      ensures count == |set x | 0 <= x < s.N() && s.occ[x]|
    {
      count := 0;
      for i := 0 to bitmap.Length
        invariant count == |SetBelow(bitmap[..], 64 * i)|
      {
        WordOnes(bitmap[..], i);
        count := count + CountOnes(bitmap[i]);
      }
      ghost var b := bitmap[..];
      forall x | 0 <= x < 64 * |b|
        ensures BitOf(b, x) <==> x < s.N() && s.occ[x]
      {
      }
      assert SetBelow(b, 64 * |b|) == set x | 0 <= x < s.N() && s.occ[x];
    }
  }

  /** The fresh slot once its capability and history are written. */
  ghost function Filled(s0: State, src: nat, d: nat, c: Cap, how: Origin): State
    requires s0.Shape() && src < s0.N() && d < s0.N()
  {
    var s1 := SetCap(Alloc(s0, d), d, c);
    s1.(origin := s1.origin[d := how], home := s1.home[d := s0.home[src]])
  }

  lemma UtThread(m: seq<Meta>, s: State, u: nat)
    requires Linked(m, s) && u < s.N()
    ensures UtThreaded(m, u, s.ut[u])
  {
  }

  lemma NotListed(s: State, u: nat, x: nat)
    requires s.Shape() && u < s.N() && x < s.N() && x !in s.ut[u]
    ensures CapState.RemoveUtChild(s, u, x) == s
  {
  }

  lemma DeriveSteps(s0: State, src: nat, d: nat, c: Cap, how: Origin)
    requires Forest(s0) && s0.Live(src) && d < s0.N() && !s0.occ[d]
    ensures
      var t := Filled(s0, src, d, c, how);
      && t.Shape() && Tree(t) && t.Live(src) && t.Live(d) && t.parent[d] == NONE && t.kids[d] == []
      && Derive(s0, src, d, c, how) == Retain(CapState.InsertChild(t, src, d), c.obj)
      && Forest(Derive(s0, src, d, c, how))
  {
    FillForest(s0, d, c);
    ForestIgnoresHistory(SetCap(Alloc(s0, d), d, c), Filled(s0, src, d, c, how));
    DeriveForest(s0, src, d, c, how);
  }

  /** The fresh slot once object header, capability and history are written. */
  ghost function Carved(s0: State, d: nat, kind: ObjectType, bits: nat, device: bool, addr: nat, size: nat): State
    requires s0.Shape() && d < s0.N()
  {
    var o := NewObject(kind, d, addr);
    var s1 := SetCap(Alloc(s0, d), d, Cap(o, 0, ALL_RIGHTS, kind, 0));
    s1.(origin := s1.origin[d := Retyped], span := s1.span[d := Span(addr, size)],
        refs := s1.refs[o := 1], log := s1.log + [Created(o)],
        regions := if kind.Untyped? then s1.regions[o := Region(addr, bits, 0, device)] else s1.regions)
  }

  lemma CreateSteps(s0: State, u: nat, d: nat, kind: ObjectType, bits: nat, device: bool, addr: nat, size: nat)
    requires Forest(s0) && s0.Live(u) && d < s0.N() && !s0.occ[d]
    ensures
      var t := Carved(s0, d, kind, bits, device, addr, size);
      var t1 := CapState.InsertChild(t, u, d);
      && t.Shape() && Tree(t) && t.Live(u) && t.Live(d) && t.parent[d] == NONE && t.kids[d] == []
      && UtOwned(t1) && t1.Live(u) && t1.Live(d) && t1.utParent[d] == NONE
      && CreateOne(s0, u, d, kind, bits, device, addr, size) == CapState.AddUtChild(t1, u, d)
      && Forest(CreateOne(s0, u, d, kind, bits, device, addr, size))
  {
    var t := Carved(s0, d, kind, bits, device, addr, size);
    FillForest(s0, d, t.cap[d]);
    ForestIgnoresHistory(SetCap(Alloc(s0, d), d, t.cap[d]), t);
    InsertChildForest(t, u, d);
    OwnedWhenListed(CapState.InsertChild(t, u, d));
    CreateOneForest(s0, u, d, kind, bits, device, addr, size);
  }

  /** d with the slots made written from offset off on. */
  function Placed(d: seq<nat>, off: nat, made: seq<nat>): seq<nat>
    requires off + |made| <= |d|
  {
    d[..off] + made + d[off + |made|..]
  }

  lemma PlacedNext(d: seq<nat>, off: nat, made: seq<nat>, x: nat)
    requires off + |made| < |d|
    ensures Placed(d, off, made)[off + |made| := x] == Placed(d, off, made + [x])
  {
  }

  lemma KeepsSize(s: State, u: nat, d: nat, kind: ObjectType, bits: nat, device: bool, addr: nat, size: nat)
    requires s.Shape() && u < s.N() && d < s.N()
    ensures TakeAndFree(s, d).N() == s.N() && CreateOne(s, u, d, kind, bits, device, addr, size).N() == s.N()
  {
  }

  /** What the loop started with is what it made so far plus what is left. */
  ghost predicate Progress(s0: State, u: nat, kind: ObjectType, bits: nat, device: bool, base: nat, size: nat, num: nat,
                           s: State, addr: nat, made: seq<nat>)
    requires s0.Shape() && u < s0.N() && s.Shape() && u < s.N() && |made| <= num
  {
    && CreateMany(s0, u, kind, bits, device, base, size, num)
         == CreateMany(s, u, kind, bits, device, addr, size, num - |made|)
    && CreatedSlots(s0, u, kind, bits, device, base, size, num)
         == made + CreatedSlots(s, u, kind, bits, device, addr, size, num - |made|)
  }

  lemma ProgressStart(s: State, u: nat, kind: ObjectType, bits: nat, device: bool, base: nat, size: nat, num: nat,
                      d: seq<nat>, off: nat)
    requires s.Shape() && u < s.N() && off <= |d|
    ensures Progress(s, u, kind, bits, device, base, size, num, s, base, []) && Placed(d, off, []) == d
  {
    hide CreateMany, CreatedSlots;
  }

  lemma ProgressEnd(s0: State, u: nat, kind: ObjectType, bits: nat, device: bool, base: nat, size: nat, num: nat,
                    s: State, addr: nat, made: seq<nat>)
    requires s0.Shape() && u < s0.N() && s.Shape() && u < s.N() && |made| == num
    requires Progress(s0, u, kind, bits, device, base, size, num, s, addr, made)
    ensures CreateMany(s0, u, kind, bits, device, base, size, num) == Outcome(s, Ok)
    ensures CreatedSlots(s0, u, kind, bits, device, base, size, num) == made
  {
    hide CreateMany, CreatedSlots;
    LoopEnds(s, u, kind, bits, device, addr, size);
  }

  lemma ProgressTurn(s0: State, u: nat, kind: ObjectType, bits: nat, device: bool, base: nat, size: nat, num: nat,
                     s1: State, addr: nat, made: seq<nat>, d: nat, s: State, turn: Status)
    requires s0.Shape() && u < s0.N() && s1.Shape() && s1.Live(u) && |made| < num && d == AllocIndex(s1)
    requires Progress(s0, u, kind, bits, device, base, size, num, s1, addr, made)
    requires if d == s1.N() then turn == Err(OutOfSlots) && s == s1
             else if kind.Null? then turn == Err(InvalidOperation) && s == TakeAndFree(s1, d)
             else turn == Ok && s == CreateOne(s1, u, d, kind, bits, device, addr, size)
    ensures turn.Err? ==> CreateMany(s0, u, kind, bits, device, base, size, num) == Outcome(s, turn)
    ensures turn.Err? ==> CreatedSlots(s0, u, kind, bits, device, base, size, num) == made
    ensures turn.Ok? ==> s.Shape() && s.Live(u) && s.N() == s1.N() &&
                         Progress(s0, u, kind, bits, device, base, size, num, s, addr + size, made + [d])
  {
    hide CreateMany, CreatedSlots, AllocIndex, CreateOne, TakeAndFree;
    LoopTurn(s1, u, kind, bits, device, addr, size, num - |made|);
    if turn.Ok? {
      ghost var rest := CreatedSlots(s, u, kind, bits, device, addr + size, size, num - |made| - 1);
      assert made + ([d] + rest) == (made + [d]) + rest;
    }
  }

  lemma LoopTurn(s: State, u: nat, kind: ObjectType, bits: nat, device: bool, addr: nat, size: nat, num: nat)
    requires s.Shape() && s.Live(u) && num > 0
    ensures
      var d := AllocIndex(s);
      var all := CreateMany(s, u, kind, bits, device, addr, size, num);
      var made := CreatedSlots(s, u, kind, bits, device, addr, size, num);
      && (d == s.N() ==> all == Outcome(s, Err(OutOfSlots)) && made == [])
      && (d < s.N() && kind.Null? ==> all == Outcome(TakeAndFree(s, d), Err(InvalidOperation)) && made == [])
      && (d < s.N() && !kind.Null? ==>
            var c := CreateOne(s, u, d, kind, bits, device, addr, size);
            && c.Shape() && c.Live(u) && c.N() == s.N()
            && all == CreateMany(c, u, kind, bits, device, addr + size, size, num - 1)
            && made == [d] + CreatedSlots(c, u, kind, bits, device, addr + size, size, num - 1))
  {
    hide AllocIndex;
  }

  lemma LoopEnds(s: State, u: nat, kind: ObjectType, bits: nat, device: bool, addr: nat, size: nat)
    requires s.Shape() && u < s.N()
    ensures CreateMany(s, u, kind, bits, device, addr, size, 0) == Outcome(s, Ok)
    ensures CreatedSlots(s, u, kind, bits, device, addr, size, 0) == []
  {
    hide AllocIndex;
  }

  /** Slots that were free, none twice. */
  ghost predicate FreshSlots(s: State, made: seq<nat>) {
    Distinct(made) && forall i :: 0 <= i < |made| ==> made[i] < s.N() && !s.occ[made[i]]
  }

  lemma {:induction false} MadeFresh(s: State, u: nat, kind: ObjectType, bits: nat, device: bool, addr: nat, size: nat,
      num: nat)
    requires s.Shape() && u < s.N()
    ensures FreshSlots(s, CreatedSlots(s, u, kind, bits, device, addr, size, num))
    ensures CreateMany(s, u, kind, bits, device, addr, size, num).status.Ok? ==>
              |CreatedSlots(s, u, kind, bits, device, addr, size, num)| == num
    decreases num
  {
    hide AllocIndex, CreateOne;
    var d := AllocIndex(s);
    if num > 0 && d < s.N() && !kind.Null? {
      var c := CreateOne(s, u, d, kind, bits, device, addr, size);
      CreateOneSame(s, u, d, kind, bits, device, addr, size, c);
      MadeFresh(c, u, kind, bits, device, addr + size, size, num - 1);
      var rest := CreatedSlots(c, u, kind, bits, device, addr + size, size, num - 1);
      forall i | 0 <= i < |rest|
        ensures rest[i] != d && rest[i] < s.N() && !s.occ[rest[i]]
      {
        assert !c.occ[rest[i]];
        assert rest[i] != d ==> Same(s, c, rest[i]);
      }
    }
  }

  lemma NullLoop(s: State, u: nat, kind: ObjectType, bits: nat, device: bool, addr: nat, size: nat, num: nat)
    requires s.Shape() && u < s.N() && kind.Null? && CreateMany(s, u, kind, bits, device, addr, size, num).status.Ok?
    ensures CreateMany(s, u, kind, bits, device, addr, size, num).state == s
  {
    hide AllocIndex;
  }

  function DestState(dest: seq<nat>, off: nat, num: nat): Dest {
    if off + num > |dest| then DestOutOfRange
    else if exists i :: off <= i < off + num && dest[i] != NONE then DestOccupied
    else DestOk
  }

  lemma PlacedNothing(d: seq<nat>, off: nat)
    requires off <= |d|
    ensures Placed(d, off, []) == d
  {
  }

  lemma UntypedIsLive(s: State, u: nat)
    requires WellFormed(s) && u < s.N() && s.cap[u].kind.Untyped?
    ensures s.Live(u) && (s.cap[u].obj.UntypedAt? ==> s.Live(s.cap[u].obj.slot))
  {
    if s.cap[u].obj.UntypedAt? { MetadataOwnedBySubtree(s, u); }
  }

  lemma ChildThread(m: seq<Meta>, s: State, x: nat)
    requires Linked(m, s) && Forest(s) && s.Live(x)
    ensures Threaded(m, x, s.kids[x]) && NONE !in s.kids[x] && Tree(s)
    ensures BelowChildren(s, x, 0) == {}
    ensures |Subtree(s, x)| == 1 + |BelowChildren(s, x, |s.kids[x]|)|
  {
    assert Threaded(m, x, s.kids[x]);
    NoneIsNoMember(m, x, s.kids[x]);
    SubtreeSplits(s, x);
  }

  lemma ChildSmaller(s: State, x: nat, k: nat)
    requires Forest(s) && s.Live(x) && k < |s.kids[x]|
    ensures s.Live(s.kids[x][k]) && Subtree(s, s.kids[x][k]) < Subtree(s, x)
    ensures s.kids[x][k] in Subtree(s, s.kids[x][k])
  {
    var c := s.kids[x][k];
    assert c in s.kids[x];
    forall y | y in Subtree(s, c)
      ensures y in Subtree(s, x)
    {
      UnderTrans(s, x, c, y);
    }
    assert x in Subtree(s, x);
    if Under(s, c, x) { UnderRank(s, c, x); }
  }

  /** References held in CNodes are slot indices; they may be stale. */
  predicate RefsInRange(node: seq<nat>, n: nat) {
    forall i :: 0 <= i < |node| ==> node[i] == NONE || node[i] < n
  }

  function SlotCheck(node: seq<nat>, i: nat): Status {
    if i >= |node| then Err(InvalidSlot) else if node[i] == NONE then Err(SlotEmpty) else Ok
  }

  function TransferCheck(dest: seq<nat>, di: nat, src: seq<nat>, si: nat): Status {
    if di >= |dest| || si >= |src| then Err(InvalidSlot)
    else if dest[di] != NONE then Err(SlotOccupied)
    else SlotCheck(src, si)
  }

  lemma GrantsAreLive(s: State, x: nat)
    requires Forest(s) && x < s.N() && Contains(s.cap[x].rights, GRANT)
    ensures s.occ[x]
  {
  }

  lemma AbandonSteps(s0: State, d: nat)
    requires Forest(s0) && d < s0.N() && !s0.occ[d]
    ensures Isolated(Alloc(s0, d), d) && Forest(TakeAndFree(s0, d))
  {
    FreeSlotIsIsolated(s0, d);
    var t := TakeAndFree(s0, d);
    assert t.occ == s0.occ && t.parent == s0.parent && t.kids == s0.kids && t.utParent == s0.utParent && t.ut == s0.ut;
    assert Tree(t) && UtLists(t);
  }

  lemma DeleteSteps(s: State, x: nat)
    requires s.Shape() && x < s.N()
    ensures
      var t := Detach(s, x);
      && t.cap == s.cap && t.N() == s.N()
      && CapState.DeleteLeaf(s, x) == Free(SetCap(Release(t, s.cap[x].obj, s.cap[x].kind), x, NULL_CAP), x)
  {
  }

  /** Hand a reference over to an empty entry, maybe of the same CNode. No reference is
      lost or doubled. */
  method MoveSlot(dest: array<nat>, di: nat, src: array<nat>, si: nat) returns (st: Status)
    modifies dest, src
    ensures TransferCheck(old(dest[..]), di, old(src[..]), si).Err? ==>
      st == TransferCheck(old(dest[..]), di, old(src[..]), si) && dest[..] == old(dest[..]) && src[..] == old(src[..])
    ensures TransferCheck(old(dest[..]), di, old(src[..]), si).Ok? ==>
      st.Ok? && dest[di] == old(src[si]) && src[si] == NONE
    ensures dest != src ==> multiset(dest[..]) + multiset(src[..]) == old(multiset(dest[..]) + multiset(src[..]))
    ensures dest == src ==> multiset(dest[..]) == old(multiset(dest[..]))
    ensures forall k {:trigger dest[k]} :: 0 <= k < dest.Length && k != di && (dest == src ==> k != si) ==>
      dest[k] == old(dest[k])
    ensures forall k {:trigger src[k]} :: 0 <= k < src.Length && k != si && (dest == src ==> k != di) ==>
      src[k] == old(src[k])
  {
    if di >= dest.Length || si >= src.Length { return Err(InvalidSlot); }
    if dest[di] != NONE { return Err(SlotOccupied); }
    var ref := src[si];
    if ref == NONE { return Err(SlotEmpty); }
    ghost var d: seq<nat>, r: seq<nat> := dest[..], src[..];
    dest[di] := ref;
    src[si] := NONE;
    if dest == src {
      assert dest[..] == d[di := ref][si := NONE];
      Exchanged(d, di, si);
    } else {
      assert dest[..] == d[di := ref] && src[..] == r[si := NONE];
      HandedOver(d, di, r, si);
    }
    st := Ok;
  }

  lemma Exchanged(d: seq<nat>, di: nat, si: nat)
    requires di < |d| && si < |d| && d[di] == NONE && d[si] != NONE
    ensures multiset(d[di := d[si]][si := NONE]) == multiset(d)
  {
  }

  lemma HandedOver(d: seq<nat>, di: nat, r: seq<nat>, si: nat)
    requires di < |d| && si < |r| && d[di] == NONE
    ensures multiset(d[di := r[si]]) + multiset(r[si := NONE]) == multiset(d) + multiset(r)
  {
  }
}
