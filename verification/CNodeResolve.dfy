/** Capability addresses: a tree of CNodes, each consuming a guard and an index
    from the top of the address.  The kernel decodes addresses in three places;
    the decoders agree, and they accept exactly the encodings of paths. */
module CNodeResolve {
  import opened Bits
  import opened CapState

  const MAX_RESOLVE_DEPTH: nat := 8

  datatype Node = Node(guardBits: nat, guard: nat, radix: nat, slots: seq<nat>)

  datatype CSpace = CSpace(nodes: map<Obj, Node>, caps: seq<Cap>) {
    /** CNodes hold 16 to 65536 entries, every entry is null or a slot index, and
        a capability of CNode kind names a CNode. */
    ghost predicate Valid() {
      && (forall o :: o in nodes ==>
            4 <= nodes[o].radix <= 16 && |nodes[o].slots| == Pow2(nodes[o].radix))
      && (forall o, i :: o in nodes && 0 <= i < |nodes[o].slots| ==>
            nodes[o].slots[i] == NONE || nodes[o].slots[i] < |caps|)
      && (forall x :: 0 <= x < |caps| && caps[x].kind.CNode? && caps[x].obj != NoObject ==> caps[x].obj in nodes)
    }
  }

  datatype Result<T> = Good(value: T) | Bad(error: CapError)

  // Shift amounts wrap at the word width, as on the machine.
  function Shr(x: nat, n: nat): nat { x / Pow2(n % 64) }

  function LowMask(n: nat): nat { Pow2(n % 64) - 1 }

  function GetRef(n: Node, index: nat): Result<nat> {
    if index < |n.slots| && n.slots[index] != NONE then Good(n.slots[index]) else Bad(SlotEmpty)
  }

  function GuardValue(n: Node, addr: nat, bits: nat): nat
    requires n.guardBits <= bits
  {
    And(Shr(addr, bits - n.guardBits), LowMask(n.guardBits))
  }

  function IndexValue(n: Node, addr: nat, bits: nat): nat
    requires n.guardBits + n.radix <= bits
  {
    And(Shr(addr, bits - n.guardBits - n.radix), LowMask(n.radix))
  }

  /** Decoder for writers: the CNode and the index in it. */
  function ResolveForSlot(cs: CSpace, at: Obj, addr: nat, bits: nat, depth: nat): (r: Result<(Obj, nat)>)
    requires cs.Valid() && at in cs.nodes && depth <= MAX_RESOLVE_DEPTH + 1
    ensures r.Good? ==> r.value.0 in cs.nodes
    decreases MAX_RESOLVE_DEPTH + 1 - depth
  {
    var n := cs.nodes[at];
    if depth > MAX_RESOLVE_DEPTH then Bad(DepthExceeded)
    else if bits < n.guardBits + n.radix then Bad(InvalidSlot)
    else if n.guardBits > 0 && GuardValue(n, addr, bits) != n.guard then Bad(GuardMismatch)
    else
      var index := IndexValue(n, addr, bits);
      var left := bits - n.guardBits - n.radix;
      if left == 0 then Good((at, index))
      else
        var ref := GetRef(n, index);
        if ref.Bad? then Bad(ref.error)
        else
          var cap := cs.caps[ref.value];
          if cap.kind.CNode? && cap.obj != NoObject then ResolveForSlot(cs, cap.obj, addr, left, depth + 1)
          else Bad(InvalidSlot)
  }

  /** Decoder for operations on the referenced slot. */
  function ResolveSlot(cs: CSpace, at: Obj, addr: nat, bits: nat, depth: nat): Result<nat>
    requires cs.Valid() && at in cs.nodes && depth <= MAX_RESOLVE_DEPTH + 1
    decreases MAX_RESOLVE_DEPTH + 1 - depth
  {
    var n := cs.nodes[at];
    if depth > MAX_RESOLVE_DEPTH then Bad(DepthExceeded)
    else if bits < n.guardBits + n.radix then Bad(InvalidSlot)
    else if n.guardBits > 0 && GuardValue(n, addr, bits) != n.guard then Bad(GuardMismatch)
    else
      var index := IndexValue(n, addr, bits);
      var left := bits - n.guardBits - n.radix;
      if left == 0 then GetRef(n, index)
      else
        var ref := GetRef(n, index);
        if ref.Bad? then Bad(ref.error)
        else
          var cap := cs.caps[ref.value];
          if cap.kind.CNode? && cap.obj != NoObject then ResolveSlot(cs, cap.obj, addr, left, depth + 1)
          else Bad(InvalidSlot)
  }

  /** Decoder for invocations: the capability itself, its slot read first. */
  function ResolveAddress(cs: CSpace, at: Obj, addr: nat, bits: nat, depth: nat): Result<Cap>
    requires cs.Valid() && at in cs.nodes && depth <= MAX_RESOLVE_DEPTH + 1
    decreases MAX_RESOLVE_DEPTH + 1 - depth
  {
    var n := cs.nodes[at];
    if depth > MAX_RESOLVE_DEPTH then Bad(DepthExceeded)
    else if bits < n.guardBits + n.radix then Bad(InvalidSlot)
    else if n.guardBits > 0 && GuardValue(n, addr, bits) != n.guard then Bad(GuardMismatch)
    else
      var index := IndexValue(n, addr, bits);
      var left := bits - n.guardBits - n.radix;
      var ref := GetRef(n, index);
      if ref.Bad? then Bad(ref.error)
      else
        var cap := cs.caps[ref.value];
        if left == 0 then Good(cap)
        else if cap.kind.CNode? && cap.obj != NoObject then ResolveAddress(cs, cap.obj, addr, left, depth + 1)
        else Bad(InvalidSlot)
  }

  lemma RefInSpace(cs: CSpace, at: Obj, index: nat)
    requires cs.Valid() && at in cs.nodes
    ensures
      var ref := GetRef(cs.nodes[at], index);
      ref.Good? ==>
        && ref.value < |cs.caps|
        && (cs.caps[ref.value].kind.CNode? && cs.caps[ref.value].obj != NoObject ==> cs.caps[ref.value].obj in cs.nodes)
  {
  }

  /** This level matches and its entry is another CNode to descend into. */
  predicate Descends(cs: CSpace, at: Obj, addr: nat, bits: nat)
    requires cs.Valid() && at in cs.nodes
  {
    var n := cs.nodes[at];
    && n.guardBits + n.radix < bits
    && (n.guardBits > 0 ==> GuardValue(n, addr, bits) == n.guard)
    && var ref := GetRef(n, IndexValue(n, addr, bits));
    && ref.Good? && cs.caps[ref.value].kind.CNode? && cs.caps[ref.value].obj != NoObject
  }

  lemma DecodersDescend(cs: CSpace, at: Obj, addr: nat, bits: nat, depth: nat)
    requires cs.Valid() && at in cs.nodes && depth <= MAX_RESOLVE_DEPTH && Descends(cs, at, addr, bits)
    ensures
      var n := cs.nodes[at];
      var ref := GetRef(n, IndexValue(n, addr, bits));
      && ref.value < |cs.caps| && cs.caps[ref.value].obj in cs.nodes
      && var next, left := cs.caps[ref.value].obj, bits - n.guardBits - n.radix;
      && ResolveForSlot(cs, at, addr, bits, depth) == ResolveForSlot(cs, next, addr, left, depth + 1)
      && ResolveSlot(cs, at, addr, bits, depth) == ResolveSlot(cs, next, addr, left, depth + 1)
      && ResolveAddress(cs, at, addr, bits, depth) == ResolveAddress(cs, next, addr, left, depth + 1)
  {
    hide GuardValue, IndexValue, CSpace.Valid;
    RefInSpace(cs, at, IndexValue(cs.nodes[at], addr, bits));
  }

  /** Where no descent is possible the three decoders stop with one answer. */
  lemma DecodersStop(cs: CSpace, at: Obj, addr: nat, bits: nat, depth: nat)
    requires cs.Valid() && at in cs.nodes && depth <= MAX_RESOLVE_DEPTH + 1
    requires depth > MAX_RESOLVE_DEPTH || !Descends(cs, at, addr, bits)
    ensures
      var w := ResolveForSlot(cs, at, addr, bits, depth);
      var r := ResolveSlot(cs, at, addr, bits, depth);
      && r == (if w.Bad? then Bad(w.error) else GetRef(cs.nodes[w.value.0], w.value.1))
      && (r.Good? ==> r.value < |cs.caps|)
      && ResolveAddress(cs, at, addr, bits, depth) == (if r.Bad? then Bad(r.error) else Good(cs.caps[r.value]))
  {
    hide GuardValue, IndexValue, CSpace.Valid;
    var n := cs.nodes[at];
    if n.guardBits + n.radix <= bits { RefInSpace(cs, at, IndexValue(n, addr, bits)); }
  }

  /** The three decoders give one answer, errors included. */
  lemma {:induction false} ResolversAgree(cs: CSpace, at: Obj, addr: nat, bits: nat, depth: nat)
    requires cs.Valid() && at in cs.nodes && depth <= MAX_RESOLVE_DEPTH + 1
    ensures
      var w := ResolveForSlot(cs, at, addr, bits, depth);
      var r := ResolveSlot(cs, at, addr, bits, depth);
      && r == (if w.Bad? then Bad(w.error) else GetRef(cs.nodes[w.value.0], w.value.1))
      && (r.Good? ==> r.value < |cs.caps|)
      && ResolveAddress(cs, at, addr, bits, depth) == (if r.Bad? then Bad(r.error) else Good(cs.caps[r.value]))
    decreases MAX_RESOLVE_DEPTH + 1 - depth
  {
    hide ResolveForSlot, ResolveSlot, ResolveAddress, CSpace.Valid;
    if depth <= MAX_RESOLVE_DEPTH && Descends(cs, at, addr, bits) {
      var n := cs.nodes[at];
      DecodersDescend(cs, at, addr, bits, depth);
      var next := cs.caps[GetRef(n, IndexValue(n, addr, bits)).value].obj;
      ResolversAgree(cs, next, addr, bits - n.guardBits - n.radix, depth + 1);
    } else {
      DecodersStop(cs, at, addr, bits, depth);
    }
  }

  // ---- paths and their encoding -------------------------------------------

  datatype Path = End(node: Obj, index: nat) | Via(node: Obj, index: nat, rest: Path)

  predicate IsPath(cs: CSpace, p: Path)
    requires cs.Valid()
  {
    && p.node in cs.nodes && p.index < Pow2(cs.nodes[p.node].radix)
    && (p.Via? ==>
          var ref := cs.nodes[p.node].slots[p.index];
          && ref != NONE && cs.caps[ref].kind.CNode? && cs.caps[ref].obj == p.rest.node
          && p.rest.node != NoObject && IsPath(cs, p.rest))
  }

  function Levels(p: Path): nat { if p.End? then 1 else 1 + Levels(p.rest) }

  function Target(p: Path): (Obj, nat) { if p.End? then (p.node, p.index) else Target(p.rest) }

  function PathBits(cs: CSpace, p: Path): nat
    requires cs.Valid() && IsPath(cs, p)
  {
    var n := cs.nodes[p.node];
    n.guardBits + n.radix + if p.End? then 0 else PathBits(cs, p.rest)
  }

  /** Guard, then index, then the rest, most significant first. */
  function Encode(cs: CSpace, p: Path): nat
    requires cs.Valid() && IsPath(cs, p)
  {
    var n := cs.nodes[p.node];
    var guard := if n.guardBits > 0 then n.guard else 0;
    var top := Times(guard, Pow2(n.radix)) + p.index;
    if p.End? then top else Times(top, Pow2(PathBits(cs, p.rest))) + Encode(cs, p.rest)
  }

  /** Every guard on the way fits in its guard bits. */
  predicate GuardsFit(cs: CSpace, p: Path)
    requires cs.Valid() && IsPath(cs, p)
  {
    var n := cs.nodes[p.node];
    (n.guardBits > 0 ==> n.guard < Pow2(n.guardBits)) && (p.Via? ==> GuardsFit(cs, p.rest))
  }

  // ---- decoding is the inverse of encoding --------------------------------

  lemma GuardField(n: Node, addr: nat, bits: nat)
    requires 0 < n.guardBits && n.guardBits + 4 <= bits <= 64
    ensures GuardValue(n, addr, bits) == addr / Pow2(bits - n.guardBits) % Pow2(n.guardBits)
  {
    hide Pow2, And;
    var k := bits - n.guardBits;
    assert k % 64 == k && n.guardBits % 64 == n.guardBits;
    AndMask(addr / Pow2(k), n.guardBits);
  }

  lemma IndexField(n: Node, addr: nat, bits: nat)
    requires 4 <= n.radix <= 16 && n.guardBits + n.radix <= bits <= 64
    ensures IndexValue(n, addr, bits) == addr / Pow2(bits - n.guardBits - n.radix) % Pow2(n.radix)
  {
    hide Pow2, And;
    AndMask(Shr(addr, bits - n.guardBits - n.radix), n.radix);
  }

  /** One level of the address: guard, index and remainder. */
  lemma LevelSplit(addr: nat, g: nat, k: nat, l: nat)
    ensures
      var guard := addr / Pow2(k + l) % Pow2(g);
      var index := addr / Pow2(l) % Pow2(k);
      addr % Pow2(g + k + l) == (guard * Pow2(k) + index) * Pow2(l) + addr % Pow2(l)
  {
    hide Pow2;
    ModSplit(addr, k + l, g);
    ModSplit(addr, l, k);
    Pow2Add(l, k);
    assert k + l + g == g + k + l && l + k == k + l;
    MulSpread(addr / Pow2(k + l) % Pow2(g), Pow2(k), addr / Pow2(l) % Pow2(k), Pow2(l));
  }

  lemma LevelUnique(a: nat, i: nat, r: nat, a': nat, i': nat, r': nat, m: nat, p: nat)
    requires i < m && i' < m && r < p && r' < p
    requires (a * m + i) * p + r == (a' * m + i') * p + r'
    ensures a == a' && i == i' && r == r'
  {
    DivModUnique((a * m + i) * p + r, p, a * m + i, r);
    DivModUnique((a' * m + i') * p + r', p, a' * m + i', r');
    DivModUnique(a * m + i, m, a, i);
    DivModUnique(a' * m + i', m, a', i');
  }

  lemma {:induction false} EncodeBound(cs: CSpace, p: Path)
    requires cs.Valid() && IsPath(cs, p) && GuardsFit(cs, p)
    ensures Encode(cs, p) < Pow2(PathBits(cs, p))
  {
    hide Pow2;
    var n := cs.nodes[p.node];
    var guard := if n.guardBits > 0 then n.guard else 0;
    var top := guard * Pow2(n.radix) + p.index;
    Pow2Add(n.radix, n.guardBits);
    BelowProduct(guard, p.index, Pow2(n.radix), Pow2(n.guardBits));
    if p.Via? {
      EncodeBound(cs, p.rest);
      var l := PathBits(cs, p.rest);
      Pow2Add(l, n.radix + n.guardBits);
      BelowProduct(top, Encode(cs, p.rest), Pow2(l), Pow2(n.radix + n.guardBits));
    }
  }

  /** Any address whose low bits encode a path leads to the end of that path. */
  lemma {:induction false} EncodedPathResolves(cs: CSpace, p: Path, addr: nat, depth: nat)
    requires cs.Valid() && IsPath(cs, p) && GuardsFit(cs, p) && PathBits(cs, p) <= 64
    requires depth + Levels(p) <= MAX_RESOLVE_DEPTH + 1 && addr % Pow2(PathBits(cs, p)) == Encode(cs, p)
    ensures ResolveForSlot(cs, p.node, addr, PathBits(cs, p), depth) == Good(Target(p))
    decreases p
  {
    hide Pow2, GuardValue, IndexValue;
    var n, bits := cs.nodes[p.node], PathBits(cs, p);
    var l := if p.End? then 0 else PathBits(cs, p.rest);
    LevelDecoded(cs, p, addr);
    if p.Via? { EncodedPathResolves(cs, p.rest, addr, depth + 1); }
  }

  lemma LevelDecoded(cs: CSpace, p: Path, addr: nat)
    requires cs.Valid() && IsPath(cs, p) && GuardsFit(cs, p) && PathBits(cs, p) <= 64
    requires addr % Pow2(PathBits(cs, p)) == Encode(cs, p)
    ensures
      var n, bits := cs.nodes[p.node], PathBits(cs, p);
      && (n.guardBits > 0 ==> GuardValue(n, addr, bits) == n.guard) && IndexValue(n, addr, bits) == p.index
      && (p.Via? ==> PathBits(cs, p.rest) > 0 && addr % Pow2(PathBits(cs, p.rest)) == Encode(cs, p.rest))
  {
    hide Pow2, GuardValue, IndexValue;
    var n, bits := cs.nodes[p.node], PathBits(cs, p);
    var l := if p.End? then 0 else PathBits(cs, p.rest);
    var e := if p.End? then 0 else Encode(cs, p.rest);
    if p.Via? { EncodeBound(cs, p.rest); }
    Pow2Zero();
    LevelSplit(addr, n.guardBits, n.radix, l);
    IndexField(n, addr, bits);
    if n.guardBits > 0 { GuardField(n, addr, bits); }
    LevelUnique(addr / Pow2(n.radix + l) % Pow2(n.guardBits), addr / Pow2(l) % Pow2(n.radix), addr % Pow2(l),
                if n.guardBits > 0 then n.guard else 0, p.index, e, Pow2(n.radix), Pow2(l));
  }

  /** Whatever resolves was reached along a path that the address encodes. */
  lemma {:induction false} ResolutionTracesPath(cs: CSpace, at: Obj, addr: nat, bits: nat, depth: nat) returns (p: Path)
    requires cs.Valid() && at in cs.nodes && depth <= MAX_RESOLVE_DEPTH + 1 && bits <= 64
    requires ResolveForSlot(cs, at, addr, bits, depth).Good?
    ensures IsPath(cs, p) && p.node == at && GuardsFit(cs, p) && depth + Levels(p) <= MAX_RESOLVE_DEPTH + 1
    ensures PathBits(cs, p) == bits && Encode(cs, p) == addr % Pow2(bits)
    ensures Good(Target(p)) == ResolveForSlot(cs, at, addr, bits, depth)
    decreases MAX_RESOLVE_DEPTH + 1 - depth
  {
    hide Pow2, GuardValue, IndexValue;
    var n := cs.nodes[at];
    var index, l := IndexValue(n, addr, bits), bits - n.guardBits - n.radix;
    LevelFields(n, addr, bits);
    if l == 0 {
      p := End(at, index);
    } else {
      var next := cs.caps[n.slots[index]].obj;
      var rest := ResolutionTracesPath(cs, next, addr, l, depth + 1);
      p := Via(at, index, rest);
    }
  }

  lemma LevelFields(n: Node, addr: nat, bits: nat)
    requires 4 <= n.radix <= 16 && n.guardBits + n.radix <= bits <= 64
    requires n.guardBits > 0 ==> GuardValue(n, addr, bits) == n.guard
    ensures IndexValue(n, addr, bits) < Pow2(n.radix) && (n.guardBits > 0 ==> n.guard < Pow2(n.guardBits))
    ensures
      var guard := if n.guardBits > 0 then n.guard else 0;
      var l := bits - n.guardBits - n.radix;
      addr % Pow2(bits) == (guard * Pow2(n.radix) + IndexValue(n, addr, bits)) * Pow2(l) + addr % Pow2(l)
    ensures Pow2(0) == 1
  {
    hide Pow2, GuardValue, IndexValue;
    Pow2Zero();
    IndexField(n, addr, bits);
    if n.guardBits > 0 { GuardField(n, addr, bits); }
    LevelSplit(addr, n.guardBits, n.radix, bits - n.guardBits - n.radix);
  }

  ghost predicate Encodes(cs: CSpace, p: Path, at: Obj, addr: nat, bits: nat)
    requires cs.Valid()
  {
    && IsPath(cs, p) && p.node == at && GuardsFit(cs, p) && Levels(p) <= 9
    && PathBits(cs, p) == bits && Encode(cs, p) == addr % Pow2(bits)
  }

  /** An address of at most 64 bits resolves to a target exactly when its bits
      encode a path of at most nine levels from the root to that target. */
  lemma ResolvesExactlyPaths(cs: CSpace, root: Obj, addr: nat, bits: nat, target: (Obj, nat))
    requires cs.Valid() && root in cs.nodes && bits <= 64
    ensures ResolveForSlot(cs, root, addr, bits, 0) == Good(target) <==>
            exists p :: Encodes(cs, p, root, addr, bits) && Target(p) == target
  {
    hide Pow2, ResolveForSlot, Encode, PathBits;
    if ResolveForSlot(cs, root, addr, bits, 0).Good? {
      var p := ResolutionTracesPath(cs, root, addr, bits, 0);
      assert Encodes(cs, p, root, addr, bits);
    }
    forall p | Encodes(cs, p, root, addr, bits) && Target(p) == target
      ensures ResolveForSlot(cs, root, addr, bits, 0) == Good(target)
    {
      EncodedPathResolves(cs, p, addr, 0);
    }
  }
}
