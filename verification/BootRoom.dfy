/** When the boot allocator fails: exactly when no usable region below 4 GB has room left. */
module BootRoom {
  import opened Bits
  import opened BootAlloc

  /** Whole pages for this many bytes. */
  function Pages(n: nat): nat { (n + 4095) / 4096 * 4096 }

  /** The block could lie at p: in a usable region, below 4 GB, past everything handed out, on a
      page and on its own alignment. */
  ghost predicate HasRoom(r: Region, w: nat, q: Request, p: nat)
    requires q.align > 0
  {
    && r.kind == 1 && r.base <= p && w <= p && p % 4096 == 0 && p % q.align == 0
    && p + Pages(q.size) <= 0x1_0000_0000 && p + Pages(q.size) <= (r.base + r.length) % 0x1_0000_0000_0000_0000
  }

  lemma PagesIs(n: nat)
    requires n <= LIMIT
    ensures AlignUp(n, PAGE) == Pages(n)
  {
    var y := n + 4095;
    assert y % WORD == y;
    assert y - y % 4096 == y / 4096 * 4096;
  }

  /** Both alignments are one. */
  lemma OneAlignment(p: nat, align: nat)
    requires IsPow2(align)
    ensures 0 < align && 0 < Alignment(align) && (p % 4096 == 0 && p % align == 0 <==> p % Alignment(align) == 0)
  {
    hide IsPow2;
    AlignmentFits(align);
    if p % Alignment(align) == 0 {
      Multiple(p, Alignment(align), align);
      Multiple(p, Alignment(align), PAGE);
    }
  }

  /** Start is the lowest aligned address. */
  lemma Lowest(x: nat, a: nat, p: nat)
    requires a > 0 && x + a - 1 < WORD && p >= x && p % a == 0
    ensures AlignUp(x, a) <= p
  {
    hide AlignUp;
    AlignBounds(x, a);
    var m := AlignUp(x, a);
    if p < m {
      DivModUnique(x + a - 1, a, m / a, x + a - 1 - m) by { assert m == m / a * a; }
      DivModUnique(x + a - 1, a, p / a, x + a - 1 - p) by { assert p == p / a * a; }
    }
  }

  lemma StartHasRoom(r: Region, w: nat, q: Request)
    requires 0 < w <= LIMIT && RequestOk(q) && 0 < q.size <= LIMIT && q.align > 0 && Alignment(q.align) > 0
    requires Accepts(w, r, Pages(q.size), Alignment(q.align))
    ensures HasRoom(r, w, q, Start(w, r, Alignment(q.align)))
  {
    hide AlignUp, IsPow2, Alignment, Pages, Start;
    var a, n := Alignment(q.align), Pages(q.size);
    AlignmentFits(q.align);
    PagesIs(q.size);
    SizeBounds(q.size);
    StartBounds(w, r, a);
    OneAlignment(Start(w, r, a), q.align);
    SmallSum(Start(w, r, a), n);
  }

  lemma SmallSum(x: nat, n: nat)
    requires x < LIMIT + WORD / 2 && n <= LIMIT
    ensures (x + n) % WORD == x + n
  {
  }

  lemma RoomAccepted(r: Region, w: nat, q: Request, p: nat)
    requires 0 < w <= LIMIT && RequestOk(q) && 0 < q.size <= LIMIT && q.align > 0 && Alignment(q.align) > 0
    requires HasRoom(r, w, q, p)
    ensures Accepts(w, r, Pages(q.size), Alignment(q.align)) && Start(w, r, Alignment(q.align)) <= p
  {
    hide AlignUp, IsPow2, Alignment, Pages;
    var a, n := Alignment(q.align), Pages(q.size);
    AlignmentFits(q.align);
    PagesIs(q.size);
    SizeBounds(q.size);
    OneAlignment(p, q.align);
    Lowest(if w < r.base then r.base else w, a, p);
    SmallSum(Start(w, r, a), n);
  }

  lemma AcceptsIsRoom(r: Region, w: nat, q: Request)
    requires 0 < w <= LIMIT && RequestOk(q) && 0 < q.size <= LIMIT
    ensures
      var a, n := Alignment(q.align), Pages(q.size);
      && q.align > 0 && a > 0
      && (Accepts(w, r, n, a) ==> HasRoom(r, w, q, Start(w, r, a)))
      && (forall p {:trigger HasRoom(r, w, q, p)} :: HasRoom(r, w, q, p) ==> Accepts(w, r, n, a) && Start(w, r, a) <= p)
  {
    hide AlignUp, IsPow2, Alignment, Pages, Accepts, HasRoom, Start;
    AlignmentFits(q.align);
    if Accepts(w, r, Pages(q.size), Alignment(q.align)) { StartHasRoom(r, w, q); }
    forall p {:trigger HasRoom(r, w, q, p)} | HasRoom(r, w, q, p)
      ensures Accepts(w, r, Pages(q.size), Alignment(q.align)) && Start(w, r, Alignment(q.align)) <= p
    {
      RoomAccepted(r, w, q, p);
    }
  }

  ghost predicate NoRoom(r: Region, w: nat, q: Request)
    requires q.align > 0
  {
    forall p {:trigger HasRoom(r, w, q, p)} :: !HasRoom(r, w, q, p)
  }

  /** A request of at most 4 GB fails exactly when nothing was asked for or no region has
      room. */
  lemma AllocFails(map820: seq<Region>, s: State, q: Request)
    requires Good(map820, s) && RequestOk(q) && q.size <= LIMIT
    ensures
      && q.align > 0
      && (Alloc(map820, s, q).1 == 0 <==>
            q.size == 0 || forall k {:trigger map820[k]} :: 0 <= k < |map820| ==> NoRoom(map820[k], s.watermark, q))
  {
    hide AlignUp, Accepts, IsPow2, Start, HasRoom, Good, Alignment;
    AlignmentFits(q.align);
    if q.size > 0 {
      PagesIs(q.size);
      var a, n := Alignment(q.align), Pages(q.size);
      var i := FirstFit(map820, s.watermark, n, a, 0);
      if i < |map820| {
        Scanned(map820, s, q, i);
        StartPositive(map820, s, map820[i], n, a);
      } else {
        forall k {:trigger map820[k]} | 0 <= k < |map820| ensures NoRoom(map820[k], s.watermark, q) {
          Scanned(map820, s, q, k);
        }
      }
    }
  }

  lemma Scanned(map820: seq<Region>, s: State, q: Request, k: nat)
    requires Good(map820, s) && RequestOk(q) && 0 < q.size <= LIMIT && k < |map820|
    ensures
      var a, n := Alignment(q.align), Pages(q.size);
      && q.align > 0 && a > 0
      && (Accepts(s.watermark, map820[k], n, a) <==> !NoRoom(map820[k], s.watermark, q))
  {
    hide AlignUp, Accepts, IsPow2, Start, HasRoom, Alignment;
    AcceptsIsRoom(map820[k], s.watermark, q);
  }

  /** What a request gets: the lowest address with room in the first region that has any. */
  lemma AllocFirst(map820: seq<Region>, s: State, q: Request) returns (i: nat)
    requires Good(map820, s) && RequestOk(q) && q.size <= LIMIT && Alloc(map820, s, q).1 != 0
    ensures i < |map820| && q.align > 0 && HasRoom(map820[i], s.watermark, q, Alloc(map820, s, q).1)
    ensures forall p {:trigger HasRoom(map820[i], s.watermark, q, p)} ::
      HasRoom(map820[i], s.watermark, q, p) ==> Alloc(map820, s, q).1 <= p
    ensures forall k {:trigger map820[k]} :: 0 <= k < i ==> NoRoom(map820[k], s.watermark, q)
  {
    hide AlignUp, Accepts, IsPow2, Start, HasRoom, Good, Alignment;
    AlignmentFits(q.align);
    PagesIs(q.size);
    var a, n := Alignment(q.align), Pages(q.size);
    i := FirstFit(map820, s.watermark, n, a, 0);
    WatermarkBound(map820, s);
    AcceptsIsRoom(map820[i], s.watermark, q);
    forall k {:trigger map820[k]} | 0 <= k < i ensures NoRoom(map820[k], s.watermark, q) {
      Scanned(map820, s, q, k);
    }
  }

  lemma WatermarkBound(map820: seq<Region>, s: State)
    requires Good(map820, s)
    ensures 0 < s.watermark <= LIMIT
  {
  }
}
