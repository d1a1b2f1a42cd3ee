/** The boot loader's allocator over the firmware's E820 map. */
module BootAlloc {
  import opened Bits

  const WORD: nat := 0x1_0000_0000_0000_0000
  const LIMIT: nat := 0x1_0000_0000
  const PAGE: nat := 4096
  const MAX_RECORDS: nat := 16
  const USABLE: nat := 1

  datatype Region = Region(base: nat, length: nat, kind: nat)
  datatype Record = Record(addr: nat, size: nat, tag: nat)
  datatype State = State(watermark: nat, made: seq<Record>)
  datatype Request = Request(size: nat, align: nat, tag: nat)

  ghost predicate IsPow2(a: nat) { exists k: nat {:trigger Pow2(k)} :: k < 64 && a == Pow2(k) }

  ghost predicate RequestOk(q: Request) { q.size < WORD && IsPow2(q.align) }

  // ---- one allocation, in 64-bit arithmetic -------------------------------

  function AlignUp(x: nat, a: nat): nat
    requires a > 0
  {
    var y := (x + a - 1) % WORD;
    y - y % a
  }

  function RegionEnd(r: Region): nat {
    var e := (r.base + r.length) % WORD;
    if e > LIMIT then LIMIT else e
  }

  function Start(w: nat, r: Region, align: nat): nat
    requires align > 0
  {
    AlignUp(if w < r.base then r.base else w, align)
  }

  /** A region the scan takes. */
  predicate Accepts(w: nat, r: Region, size: nat, align: nat)
    requires align > 0
  {
    r.kind == USABLE && r.base < LIMIT && (Start(w, r, align) + size) % WORD <= RegionEnd(r)
  }

  /** The first region taken, or the number of regions. */
  function FirstFit(map820: seq<Region>, w: nat, size: nat, align: nat, i: nat): (j: nat)
    requires align > 0 && i <= |map820|
    ensures i <= j <= |map820| && (j < |map820| ==> Accepts(w, map820[j], size, align))
    ensures forall k {:trigger map820[k]} :: i <= k < j ==> !Accepts(w, map820[k], size, align)
    decreases |map820| - i
  {
    if i == |map820| || Accepts(w, map820[i], size, align) then i else FirstFit(map820, w, size, align, i + 1)
  }

  function Alignment(align: nat): nat { if align < PAGE then PAGE else align }

  /** The state after a request and the address returned; 0 means failure. */
  function Alloc(map820: seq<Region>, s: State, q: Request): (State, nat) {
    if q.size == 0 then (s, 0) else
      var a, n := Alignment(q.align), AlignUp(q.size, PAGE);
      var i := FirstFit(map820, s.watermark, n, a, 0);
      if i == |map820| then (s, 0) else
        var addr := Start(s.watermark, map820[i], a);
        var w := (addr + n) % WORD;
        if addr == 0 then (State(w, s.made), 0) else (State(w, s.made + [Record(addr, n, q.tag)]), addr)
  }

  // ---- what allocations should be -----------------------------------------

  /** The record lies in one usable region and below 4 GB. */
  ghost predicate Inside(map820: seq<Region>, r: Record) {
    && r.addr + r.size <= LIMIT
    && exists k {:trigger map820[k]} ::
         0 <= k < |map820| && map820[k].kind == USABLE && map820[k].base <= r.addr
             && r.addr + r.size <= map820[k].base + map820[k].length
  }

  predicate Apart(a: Record, b: Record) { a.addr + a.size <= b.addr || b.addr + b.size <= a.addr }

  ghost predicate Good(map820: seq<Region>, s: State) {
    && 0 < s.watermark <= LIMIT
    && (forall i {:trigger s.made[i]} :: 0 <= i < |s.made| ==>
          Inside(map820, s.made[i]) && s.made[i].addr % PAGE == 0 && s.made[i].addr + s.made[i].size <= s.watermark)
    && (forall i, j {:trigger s.made[i], s.made[j]} :: 0 <= i < j < |s.made| ==> Apart(s.made[i], s.made[j]))
  }

  /** The answer is a failure, or a block that covers the request where it may lie. */
  ghost predicate Proper(map820: seq<Region>, s: State, q: Request)
    requires q.align > 0
  {
    var (t, addr) := Alloc(map820, s, q);
    addr == 0 ||
    (|t.made| == |s.made| + 1 && t.made[|s.made|].addr == addr && Inside(map820, t.made[|s.made|])
      && t.made[|s.made|].size >= q.size && addr % q.align == 0)
  }

  // ---- alignment ----------------------------------------------------------

  lemma AlignBounds(x: nat, a: nat)
    requires a > 0 && x + a - 1 < WORD
    ensures x <= AlignUp(x, a) < x + a && AlignUp(x, a) % a == 0
  {
    var y := x + a - 1;
    assert y % WORD == y;
    AlignDown(y, a);
  }

  lemma AlignDown(y: nat, a: nat)
    requires a > 0
    ensures y - a < y - y % a <= y && (y - y % a) % a == 0
  {
    var q := y / a;
    assert y - y % a == q * a;
    DivModUnique(q * a, a, q, 0);
  }

  /** The alignment used divides into pages and into what was asked for. */
  lemma AlignmentFits(align: nat)
    requires IsPow2(align)
    ensures 0 < align && PAGE <= Alignment(align) <= WORD / 2 && Alignment(align) % PAGE == 0
      && Alignment(align) % align == 0
  {
    hide Pow2;
    var k: nat :| k < 64 && align == Pow2(k);
    Page();
    DivModUnique(align, align, 1, 0);
    Pow2Mono(k, 63);
    if k <= 12 {
      Pow2Mono(k, 12);
      PowerDivides(k, 12);
    } else {
      Pow2Mono(12, k);
      PowerDivides(12, k);
    }
  }

  lemma Page()
    ensures Pow2(12) == PAGE && Pow2(63) == WORD / 2
  {
    Pow2Values();
    Pow2Eight();
    Pow2Add(4, 8);
  }

  /** Below the limit nothing wraps. */
  lemma StartBounds(w: nat, r: Region, align: nat)
    requires 0 < w <= LIMIT && r.base < LIMIT && 0 < align <= WORD / 2
    ensures w <= Start(w, r, align) && r.base <= Start(w, r, align) < LIMIT + align && Start(w, r, align) % align == 0
  {
    AlignBounds(if w < r.base then r.base else w, align);
  }

  lemma SizeBounds(size: nat)
    requires 0 < size < WORD
    ensures size <= LIMIT ==> size <= AlignUp(size, PAGE) <= LIMIT
    ensures AlignUp(size, PAGE) >= size ==> size <= AlignUp(size, PAGE) < WORD
  {
    if size <= LIMIT {
      AlignBounds(size, PAGE);
    }
  }

  // ---- steps and runs -----------------------------------------------------

  /** An allocation of at most 4 GB lies where it may and past everything before. */
  lemma FitHolds(map820: seq<Region>, w: nat, n: nat, a: nat, i: nat)
    requires 0 < w <= LIMIT && 0 < a <= WORD / 2 && a % PAGE == 0 && n <= LIMIT && i < |map820|
      && Accepts(w, map820[i], n, a)
    ensures
      var r := Record(Start(w, map820[i], a), n, 0);
      && Inside(map820, r) && r.addr % a == 0 && r.addr % PAGE == 0
      && 0 < w <= r.addr && (r.addr + n) % WORD == r.addr + n <= LIMIT
  {
    hide AlignUp;
    var r := map820[i];
    StartBounds(w, r, a);
    Multiple(Start(w, r, a), a, PAGE);
    assert (Start(w, r, a) + n) % WORD == Start(w, r, a) + n;
  }

  /** A request of at most 4 GB keeps all allocations apart and in bounds. */
  lemma StepKeeps(map820: seq<Region>, s: State, q: Request)
    requires Good(map820, s) && RequestOk(q) && q.size <= LIMIT
    ensures Good(map820, Alloc(map820, s, q).0) && Proper(map820, s, q)
    ensures s.made <= Alloc(map820, s, q).0.made
  {
    hide AlignUp, Start, Accepts, IsPow2, Inside;
    AlignmentFits(q.align);
    if q.size > 0 {
      SizeBounds(q.size);
      var a, n := Alignment(q.align), AlignUp(q.size, PAGE);
      var i := FirstFit(map820, s.watermark, n, a, 0);
      if i < |map820| {
        FitHolds(map820, s.watermark, n, a, i);
        var addr := Start(s.watermark, map820[i], a);
        Multiple(addr, a, q.align);
        SameInside(map820, Record(addr, n, 0), Record(addr, n, q.tag));
      }
    }
  }

  lemma SameInside(map820: seq<Region>, r: Record, t: Record)
    requires Inside(map820, r) && r.addr == t.addr && r.size == t.size
    ensures Inside(map820, t)
  {
  }

  /** Exactly when the answer is proper: the request is at most 4 GB, or no region passes
      the scan's wrapping comparison. */
  lemma ProperWhen(map820: seq<Region>, s: State, q: Request)
    requires Good(map820, s) && RequestOk(q)
    ensures
      var a, n := Alignment(q.align), AlignUp(q.size, PAGE);
      q.align > 0 &&
      (Proper(map820, s, q) <==> q.size <= LIMIT || forall r {:trigger r in map820} :: r in map820 ==>
          !Accepts(s.watermark, r, n, a))
  {
    hide AlignUp, Accepts, IsPow2, Inside, Start, Good;
    AlignmentFits(q.align);
    if q.size <= LIMIT {
      StepKeeps(map820, s, q);
    } else {
      var a, n := Alignment(q.align), AlignUp(q.size, PAGE);
      var i := FirstFit(map820, s.watermark, n, a, 0);
      if i < |map820| {
        assert map820[i] in map820;
        StartPositive(map820, s, map820[i], n, a);
        TooLarge(map820, Record(Start(s.watermark, map820[i], a), n, q.tag), q.size);
      }
    }
  }

  lemma StartPositive(map820: seq<Region>, s: State, r: Region, n: nat, a: nat)
    requires Good(map820, s) && 0 < a <= WORD / 2 && Accepts(s.watermark, r, n, a)
    ensures Start(s.watermark, r, a) > 0
  {
    StartBounds(s.watermark, r, a);
  }

  lemma TooLarge(map820: seq<Region>, r: Record, size: nat)
    requires size > LIMIT
    ensures !(Inside(map820, r) && r.size >= size)
  {
  }

  /** A request just short of 2^64 bytes wraps around and succeeds. */
  lemma HugeRequestSucceeds()
    ensures
      var map820, s, q := [Region(0, 0x8000_0000, USABLE)], State(0x20_0000, []), Request(WORD - PAGE, PAGE, 0);
      Alloc(map820, s, q).1 == 0x20_0000 && !Proper(map820, s, q)
  {
    var map820, s, q := [Region(0, 0x8000_0000, USABLE)], State(0x20_0000, []), Request(WORD - PAGE, PAGE, 0);
    assert AlignUp(WORD - PAGE, PAGE) == WORD - PAGE;
    assert Start(0x20_0000, map820[0], PAGE) == 0x20_0000;
    assert Accepts(0x20_0000, map820[0], WORD - PAGE, PAGE);
    assert FirstFit(map820, 0x20_0000, WORD - PAGE, PAGE, 0) == 0;
  }

  function Run(map820: seq<Region>, s: State, qs: seq<Request>): State {
    if qs == [] then s else Alloc(map820, Run(map820, s, qs[..|qs| - 1]), qs[|qs| - 1]).0
  }

  /** Over every run of requests of at most 4 GB each, all allocations are page aligned,
      in usable memory below 4 GB, and pairwise apart. */
  lemma {:induction false} RunSafe(map820: seq<Region>, min: nat, qs: seq<Request>)
    requires 0 < min <= LIMIT && forall i {:trigger qs[i]} :: 0 <= i < |qs| ==> RequestOk(qs[i]) && qs[i].size <= LIMIT
    ensures Good(map820, Run(map820, State(min, []), qs))
  {
    hide Alloc, Good, RequestOk;
    if qs == [] {
      assert Good(map820, State(min, [])) by { Fresh(map820, min); }
    } else {
      RunSafe(map820, min, qs[..|qs| - 1]);
      StepKeeps(map820, Run(map820, State(min, []), qs[..|qs| - 1]), qs[|qs| - 1]);
    }
  }

  lemma Fresh(map820: seq<Region>, min: nat)
    requires 0 < min <= LIMIT
    ensures Good(map820, State(min, []))
  {
  }

  // ---- the allocator object -----------------------------------------------

  class Allocator {
    const map820: seq<Region>
    const records: array<Record>
    var count: nat
    var watermark: nat
    ghost var made: seq<Record>

    ghost predicate Valid()
      reads this, records
    {
      && records.Length == MAX_RECORDS && count == (if |made| < MAX_RECORDS then |made| else MAX_RECORDS)
      && records[..count] == made[..count]
    }

    ghost function Now(): State
      reads this
    {
      State(watermark, made)
    }

    constructor (map820: seq<Region>, min: nat)
      ensures Valid() && fresh(records) && this.map820 == map820 && Now() == State(min, [])
    {
      this.map820 := map820;
      records := new Record[MAX_RECORDS](_ => Record(0, 0, 0));
      count := 0;
      watermark := min;
      made := [];
    }

    /** Keep the record while there is room. */
    method RecordAlloc(addr: nat, size: nat, tag: nat)
      requires Valid()
      modifies this`count, this`made, records
      ensures Valid() && made == old(made) + [Record(addr, size, tag)]
    {
      made := made + [Record(addr, size, tag)];
      if count >= MAX_RECORDS { return; }
      records[count] := Record(addr, size, tag);
      count := count + 1;
    }

    method BiosAlloc(size: nat, align: nat) returns (addr: nat)
      requires Valid() && align > 0
      modifies this`watermark
      ensures Valid()
      ensures
        var i := FirstFit(map820, old(watermark), size, align, 0);
        if i == |map820| then addr == 0 && watermark == old(watermark)
        else addr == Start(old(watermark), map820[i], align) && watermark == (addr + size) % WORD
    {
      for i := 0 to |map820|
        invariant watermark == old(watermark) && Valid()
        invariant FirstFit(map820, watermark, size, align, 0) == FirstFit(map820, watermark, size, align, i)
      {
        var r := map820[i];
        if r.kind == USABLE {
          var end := (r.base + r.length) % WORD;
          if r.base < LIMIT {
            if end > LIMIT { end := LIMIT; }
            var start := watermark;
            if start < r.base { start := r.base; }
            start := AlignUp(start, align);
            if (start + size) % WORD <= end {
              watermark := (start + size) % WORD;
              return start;
            }
          }
        }
      }
      return 0;
    }

    method Allocate(size: nat, align: nat, tag: nat) returns (addr: nat)
      requires Valid()
      modifies this`watermark, this`count, this`made, records
      ensures Valid() && (Now(), addr) == Alloc(map820, old(Now()), Request(size, align, tag))
    {
      hide AlignUp, Accepts, FirstFit, Start;
      if size == 0 { return 0; }
      var a := if align < PAGE then PAGE else align;
      var n := AlignUp(size, PAGE);
      addr := BiosAlloc(n, a);
      if addr == 0 { return 0; }
      RecordAlloc(addr, n, tag);
    }
  }
}
