/** Building the initrd: entry order, inode numbers, permissions and the padding entries
    that put selected binaries on page boundaries. */
module CpioWriter {
  import opened Cpio

  const DEFAULT_MODE: nat := 0x81A4

  datatype Source = Source(name: seq<nat>, data: seq<nat>)
  datatype Perm = Perm(mode: nat, uid: nat, gid: nat)

  // ---- which entries are aligned, and by how much -------------------------

  function LowerByte(b: nat): nat { if 65 <= b <= 90 then b + 32 else b }

  function Lower(name: seq<nat>): (r: seq<nat>)
    ensures |r| == |name|
  {
    seq(|name|, i requires 0 <= i < |name| => LowerByte(name[i]))
  }

  predicate EndsWith(name: seq<nat>, ext: seq<nat>) { |ext| <= |name| && name[|name| - |ext|..] == ext }

  predicate ShouldAlign(name: seq<nat>, exts: seq<seq<nat>>) {
    exists k :: 0 <= k < |exts| && EndsWith(Lower(name), exts[k])
  }

  function NextDataStart(len: nat, name: seq<nat>): nat { Align4(len + HEADER_SIZE + (|name| + 1)) }

  /** With this much padding the next entry's data starts on a page. */
  predicate PadWorks(len: nat, next: seq<nat>, pad: seq<nat>, payload: nat) {
    var padStart := Align4(len + HEADER_SIZE + (|pad| + 1));
    NextDataStart(Align4(padStart + payload), next) % PAGE == 0
  }

  function FirstPad(len: nat, next: seq<nat>, pad: seq<nat>, k: nat): (r: Option<nat>)
    ensures r.Some? ==> k <= r.value < PAGE && PadWorks(len, next, pad, r.value)
    ensures forall p {:trigger PadWorks(len, next, pad, p)} ::
      k <= p < PAGE && (r.Some? ==> p < r.value) ==> !PadWorks(len, next, pad, p)
    decreases PAGE - k
  {
    if k >= PAGE then None else if PadWorks(len, next, pad, k) then Some(k) else FirstPad(len, next, pad, k + 1)
  }

  method CalcPadPayloadSize(len: nat, next: seq<nat>, pad: seq<nat>) returns (r: Option<nat>)
    ensures r == FirstPad(len, next, pad, 0)
  {
    for payload := 0 to PAGE
      invariant FirstPad(len, next, pad, 0) == FirstPad(len, next, pad, payload)
    {
      var padStart := Align4(len + HEADER_SIZE + (|pad| + 1));
      var trial := Align4(padStart + payload);
      if NextDataStart(trial, next) % PAGE == 0 { return Some(payload); }
    }
    return None;
  }

  /** From a multiple of four the padding always exists. */
  lemma PadExists(len: nat, next: seq<nat>, pad: seq<nat>)
    requires len % 4 == 0
    ensures FirstPad(len, next, pad, 0).Some?
  {
    hide FirstPad;
    var base, d := Align4(len + HEADER_SIZE + (|pad| + 1)), Align4(HEADER_SIZE + (|next| + 1));
    var payload := PadFor(base, d);
    Aligned(len + HEADER_SIZE + (|pad| + 1));
    PlainSum(base, payload);
    assert Align4(base + payload) == base + payload;
    StartShifts(base + payload, |next|);
    assert PadWorks(len, next, pad, payload);
  }

  lemma PlainSum(base: nat, payload: nat)
    requires base % 4 == 0 && payload % 4 == 0
    ensures Align4(base + payload) == base + payload && (base + payload) % 4 == 0
  {
  }

  lemma PadFor(base: nat, d: nat) returns (payload: nat)
    requires base % 4 == 0 && d % 4 == 0
    ensures payload < PAGE && payload % 4 == 0 && (base + payload + d) % PAGE == 0
  {
    var r := (base + d) % PAGE;
    payload := if r == 0 then 0 else PAGE - r;
    var q := (base + d) / PAGE;
    assert base + d == q * PAGE + r;
    assert base + payload + d == (if r == 0 then q else q + 1) * PAGE;
  }

  lemma StartShifts(len: nat, name: nat)
    requires len % 4 == 0
    ensures Align4(len + HEADER_SIZE + (name + 1)) == len + Align4(HEADER_SIZE + (name + 1))
  {
  }

  // ---- names --------------------------------------------------------------

  /** Decimal digits of n, at least k of them. */
  function Decimal(n: nat, k: nat): seq<nat> {
    if n == 0 && k == 0 then [] else Decimal(n / 10, if k == 0 then 0 else k - 1) + [48 + n % 10]
  }

  function PadName(idx: nat): seq<nat> { [46, 112, 97, 100, 47] + Decimal(idx, 4) }

  ghost predicate IsPadName(name: seq<nat>) { exists idx :: name == PadName(idx) }

  /** The permissions entry for a name, tried with a leading slash first. */
  function PermFor(perms: map<seq<nat>, Perm>, name: seq<nat>): Perm {
    var rooted := if name != [] && name[0] == 47 then name else [47] + name;
    if rooted in perms then perms[rooted] else if name in perms then perms[name] else Perm(DEFAULT_MODE, 0, 0)
  }

  // ---- the plan -----------------------------------------------------------

  /** The items written so far, where each source's item is, and the running counters. */
  datatype Plan = Plan(items: seq<Item>, at: seq<nat>, ino: nat, pads: nat)

  const EMPTY_PLAN: Plan := Plan([], [], 1, 0)

  function PadStep(p: Plan, src: Source, exts: seq<seq<nat>>): Option<Plan> {
    var len := |AllBytes(p.items)|;
    if ShouldAlign(src.name, exts) && NextDataStart(len, src.name) % PAGE != 0 then
      var pad := FirstPad(len, src.name, PadName(p.pads), 0);
      if pad.None? then None
      else Some(Plan(p.items + [Item(p.ino, PadName(p.pads), Zeros(pad.value), DEFAULT_MODE, 0, 0)], p.at, p.ino + 1,
          p.pads + 1))
    else Some(p)
  }

  function AddStep(p: Plan, src: Source, perms: map<seq<nat>, Perm>): Plan {
    var perm := PermFor(perms, src.name);
    Plan(p.items + [Item(p.ino, src.name, src.data, perm.mode, perm.uid, perm.gid)], p.at + [|p.items|], p.ino + 1,
        p.pads)
  }

  /** The plan for the first k sources. */
  function PlanFor(sources: seq<Source>, k: nat, exts: seq<seq<nat>>, perms: map<seq<nat>, Perm>): Option<Plan>
    requires k <= |sources|
  {
    if k == 0 then Some(EMPTY_PLAN) else
      var p := PlanFor(sources, k - 1, exts, perms);
      if p.None? then None else
        var padded := PadStep(p.value, sources[k - 1], exts);
        if padded.None? then None else Some(AddStep(padded.value, sources[k - 1], perms))
  }

  method AppendEntry(archive: seq<nat>, it: Item) returns (r: seq<nat>)
    ensures r == archive + EntryBytes(it)
  {
    var filesize, namesize := |it.data|, |it.name| + 1;
    var header := Header(it.ino, it.mode, filesize, namesize, it.uid, it.gid);
    var headerPlusName := HEADER_SIZE + namesize;
    var padName := Align4(headerPlusName) - headerPlusName;
    var padData := Align4(filesize) - filesize;
    r := archive + header;
    r := r + it.name;
    r := r + [0];
    r := r + Zeros(padName);
    r := r + it.data;
    r := r + Zeros(padData);
    EntryIs(it, header, Zeros(padName), Zeros(padData));
    hide Header, EntryBytes, Zeros;
    Grouped(archive, header, it.name, Zeros(padName), it.data, Zeros(padData));
  }

  lemma Grouped(a: seq<nat>, b: seq<nat>, c: seq<nat>, d: seq<nat>, e: seq<nat>, f: seq<nat>)
    ensures a + b + c + [0] + d + e + f == a + (b + c + [0] + d + e + f)
  {
  }

  /** A padding entry, if this source needs one. */
  method WritePadding(archive: seq<nat>, ino: nat, pads: nat, src: Source, exts: seq<seq<nat>>, ghost p: Plan)
    returns (ok: bool, archive': seq<nat>, ino': nat, pads': nat, ghost q: Plan)
    requires archive == AllBytes(p.items) && ino == p.ino && pads == p.pads
    ensures PadStep(p, src, exts) == if ok then Some(q) else None
    ensures ok ==> archive' == AllBytes(q.items) && ino' == q.ino && pads' == q.pads
  {
    hide EntryBytes, FirstPad;
    ok, archive', ino', pads', q := true, archive, ino, pads, p;
    if ShouldAlign(src.name, exts) {
      if NextDataStart(|archive|, src.name) % PAGE != 0 {
        var payload := CalcPadPayloadSize(|archive|, src.name, PadName(pads));
        if payload.None? {
          ok := false;
          return;
        }
        var pad := Item(ino, PadName(pads), Zeros(payload.value), DEFAULT_MODE, 0, 0);
        archive' := AppendEntry(archive, pad);
        AllBytesAppend(p.items, pad);
        q := Plan(p.items + [pad], p.at, ino + 1, pads + 1);
        ino', pads' := ino + 1, pads + 1;
      }
    }
  }

  method CreateArchive(sources: seq<Source>, exts: seq<seq<nat>>, perms: map<seq<nat>, Perm>)
      returns (r: Option<seq<nat>>)
    ensures
      var p := PlanFor(sources, |sources|, exts, perms);
      r == if p.None? then None else Some(ArchiveBytes(p.value.items))
  {
    hide EntryBytes, PadStep, AllBytes, PermFor;
    var archive, ino, pads := [], 1, 0;
    ghost var p := EMPTY_PLAN;
    NoBytes();
    for k := 0 to |sources|
      invariant PlanFor(sources, k, exts, perms) == Some(p)
      invariant archive == AllBytes(p.items) && ino == p.ino && pads == p.pads
    {
      ghost var q;
      var ok;
      ok, archive, ino, pads, q := WritePadding(archive, ino, pads, sources[k], exts, p);
      if !ok {
        NoPlan(sources, k + 1, exts, perms);
        return None;
      }
      var perm := PermFor(perms, sources[k].name);
      var it := Item(ino, sources[k].name, sources[k].data, perm.mode, perm.uid, perm.gid);
      archive := AppendEntry(archive, it);
      AllBytesAppend(q.items, it);
      ino := ino + 1;
      p := AddStep(q, sources[k], perms);
    }
    archive := AppendEntry(archive, END_ITEM);
    r := Some(archive);
  }

  lemma NoBytes()
    ensures AllBytes([]) == []
  {
  }

  lemma AllBytesAppend(items: seq<Item>, it: Item)
    ensures AllBytes(items + [it]) == AllBytes(items) + EntryBytes(it)
  {
    assert (items + [it])[..|items|] == items;
  }

  lemma {:induction false} NoPlan(sources: seq<Source>, k: nat, exts: seq<seq<nat>>, perms: map<seq<nat>, Perm>)
    requires k <= |sources| && PlanFor(sources, k, exts, perms).None?
    ensures PlanFor(sources, |sources|, exts, perms).None?
    decreases |sources| - k
  {
    hide PadStep, AddStep;
    if k < |sources| { NoPlan(sources, k + 1, exts, perms); }
  }

  // ---- every plan succeeds, and puts the chosen entries on pages ----------

  /** Sizes, permissions and the number of entries fit in 32 bits. */
  predicate SourcesFit(sources: seq<Source>, perms: map<seq<nat>, Perm>) {
    && 2 * |sources| + 2 < WORD32
    && (forall k {:trigger sources[k]} :: 0 <= k < |sources| ==>
          |sources[k].data| < WORD32 && |sources[k].name| + 1 < WORD32)
    && (forall n {:trigger n in perms} :: n in perms ==>
      perms[n].mode < WORD32 && perms[n].uid < WORD32 && perms[n].gid < WORD32)
  }

  /** The position of an item's data in the archive. */
  function DataPosition(items: seq<Item>, i: nat): nat
    requires i < |items|
  {
    |AllBytes(items[..i])| + DataOffset(items[i])
  }

  /** What holds of the plan for the first k sources. */
  ghost predicate Planned(p: Plan, sources: seq<Source>, k: nat, exts: seq<seq<nat>>) {
    && k <= |sources| && |p.at| == k && |p.items| == k + p.pads && p.ino == 1 + |p.items| && p.pads <= k
    && (forall i {:trigger p.items[i]} :: 0 <= i < |p.items| ==> Fits(p.items[i]))
    && (forall j {:trigger p.at[j]} :: 0 <= j < k ==>
          && p.at[j] < |p.items|
          && p.items[p.at[j]].name == sources[j].name && p.items[p.at[j]].data == sources[j].data
          && (ShouldAlign(sources[j].name, exts) ==> DataPosition(p.items, p.at[j]) % 4096 == 0))
  }

  lemma {:induction false} AllBytesSize(items: seq<Item>)
    requires forall i {:trigger items[i]} :: 0 <= i < |items| ==> Fits(items[i])
    ensures |AllBytes(items)| % 4 == 0
  {
    hide EntryBytes;
    if items != [] {
      AllBytesSize(items[..|items| - 1]);
      EntrySize(items[|items| - 1]);
      FoursAdd(|AllBytes(items[..|items| - 1])|, |EntryBytes(items[|items| - 1])|);
    }
  }

  lemma DataPositionKept(items: seq<Item>, it: Item, i: nat)
    requires i < |items|
    ensures DataPosition(items + [it], i) == DataPosition(items, i)
  {
    assert (items + [it])[..i] == items[..i];
  }

  lemma {:induction false} DecimalLength(n: nat, k: nat)
    ensures |Decimal(n, k)| <= n + k
    decreases n, k
  {
    if n != 0 || k != 0 { DecimalLength(n / 10, if k == 0 then 0 else k - 1); }
  }

  /** The padding entry does what was computed for it. */
  lemma PaddingLength(len: nat, pad: Item, payload: nat, next: seq<nat>)
    requires len % 4 == 0 && Fits(pad) && |pad.data| == payload && PadWorks(len, next, pad.name, payload)
    ensures NextDataStart(len + |EntryBytes(pad)|, next) % PAGE == 0
  {
    hide EntryBytes, Header, Align4;
    EntryLayout(pad);
    DataPlace(len, |pad.name|, payload);
  }

  lemma PadStepPlanned(p: Plan, sources: seq<Source>, k: nat, exts: seq<seq<nat>>, perms: map<seq<nat>, Perm>)
    requires Planned(p, sources, k, exts) && k < |sources| && SourcesFit(sources, perms)
    ensures PadStep(p, sources[k], exts).Some?
    ensures
      var q := PadStep(p, sources[k], exts).value;
      && |q.at| == k && |q.items| == k + q.pads && q.ino == 1 + |q.items| && q.pads <= k + 1
      && (forall i {:trigger q.items[i]} :: 0 <= i < |q.items| ==> Fits(q.items[i]))
      && (ShouldAlign(sources[k].name, exts) ==> NextDataStart(|AllBytes(q.items)|, sources[k].name) % PAGE == 0)
      && (q == p || (exists pad :: q.items == p.items + [pad] && q.at == p.at && pad.name == PadName(p.pads)))
  {
    hide EntryBytes, FirstPad, ShouldAlign, Align4, PadName;
    var name, len := sources[k].name, |AllBytes(p.items)|;
    AllBytesSize(p.items);
    if ShouldAlign(name, exts) && NextDataStart(len, name) % PAGE != 0 {
      PadExists(len, name, PadName(p.pads));
      var payload := FirstPad(len, name, PadName(p.pads), 0).value;
      var pad := Item(p.ino, PadName(p.pads), Zeros(payload), DEFAULT_MODE, 0, 0);
      PadNameLength(p.pads);
      PaddingLength(len, pad, payload, name);
      AllBytesAppend(p.items, pad);
      assert PadStep(p, sources[k], exts).value.items == p.items + [pad];
    }
  }

  lemma PadNameLength(idx: nat)
    ensures |PadName(idx)| <= idx + 9
  {
    DecimalLength(idx, 4);
  }

  lemma AddStepPlanned(p: Plan, q: Plan, sources: seq<Source>, k: nat, exts: seq<seq<nat>>, perms: map<seq<nat>, Perm>)
    requires Planned(p, sources, k, exts) && k < |sources| && SourcesFit(sources, perms)
    requires |q.at| == k && |q.items| == k + q.pads && q.ino == 1 + |q.items| && q.pads <= k + 1
    requires forall i {:trigger q.items[i]} :: 0 <= i < |q.items| ==> Fits(q.items[i])
    requires ShouldAlign(sources[k].name, exts) ==> NextDataStart(|AllBytes(q.items)|, sources[k].name) % PAGE == 0
    requires q == p || (exists pad :: q.items == p.items + [pad] && q.at == p.at && pad.name == PadName(p.pads))
    ensures Planned(AddStep(q, sources[k], perms), sources, k + 1, exts)
  {
    hide EntryBytes, ShouldAlign, Align4, PadName, AllBytes, DataOffset;
    var r := AddStep(q, sources[k], perms);
    var it := r.items[|q.items|];
    AllBytesSize(q.items);
    forall j {:trigger r.at[j]} | 0 <= j < k + 1
      ensures r.at[j] < |r.items| && r.items[r.at[j]].name == sources[j].name
        && r.items[r.at[j]].data == sources[j].data
      ensures ShouldAlign(sources[j].name, exts) ==> DataPosition(r.items, r.at[j]) % PAGE == 0
    {
      if j < k {
        PositionKept(p, q, it, j);
      } else {
        LastPosition(q.items, it);
      }
    }
  }

  lemma LastPosition(items: seq<Item>, it: Item)
    requires |AllBytes(items)| % 4 == 0
    ensures DataPosition(items + [it], |items|) == NextDataStart(|AllBytes(items)|, it.name)
  {
    hide Align4, AllBytes;
    assert (items + [it])[..|items|] == items;
    DataPlace(|AllBytes(items)|, |it.name|, 0);
  }

  /** Items already placed stay where they are. */
  lemma PositionKept(p: Plan, q: Plan, it: Item, j: nat)
    requires j < |p.at| && p.at[j] < |p.items|
    requires q == p || (exists pad :: q.items == p.items + [pad] && q.at == p.at && pad.name == PadName(p.pads))
    ensures j < |q.at| && q.at[j] == p.at[j] && p.at[j] < |q.items| && (q.items + [it])[p.at[j]] == p.items[p.at[j]]
    ensures DataPosition(q.items + [it], p.at[j]) == DataPosition(p.items, p.at[j])
  {
    hide DataPosition;
    DataPositionKept(q.items, it, p.at[j]);
    if q != p {
      var pad :| q.items == p.items + [pad] && q.at == p.at && pad.name == PadName(p.pads);
      DataPositionKept(p.items, pad, p.at[j]);
    }
  }

  /** The alignment error cannot happen, and every chosen entry's data starts on a page. */
  lemma {:induction false} PlanHolds(sources: seq<Source>, k: nat, exts: seq<seq<nat>>, perms: map<seq<nat>, Perm>)
    requires k <= |sources| && SourcesFit(sources, perms)
    ensures PlanFor(sources, k, exts, perms).Some? && Planned(PlanFor(sources, k, exts, perms).value, sources, k, exts)
  {
    hide Planned, PadStep, AddStep;
    if k == 0 {
      NothingPlanned(sources, exts);
    } else {
      PlanHolds(sources, k - 1, exts, perms);
      var p := PlanFor(sources, k - 1, exts, perms).value;
      PadStepPlanned(p, sources, k - 1, exts, perms);
      AddStepPlanned(p, PadStep(p, sources[k - 1], exts).value, sources, k - 1, exts, perms);
    }
  }

  lemma NothingPlanned(sources: seq<Source>, exts: seq<seq<nat>>)
    ensures Planned(EMPTY_PLAN, sources, 0, exts)
  {
  }

  /** The entry's mode, owner and group: as listed for the name from the root, else as listed for
      the bare name, else a plain file of user and group 0. */
  ghost predicate Owned(it: Item, perms: map<seq<nat>, Perm>, name: seq<nat>) {
    var rooted := if name != [] && name[0] == 47 then name else [47] + name;
    && (rooted in perms ==> Perm(it.mode, it.uid, it.gid) == perms[rooted])
    && (rooted !in perms && name in perms ==> Perm(it.mode, it.uid, it.gid) == perms[name])
    && (rooted !in perms && name !in perms ==> it.mode == 0x81A4 && it.uid == 0 && it.gid == 0)
  }

  lemma {:induction false} PlanOwned(sources: seq<Source>, k: nat, exts: seq<seq<nat>>, perms: map<seq<nat>, Perm>)
    requires k <= |sources| && PlanFor(sources, k, exts, perms).Some?
    ensures
      var p := PlanFor(sources, k, exts, perms).value;
      && |p.at| == k
      && forall j {:trigger p.at[j]} :: 0 <= j < k ==>
           p.at[j] < |p.items| && Owned(p.items[p.at[j]], perms, sources[j].name)
  {
    hide AllBytes, ShouldAlign, FirstPad, PadName, Owned;
    if k > 0 {
      PlanOwned(sources, k - 1, exts, perms);
      var q := PadStep(PlanFor(sources, k - 1, exts, perms).value, sources[k - 1], exts).value;
      AddedOwned(q, sources[k - 1], perms);
    }
  }

  lemma AddedOwned(q: Plan, src: Source, perms: map<seq<nat>, Perm>)
    ensures Owned(AddStep(q, src, perms).items[|q.items|], perms, src.name)
  {
  }

  /** An extension matches in either case of the name's letters. */
  lemma ExtensionsMatch(name: seq<nat>, exts: seq<seq<nat>>)
    ensures ShouldAlign(name, exts) <==> exists e {:trigger Matches(name, e)} :: e in exts && Matches(name, e)
  {
    hide EndsWith, Matches;
    forall e {:trigger Matches(name, e)} ensures EndsWith(Lower(name), e) <==> Matches(name, e) {
      ExtensionMatches(name, e);
    }
    if ShouldAlign(name, exts) {
      var k :| 0 <= k < |exts| && EndsWith(Lower(name), exts[k]);
      assert Matches(name, exts[k]);
    }
  }

  ghost predicate Matches(name: seq<nat>, ext: seq<nat>) {
    && |ext| <= |name|
    && forall i {:trigger ext[i]} :: 0 <= i < |ext| ==>
         var c := name[|name| - |ext| + i];
         ext[i] == if 65 <= c <= 90 then c + 32 else c
  }

  lemma ExtensionMatches(name: seq<nat>, ext: seq<nat>)
    ensures EndsWith(Lower(name), ext) <==> Matches(name, ext)
  {
    if |ext| <= |name| {
      var low := Lower(name);
      var tail := low[|low| - |ext|..];
      assert forall i {:trigger tail[i]} :: 0 <= i < |ext| ==> tail[i] == low[|name| - |ext| + i];
    }
  }

  // ---- the kernel finds every source --------------------------------------

  /** The first of the first k sources with that name. */
  function SourceLookup(sources: seq<Source>, k: nat, name: seq<nat>): Option<Found>
    requires k <= |sources|
  {
    if k == 0 then None else
      var earlier := SourceLookup(sources, k - 1, name);
      if earlier.Some? then earlier
      else if sources[k - 1].name == name then Some(Found(name, sources[k - 1].data))
      else None
  }

  ghost predicate NamesPlain(sources: seq<Source>) {
    forall k {:trigger sources[k]} :: 0 <= k < |sources| ==> sources[k].name != TRAILER && !IsPadName(sources[k].name)
  }

  predicate NoTrailer(items: seq<Item>) {
    forall i {:trigger items[i]} :: 0 <= i < |items| ==> items[i].name != TRAILER
  }

  lemma {:induction false} LookupAppend(items: seq<Item>, it: Item, name: seq<nat>)
    requires NoTrailer(items) && it.name != TRAILER
    ensures Lookup(items + [it], name)
      == if Lookup(items, name).Some? then Lookup(items, name)
         else if it.name == name then Some(Found(name, it.data)) else None
  {
    if items != [] {
      LookupAppend(items[1..], it, name);
      assert (items + [it])[1..] == items[1..] + [it];
    }
  }

  lemma PadNotTrailer(idx: nat)
    ensures PadName(idx) != TRAILER
  {
    assert PadName(idx)[0] == 46 && TRAILER[0] == 84;
  }

  lemma StepLookup(p: Plan, q: Plan, src: Source, perms: map<seq<nat>, Perm>, name: seq<nat>)
    requires NoTrailer(p.items) && src.name != TRAILER && !IsPadName(name)
    requires q == p || (exists pad :: q.items == p.items + [pad] && q.at == p.at && pad.name == PadName(p.pads))
    ensures
      var r := AddStep(q, src, perms);
      && NoTrailer(r.items)
      && Lookup(r.items, name)
        == if Lookup(p.items, name).Some? then Lookup(p.items, name)
           else if src.name == name then Some(Found(name, src.data)) else None
  {
    hide Lookup, PadName;
    PadNotTrailer(p.pads);
    if q != p {
      var pad :| q.items == p.items + [pad] && q.at == p.at && pad.name == PadName(p.pads);
      LookupAppend(p.items, pad, name);
    }
    var r := AddStep(q, src, perms);
    LookupAppend(q.items, r.items[|q.items|], name);
  }

  lemma {:induction false} PlanLookup(sources: seq<Source>, k: nat, exts: seq<seq<nat>>, perms: map<seq<nat>, Perm>,
      name: seq<nat>)
    requires k <= |sources| && SourcesFit(sources, perms) && NamesPlain(sources) && !IsPadName(name)
    ensures PlanFor(sources, k, exts, perms).Some?
    ensures
      var items := PlanFor(sources, k, exts, perms).value.items;
      NoTrailer(items) && Lookup(items, name) == SourceLookup(sources, k, name)
  {
    hide Planned, PadStep, AddStep;
    PlanHolds(sources, k, exts, perms);
    if k > 0 {
      PlanHolds(sources, k - 1, exts, perms);
      PlanLookup(sources, k - 1, exts, perms, name);
      var p := PlanFor(sources, k - 1, exts, perms).value;
      PadStepPlanned(p, sources, k - 1, exts, perms);
      StepLookup(p, PadStep(p, sources[k - 1], exts).value, sources[k - 1], perms, name);
    }
  }

  /** For every list of sources that fit in the format and avoid the tool's own names:
      looking a name up in the archive gives the first source's bytes, or nothing. */
  lemma ArchiveFinds(sources: seq<Source>, exts: seq<seq<nat>>, perms: map<seq<nat>, Perm>, name: seq<nat>)
    requires SourcesFit(sources, perms) && NamesPlain(sources) && !IsPadName(name)
    ensures PlanFor(sources, |sources|, exts, perms).Some?
    ensures
      var archive := ArchiveBytes(PlanFor(sources, |sources|, exts, perms).value.items);
      FindAt(archive, 0, name) == SourceLookup(sources, |sources|, name)
  {
    hide FindAt, ArchiveBytes, Lookup;
    PlanHolds(sources, |sources|, exts, perms);
    PlanLookup(sources, |sources|, exts, perms, name);
    ArchiveLookup(PlanFor(sources, |sources|, exts, perms).value.items, name);
  }
}
