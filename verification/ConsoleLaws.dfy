/** What the console's control sequences mean to the program that writes them: bytes on one
    side, cursor, colours and pixels on the other. */
module ConsoleLaws {
  import opened Bits
  import opened ConsoleSpec

  datatype Part = After | Before | All

  datatype Command =
    | Up(n: nat) | Down(n: nat) | Right(n: nat) | Left(n: nat)
    | Place(row: nat, col: nat, hvp: bool)
    | EraseScreen(part: Part)
    | EraseRow(part: Part)
    | Colours(codes: seq<nat>)
    | Save | Restore
    | Unknown(n: nat, final: nat)
    | Print(c: nat) | Bare(c: nat)
    | NewLine | Return | Tab | Back
  {
    /** Colour sequences have a code, and characters are not commands themselves. */
    predicate Sendable() {
      match this
      case Colours(codes) => codes != []
      case Unknown(_, f) =>
        && f < 256 && !(48 <= f <= 57) && f !in {59, 65, 66, 67, 68, 72, 74, 75, 102, 109, 115, 117}
      case Print(c) => c < 256 && c !in {8, 9, 10, 13, 27}
      case Bare(c) => c < 256 && c !in {8, 9, 10, 13, 91}
      case _ => true
    }
  }

  // ---- bytes --------------------------------------------------------------

  function Decimal(n: nat): (d: seq<nat>)
    ensures d != [] && forall i {:trigger d[i]} :: 0 <= i < |d| ==> 48 <= d[i] <= 57
  {
    (if n < 10 then [] else Decimal(n / 10)) + [48 + n % 10]
  }

  /** Codes with semicolons between them. */
  function Listed(codes: seq<nat>): (d: seq<nat>)
    ensures forall i {:trigger d[i]} :: 0 <= i < |d| ==> d[i] < 256
  {
    if codes == [] then []
    else if |codes| == 1 then Decimal(codes[0])
    else Listed(codes[..|codes| - 1]) + [59] + Decimal(codes[|codes| - 1])
  }

  function PartDigit(p: Part): nat {
    match p
    case After => 48
    case Before => 49
    case All => 50
  }

  function Encoded(cmd: Command): (bytes: seq<nat>)
    requires cmd.Sendable()
    ensures forall i {:trigger bytes[i]} :: 0 <= i < |bytes| ==> bytes[i] < 256
  {
    match cmd
    case Up(n) => [27, 91] + Decimal(n) + [65]
    case Down(n) => [27, 91] + Decimal(n) + [66]
    case Right(n) => [27, 91] + Decimal(n) + [67]
    case Left(n) => [27, 91] + Decimal(n) + [68]
    case Place(r, c, hvp) => [27, 91] + Listed([r, c]) + [if hvp then 102 else 72]
    case EraseScreen(p) => [27, 91] + [PartDigit(p)] + [74]
    case EraseRow(p) => [27, 91] + [PartDigit(p)] + [75]
    case Colours(codes) => [27, 91] + Listed(codes) + [109]
    case Save => [27, 91] + [] + [115]
    case Restore => [27, 91] + [] + [117]
    case Unknown(n, f) => [27, 91] + Decimal(n) + [f]
    case Print(c) => [c]
    case Bare(c) => [27, c]
    case NewLine => [10]
    case Return => [13]
    case Tab => [9]
    case Back => [8]
  }

  // ---- meaning ------------------------------------------------------------

  /** A view and the parser between commands. */
  ghost predicate Idle(g: Geometry, v: View) {
    g.Valid() && IsScreen(g, v.s) && InBounds(g, v.k) && v.k.ansi == Plain
  }

  datatype Pen = Pen(bold: bool, fg: nat, bg: nat)

  function PenOf(v: View): Pen { Pen(v.k.bold, v.k.fg, v.k.bg) }

  /** Which bit of a font row is which pixel: the highest is the leftmost. */
  const COLUMN_BIT: seq<nat> := [128, 64, 32, 16, 8, 4, 2, 1]

  ghost predicate At(v: View, row: nat, col: nat) { v.k.row == row && v.k.col == col }

  ghost predicate SamePen(v: View, w: View) {
    PenOf(w) == PenOf(v)
  }

  ghost predicate SameSaved(v: View, w: View) {
    w.k.savedCol == v.k.savedCol && w.k.savedRow == v.k.savedRow
  }

  ghost predicate SamePicture(v: View, w: View) { w.s == v.s }

  /** Only the cursor moved. */
  ghost predicate MovedTo(v: View, w: View, row: nat, col: nat) {
    At(w, row, col) && SamePicture(v, w) && SamePen(v, w) && SameSaved(v, w)
  }

  ghost predicate InPart(v: View, p: Part, l: nat, x: nat) {
    match p
    case After => l / 16 > v.k.row || (l / 16 == v.k.row && x / 8 >= v.k.col)
    case Before => l / 16 < v.k.row || (l / 16 == v.k.row && x / 8 <= v.k.col)
    case All => true
  }

  ghost predicate Blanked(g: Geometry, v: View, w: View, p: Part, row: bool)
    requires IsScreen(g, v.s) && IsScreen(g, w.s)
  {
    forall l: nat, x: nat {:trigger w.s[l][x]} :: l < 16 * g.rows && x < 8 * g.cols ==>
      w.s[l][x] == if InPart(v, p, l, x) && (row ==> l / 16 == v.k.row) then v.k.bg else v.s[l][x]
  }

  /** One colour code. */
  ghost predicate Paints(g: Geometry, p: Pen, code: nat, q: Pen)
    requires |g.palette| == 16
  {
    if code == 0 then q == Pen(false, g.fg, g.bg)
    else if code == 1 then q.bold && q.bg == p.bg && Brighter(g.palette, p.fg, q.fg)
    else if code == 22 then q == Pen(false, p.fg, p.bg)
    else if code == 39 then q == Pen(p.bold, g.fg, p.bg)
    else if code == 49 then q == Pen(p.bold, p.fg, g.bg)
    else if code / 10 == 3 && code % 10 < 8 then
      q == Pen(p.bold, g.palette[code % 10 + if p.bold then 8 else 0], p.bg)
    else if code / 10 == 4 && code % 10 < 8 then q == Pen(p.bold, p.fg, g.palette[code % 10])
    else if code / 10 == 9 && code % 10 < 8 then q == Pen(p.bold, g.palette[code % 10 + 8], p.bg)
    else if code / 10 == 10 && code % 10 < 8 then q == Pen(p.bold, p.fg, g.palette[code % 10 + 8])
    else q == p
  }

  /** A colour among the first eight becomes the one eight places on, for its first place;
      any other stays. */
  ghost predicate Brighter(palette: seq<nat>, from: nat, to: nat)
    requires |palette| == 16
  {
    if from !in palette[..8] then to == from
    else exists i :: 0 <= i < 8 && palette[i] == from && from !in palette[..i] && to == palette[i + 8]
  }

  ghost predicate PaintsAll(g: Geometry, p: Pen, codes: seq<nat>, q: Pen)
    requires |g.palette| == 16
  {
    if codes == [] then q == p
    else
      var n := |codes| - 1;
      exists m: Pen :: PaintsAll(g, p, codes[..n], m) && Paints(g, m, codes[n], q)
  }

  /** The pixel a character leaves at (l, x) when it is drawn at the cursor. */
  ghost function Inked(g: Geometry, v: View, c: nat, l: nat, x: nat): nat
    requires g.Valid() && IsScreen(g, v.s) && c < 256 && l < 16 * g.rows && x < 8 * g.cols
  {
    if l / 16 == v.k.row && x / 8 == v.k.col then
      if g.font[16 * c + l % 16] / COLUMN_BIT[x % 8] % 2 == 1 then v.k.fg else v.k.bg
    else v.s[l][x]
  }

  /** The cursor leaves the line: to the next one, or the whole text moves up and the last
      row is blank. pic gives the picture before that. */
  ghost predicate Fed(g: Geometry, v: View, w: View, pic: Screen)
    requires g.Valid() && IsScreen(g, v.s) && IsScreen(g, w.s) && IsScreen(g, pic)
  {
    && SamePen(v, w) && SameSaved(v, w)
    && if v.k.row + 1 < g.rows then At(w, v.k.row + 1, 0) && w.s == pic
       else
         && At(w, v.k.row, 0)
         && forall l: nat, x: nat {:trigger w.s[l][x]} :: l < 16 * g.rows && x < 8 * g.cols ==>
              w.s[l][x] == if l < 16 * g.rows - 16 then pic[l + 16][x] else v.k.bg
  }

  ghost predicate IsInked(g: Geometry, v: View, c: nat, pic: Screen)
    requires g.Valid() && IsScreen(g, v.s) && c < 256
  {
    && IsScreen(g, pic)
    && forall l: nat, x: nat {:trigger pic[l][x]} :: l < 16 * g.rows && x < 8 * g.cols ==>
         pic[l][x] == Inked(g, v, c, l, x)
  }

  ghost predicate Printed(g: Geometry, v: View, w: View, c: nat)
    requires g.Valid() && IsScreen(g, v.s) && IsScreen(g, w.s) && c < 256
  {
    if v.k.col + 1 < g.cols then
      At(w, v.k.row, v.k.col + 1) && SamePen(v, w) && SameSaved(v, w) && IsInked(g, v, c, w.s)
    else exists pic :: IsInked(g, v, c, pic) && Fed(g, v, w, pic)
  }

  /** Parameters are read into 16 bits. */
  function Word(n: nat): nat { n % 65536 }

  function Words(codes: seq<nat>): (r: seq<nat>)
    ensures |r| == |codes|
  {
    seq(|codes|, i requires 0 <= i < |codes| => Word(codes[i]))
  }

  /** A distance of 0 counts as 1. */
  function Steps(n: nat): nat { if Word(n) == 0 then 1 else Word(n) }

  /** Parameters past the eighth are dropped. */
  function Kept(codes: seq<nat>): seq<nat> { if |codes| <= 8 then codes else codes[..8] }

  /** w is v after the command. */
  ghost predicate Does(g: Geometry, v: View, cmd: Command, w: View)
    requires Idle(g, v) && Idle(g, w) && cmd.Sendable()
  {
    var row, col := v.k.row, v.k.col;
    match cmd
    case Up(n) => MovedTo(v, w, if row >= Steps(n) then row - Steps(n) else 0, col)
    case Down(n) => MovedTo(v, w, if row + Steps(n) < g.rows then row + Steps(n) else g.rows - 1, col)
    case Right(n) => MovedTo(v, w, row, if col + Steps(n) < g.cols then col + Steps(n) else g.cols - 1)
    case Left(n) => MovedTo(v, w, row, if col >= Steps(n) then col - Steps(n) else 0)
    case Place(r, c, _) =>
      MovedTo(v, w, if Steps(r) <= g.rows then Steps(r) - 1 else g.rows - 1,
              if Steps(c) <= g.cols then Steps(c) - 1 else g.cols - 1)
    case EraseScreen(p) => At(w, row, col) && SamePen(v, w) && SameSaved(v, w) && Blanked(g, v, w, p, false)
    case EraseRow(p) => At(w, row, col) && SamePen(v, w) && SameSaved(v, w) && Blanked(g, v, w, p, true)
    case Colours(codes) =>
      At(w, row, col) && SamePicture(v, w) && SameSaved(v, w) && PaintsAll(g, PenOf(v), Words(Kept(codes)), PenOf(w))
    case Save => At(w, row, col) && SamePicture(v, w) && SamePen(v, w) && w.k.savedRow == row && w.k.savedCol == col
    case Restore =>
      MovedTo(v, w, if v.k.savedRow < g.rows then v.k.savedRow else g.rows - 1,
              if v.k.savedCol < g.cols then v.k.savedCol else g.cols - 1)
    case Unknown(_, _) => MovedTo(v, w, row, col)
    case Print(c) => Printed(g, v, w, c)
    case Bare(c) => Printed(g, v, w, c)
    case NewLine => Fed(g, v, w, v.s)
    case Return => MovedTo(v, w, row, 0)
    case Tab => if col - col % 8 + 8 < g.cols then MovedTo(v, w, row, col - col % 8 + 8) else Fed(g, v, w, v.s)
    case Back => MovedTo(v, w, row, if col == 0 then 0 else col - 1)
  }

  // ---- typing -------------------------------------------------------------

  ghost predicate AreBytes(b: seq<nat>) { forall i {:trigger b[i]} :: 0 <= i < |b| ==> b[i] < 256 }

  ghost predicate Ready(g: Geometry, v: View) { g.Valid() && IsScreen(g, v.s) && InBounds(g, v.k) }

  ghost function Typed(g: Geometry, v: View, bytes: seq<nat>): (w: View)
    requires Ready(g, v) && AreBytes(bytes)
    ensures Ready(g, w)
  {
    WriteAll(g, v, bytes, |bytes|)
  }

  lemma {:induction false} WriteAllPrefix(g: Geometry, v: View, a: seq<nat>, b: seq<nat>, n: nat)
    requires Ready(g, v) && AreBytes(a) && AreBytes(b) && n <= |a| && n <= |b| && a[..n] == b[..n]
    ensures WriteAll(g, v, a, n) == WriteAll(g, v, b, n)
    decreases n
  {
    hide Write, Ready, IsScreen, InBounds;
    if n > 0 {
      assert a[..n - 1] == a[..n][..n - 1] == b[..n - 1];
      WriteAllPrefix(g, v, a, b, n - 1);
      assert a[n - 1] == a[..n][n - 1] == b[n - 1];
    }
  }

  lemma TypedSnoc(g: Geometry, v: View, a: seq<nat>, c: nat)
    requires Ready(g, v) && AreBytes(a) && c < 256
    ensures AreBytes(a + [c]) && Typed(g, v, a + [c]) == Write(g, Typed(g, v, a), c)
  {
    hide Write;
    WriteAllPrefix(g, v, a + [c], a, |a|);
  }

  lemma TypedOne(g: Geometry, v: View, c: nat)
    requires Ready(g, v) && c < 256
    ensures AreBytes([c]) && Typed(g, v, [c]) == Write(g, v, c)
  {
    hide Write;
    TypedSnoc(g, v, [], c);
    assert [] + [c] == [c];
  }

  /** Two texts in turn are their concatenation. */
  lemma {:induction false} TypedThen(g: Geometry, v: View, a: seq<nat>, b: seq<nat>)
    requires Ready(g, v) && AreBytes(a) && AreBytes(b)
    ensures AreBytes(a + b) && Typed(g, v, a + b) == Typed(g, Typed(g, v, a), b)
    decreases |b|
  {
    hide Write, Ready, Typed;
    if b == [] {
      assert a + b == a;
      TypedNothing(g, Typed(g, v, a));
    } else {
      var n := |b| - 1;
      var init := b[..n];
      TypedThen(g, v, a, init);
      TypedSnoc(g, v, a + init, b[n]);
      TypedSnoc(g, Typed(g, v, a), init, b[n]);
      assert a + b == (a + init) + [b[n]] && init + [b[n]] == b;
    }
  }

  lemma TypedNothing(g: Geometry, v: View)
    requires Ready(g, v)
    ensures Typed(g, v, []) == v
  {
  }

  // ---- the parser ---------------------------------------------------------

  const NO_PARAMS: seq<nat> := [0, 0, 0, 0, 0, 0, 0, 0]

  function Opened(v: View): View {
    v.(k := v.k.(ansi := Bracket, count := 0, current := 0, params := NO_PARAMS))
  }

  lemma Introduced(g: Geometry, v: View)
    requires Idle(g, v)
    ensures Typed(g, v, [27, 91]) == Opened(v)
  {
    hide Emit, Dispatch, IsScreen, Known;
    TypedOne(g, v, 27);
    TypedSnoc(g, v, [27], 91);
    assert [27] + [91] == [27, 91];
    assert seq(8, _ => 0) == NO_PARAMS;
  }

  /** A number arrives in the register, modulo 2^16. */
  lemma {:induction false} NumberRead(g: Geometry, v: View, n: nat)
    requires Ready(g, v) && v.k.ansi == Bracket && v.k.current == 0
    ensures AreBytes(Decimal(n)) && Typed(g, v, Decimal(n)) == v.(k := v.k.(current := Word(n)))
  {
    hide Emit, Dispatch, IsScreen, Known, Typed, Word;
    DigitRead(n);
    if n < 10 {
      TypedOne(g, v, 48 + n);
      assert [] + [48 + n % 10] == [48 + n];
    } else {
      NumberRead(g, v, n / 10);
      TypedSnoc(g, v, Decimal(n / 10), 48 + n % 10);
    }
  }

  lemma DigitRead(n: nat)
    ensures (Word(n / 10) * 10 % 0x1_0000 + n % 10) % 0x1_0000 == Word(n)
    ensures n < 10 ==> Word(n) == n
  {
    var m := n / 10;
    var q, w := m / 65536, m % 65536;
    var a, b := 10 * w / 65536, 10 * w % 65536;
    var y := b + n % 10;
    DivModUnique(n, 65536, 10 * q + a + y / 65536, y % 65536);
  }

  /** The parameter array holding the codes that are kept. */
  function Filled(codes: seq<nat>): (r: seq<nat>)
    ensures |r| == 8
  {
    Kept(codes) + NO_PARAMS[|Kept(codes)|..]
  }

  lemma FilledMore(codes: seq<nat>, c: nat)
    ensures |codes| < 8 ==> Filled(codes + [c]) == Filled(codes)[|codes| := c]
    ensures |codes| >= 8 ==> Filled(codes + [c]) == Filled(codes)
  {
  }

  /** The parser after some parameters, the last still in the register. */
  function Reading(v: View, codes: seq<nat>, last: nat): View {
    v.(k := v.k.(ansi := Bracket, count := Min(|codes|, 8), current := last, params := Filled(codes)))
  }

  lemma ReadingReady(g: Geometry, v: View, codes: seq<nat>, last: nat)
    requires Idle(g, v)
    ensures Ready(g, Reading(v, codes, last))
  {
    hide IsScreen, Known;
  }

  lemma SemicolonRead(g: Geometry, v: View, codes: seq<nat>, last: nat)
    requires Idle(g, v)
    ensures Ready(g, Reading(v, codes, last)) && Write(g, Reading(v, codes, last), 59) == Reading(v, codes + [last], 0)
  {
    hide Emit, Dispatch, IsScreen, Known, Filled;
    ReadingReady(g, v, codes, last);
    FilledMore(codes, last);
  }

  lemma {:induction false} CodesRead(g: Geometry, v: View, codes: seq<nat>)
    requires Idle(g, v) && codes != []
    ensures Ready(g, Opened(v))
    ensures Typed(g, Opened(v), Listed(codes)) == Reading(v, Words(codes[..|codes| - 1]), Word(codes[|codes| - 1]))
    decreases |codes|
  {
    hide Write, IsScreen, InBounds, Typed, Decimal, Word, Words, Reading;
    var n := |codes| - 1;
    WordsSnoc(codes);
    ReadingFirst(g, v, Word(codes[n]));
    if n == 0 {
      NumberRead(g, Opened(v), codes[0]);
    } else {
      var rest := codes[..n];
      CodesRead(g, v, rest);
      TypedSnoc(g, Opened(v), Listed(rest), 59);
      WordsSnoc(rest);
      SemicolonRead(g, v, Words(rest[..n - 1]), Word(rest[n - 1]));
      ReadingReady(g, v, Words(rest), 0);
      ReadingNext(v, Words(rest), Word(codes[n]));
      NumberRead(g, Reading(v, Words(rest), 0), codes[n]);
      TypedThen(g, Opened(v), Listed(rest) + [59], Decimal(codes[n]));
    }
  }

  lemma WordsSnoc(codes: seq<nat>)
    requires codes != []
    ensures Words(codes[..|codes| - 1]) + [Word(codes[|codes| - 1])] == Words(codes)
    ensures |codes| == 1 ==> Words(codes[..0]) == []
  {
    hide Word;
  }

  lemma ReadingFirst(g: Geometry, v: View, last: nat)
    requires Idle(g, v)
    ensures Ready(g, Opened(v)) && Opened(v).k.ansi == Bracket && Opened(v).k.current == 0
    ensures Opened(v).(k := Opened(v).k.(current := last)) == Reading(v, [], last)
  {
    hide IsScreen, Known;
    assert Filled([]) == NO_PARAMS;
  }

  lemma ReadingNext(v: View, codes: seq<nat>, last: nat)
    ensures
      var u := Reading(v, codes, 0);
      u.k.ansi == Bracket && u.k.current == 0 && u.(k := u.k.(current := last)) == Reading(v, codes, last)
  {
    hide Filled;
  }

  /** The parser when the final byte is acted on. */
  function Complete(v: View, codes: seq<nat>): View
    requires codes != []
  {
    v.(k := v.k.(ansi := Plain, count := Min(|codes|, 8), current := codes[|codes| - 1], params := Filled(codes)))
  }

  predicate IsFinal(c: nat) { c < 256 && !(48 <= c <= 57) && c != 59 }

  lemma FinalRead(g: Geometry, v: View, codes: seq<nat>, last: nat, c: nat)
    requires Idle(g, v) && IsFinal(c)
    ensures Ready(g, Reading(v, codes, last)) && Idle(g, Complete(v, codes + [last]))
    ensures Write(g, Reading(v, codes, last), c) == Dispatch(g, Complete(v, codes + [last]), c)
  {
    hide Dispatch, Emit, IsScreen, Known, Filled;
    FilledMore(codes, last);
  }

  lemma SequenceRead(g: Geometry, v: View, codes: seq<nat>, c: nat)
    requires Idle(g, v) && codes != [] && IsFinal(c)
    ensures Idle(g, Complete(v, Words(codes))) && AreBytes([27, 91] + Listed(codes) + [c])
    ensures Typed(g, v, [27, 91] + Listed(codes) + [c]) == Dispatch(g, Complete(v, Words(codes)), c)
  {
    hide Dispatch, Write, IsScreen, InBounds, Typed, Listed, Complete, Reading, Word;
    Introduced(g, v);
    CodesRead(g, v, codes);
    TypedThen(g, v, [27, 91], Listed(codes));
    TypedSnoc(g, v, [27, 91] + Listed(codes), c);
    var n := |codes| - 1;
    FinalRead(g, v, Words(codes[..n]), Word(codes[n]), c);
    WordsSnoc(codes);
  }

  lemma OneNumber(n: nat)
    ensures Listed([n]) == Decimal(n)
  {
  }

  /** A sequence with no digits reads as one parameter, 0. */
  lemma BareSequenceRead(g: Geometry, v: View, c: nat)
    requires Idle(g, v) && IsFinal(c)
    ensures Idle(g, Complete(v, [0])) && AreBytes([27, 91] + [] + [c])
    ensures Typed(g, v, [27, 91] + [] + [c]) == Dispatch(g, Complete(v, [0]), c)
  {
    hide Dispatch, Write, IsScreen, InBounds, Typed, Reading;
    Introduced(g, v);
    ReadingFirst(g, v, 0);
    FinalRead(g, v, [], 0, c);
    assert [27, 91] + [] + [c] == [27, 91] + [c] && [] + [0] == [0];
    TypedSnoc(g, v, [27, 91], c);
  }

  /** A number left out is a zero. */
  lemma NumberLeftOut(g: Geometry, v: View, c: nat)
    requires Idle(g, v) && IsFinal(c)
    ensures Typed(g, v, [27, 91, c]) == Typed(g, v, [27, 91, 48, c])
  {
    hide Dispatch, Typed, Idle, Complete;
    BareSequenceRead(g, v, c);
    OneDigit(0);
    Number1(g, v, 0, c);
    assert [27, 91] + [] + [c] == [27, 91, c] && [27, 91] + [48] + [c] == [27, 91, 48, c];
  }

  // ---- each command -------------------------------------------------------

  lemma Number1(g: Geometry, v: View, n: nat, c: nat)
    requires Idle(g, v) && IsFinal(c)
    ensures Idle(g, Complete(v, [Word(n)])) && AreBytes([27, 91] + Decimal(n) + [c])
    ensures Typed(g, v, [27, 91] + Decimal(n) + [c]) == Dispatch(g, Complete(v, [Word(n)]), c)
  {
    hide Dispatch, Typed, Idle, Complete, Decimal, Word;
    OneNumber(n);
    SequenceRead(g, v, [n], c);
    assert Words([n]) == [Word(n)];
  }

  lemma MotionDone(g: Geometry, v: View, cmd: Command)
    requires Idle(g, v) && cmd.Sendable() && (cmd.Up? || cmd.Down? || cmd.Right? || cmd.Left? || cmd.Unknown?)
    ensures var w := Typed(g, v, Encoded(cmd)); Idle(g, w) && Does(g, v, cmd, w)
  {
    hide IsScreen, Known, Typed, Decimal, EraseDisplay, EraseLine, SgrAll;
    var final := match cmd case Up(_) => 65 case Down(_) => 66 case Right(_) => 67 case Left(_) => 68
                           case Unknown(_, f) => f;
    Number1(g, v, cmd.n, final);
  }

  lemma PlaceDone(g: Geometry, v: View, r: nat, c: nat, hvp: bool)
    requires Idle(g, v)
    ensures var w := Typed(g, v, Encoded(Place(r, c, hvp))); Idle(g, w) && Does(g, v, Place(r, c, hvp), w)
  {
    hide IsScreen, Known, Typed, Listed, EraseDisplay, EraseLine, SgrAll, Word;
    SequenceRead(g, v, [r, c], if hvp then 102 else 72);
    assert Words([r, c]) == [Word(r), Word(c)];
  }

  lemma SavedDone(g: Geometry, v: View, cmd: Command)
    requires Idle(g, v) && (cmd.Save? || cmd.Restore?)
    ensures var w := Typed(g, v, Encoded(cmd)); Idle(g, w) && Does(g, v, cmd, w)
  {
    hide IsScreen, Known, Typed, EraseDisplay, EraseLine, SgrAll;
    BareSequenceRead(g, v, if cmd.Save? then 115 else 117);
  }

  lemma ErasedCell(l: nat, x: nat, row0: nat, row1: nat, col0: nat, col1: nat)
    ensures InCells(l, x, row0, row1, col0, col1) <==> row0 <= l / 16 < row1 && col0 <= x / 8 < col1
  {
  }

  lemma ScreenErased(g: Geometry, v: View, p: Part, mode: nat)
    requires Ready(g, v) && mode == PartDigit(p) - 48
    ensures
      var w := EraseDisplay(g, v, mode);
      w.k == v.k && IsScreen(g, w.s) && Blanked(g, v, w, p, false)
  {
    hide Erased, InCells;
    var w := EraseDisplay(g, v, mode);
    forall l: nat, x: nat {:trigger w.s[l][x]} | l < 16 * g.rows && x < 8 * g.cols
      ensures w.s[l][x] == if InPart(v, p, l, x) then v.k.bg else v.s[l][x]
    {
      ErasedCell(l, x, v.k.row, v.k.row + 1, v.k.col, g.cols);
      ErasedCell(l, x, v.k.row + 1, g.rows, 0, g.cols);
      ErasedCell(l, x, 0, v.k.row, 0, g.cols);
      ErasedCell(l, x, v.k.row, v.k.row + 1, 0, v.k.col + 1);
      ErasedCell(l, x, 0, g.rows, 0, g.cols);
    }
  }

  lemma RowErased(g: Geometry, v: View, p: Part, mode: nat)
    requires Ready(g, v) && mode == PartDigit(p) - 48
    ensures
      var w := EraseLine(g, v, mode);
      w.k == v.k && IsScreen(g, w.s) && Blanked(g, v, w, p, true)
  {
    hide Erased, InCells;
    var w := EraseLine(g, v, mode);
    forall l: nat, x: nat {:trigger w.s[l][x]} | l < 16 * g.rows && x < 8 * g.cols
      ensures w.s[l][x] == if InPart(v, p, l, x) && l / 16 == v.k.row then v.k.bg else v.s[l][x]
    {
      ErasedCell(l, x, v.k.row, v.k.row + 1, v.k.col, g.cols);
      ErasedCell(l, x, v.k.row, v.k.row + 1, 0, v.k.col + 1);
      ErasedCell(l, x, v.k.row, v.k.row + 1, 0, g.cols);
    }
  }

  lemma EraseDone(g: Geometry, v: View, cmd: Command)
    requires Idle(g, v) && (cmd.EraseScreen? || cmd.EraseRow?)
    ensures var w := Typed(g, v, Encoded(cmd)); Idle(g, w) && Does(g, v, cmd, w)
  {
    hide IsScreen, Known, Typed, SgrAll, EraseDisplay, EraseLine, Blanked, Decimal;
    var mode := PartDigit(cmd.part) - 48;
    OneDigit(mode);
    Number1(g, v, mode, if cmd.EraseScreen? then 74 else 75);
    var u := Complete(v, [mode]);
    ScreenErased(g, u, cmd.part, mode);
    RowErased(g, u, cmd.part, mode);
    SameBlanked(g, v, u, EraseDisplay(g, u, mode), cmd.part, false);
    SameBlanked(g, v, u, EraseLine(g, u, mode), cmd.part, true);
  }

  lemma OneDigit(n: nat)
    requires n < 10
    ensures Decimal(n) == [48 + n]
  {
  }

  lemma SameBlanked(g: Geometry, v: View, u: View, w: View, p: Part, row: bool)
    requires IsScreen(g, v.s) && IsScreen(g, w.s) && u.s == v.s && u.k.row == v.k.row && u.k.col == v.k.col
      && u.k.bg == v.k.bg
    ensures Blanked(g, u, w, p, row) <==> Blanked(g, v, w, p, row)
  {
  }

  // ---- colours ------------------------------------------------------------

  lemma {:induction false} BrightenedFrom(g: Geometry, color: nat, i: nat)
    requires |g.palette| == 16 && i <= 8 && color !in g.palette[..i]
    ensures Brighter(g.palette, color, Brightened(g, color, i))
    decreases 8 - i
  {
    if i == 8 {
    } else if color == g.palette[i] {
      assert g.palette[..8][i] == color;
    } else {
      assert g.palette[..i + 1] == g.palette[..i] + [g.palette[i]];
      BrightenedFrom(g, color, i + 1);
    }
  }

  function PenIn(k: Control): Pen { Pen(k.bold, k.fg, k.bg) }

  lemma SgrPaints(g: Geometry, k: Control, code: nat)
    requires |g.palette| == 16
    ensures Paints(g, PenIn(k), code, PenIn(Sgr(g, k, code)))
    ensures var r := Sgr(g, k, code); r == k.(bold := r.bold, fg := r.fg, bg := r.bg)
  {
    hide Brightened, Brighter;
    BrightenedFrom(g, k.fg, 0);
  }

  lemma {:induction false} SgrAllPaints(g: Geometry, k: Control, params: seq<nat>, codes: seq<nat>)
    requires |g.palette| == 16 && |codes| <= |params| && codes == params[..|codes|]
    ensures PaintsAll(g, PenIn(k), codes, PenIn(SgrAll(g, k, params, |codes|)))
    ensures var r := SgrAll(g, k, params, |codes|); r == k.(bold := r.bold, fg := r.fg, bg := r.bg)
    decreases |codes|
  {
    hide Sgr, Paints;
    if codes != [] {
      var n := |codes| - 1;
      SgrAllPaints(g, k, params, codes[..n]);
      SgrPaints(g, SgrAll(g, k, params, n), params[n]);
    }
  }

  lemma KeptWords(codes: seq<nat>)
    ensures Words(Kept(codes)) == Kept(Words(codes)) && |Kept(codes)| == Min(|codes|, 8)
    ensures Filled(Words(codes))[..|Kept(codes)|] == Words(Kept(codes))
  {
    hide Word;
  }

  lemma ColoursDone(g: Geometry, v: View, codes: seq<nat>)
    requires Idle(g, v) && Colours(codes).Sendable()
    ensures var w := Typed(g, v, Encoded(Colours(codes))); Idle(g, w) && Does(g, v, Colours(codes), w)
  {
    hide IsScreen, Known, Typed, Listed, EraseDisplay, EraseLine, SgrAll, PaintsAll, Words, Filled, Kept;
    SequenceRead(g, v, codes, 109);
    var u := Complete(v, Words(codes));
    KeptWords(codes);
    SgrAllPaints(g, u.k, u.k.params, Words(Kept(codes)));
  }

  // ---- characters ---------------------------------------------------------

  lemma ColumnBits(x: nat)
    requires x < 8
    ensures Pow2(7 - x) == COLUMN_BIT[x]
  {
    assert Pow2(1) == 2 && Pow2(2) == 4 && Pow2(3) == 8 && Pow2(4) == 16;
    assert Pow2(5) == 32 && Pow2(6) == 64 && Pow2(7) == 128;
  }

  lemma DrawnIsInked(g: Geometry, v: View, c: nat)
    requires Ready(g, v) && c < 256
    ensures IsInked(g, v, c, Drawn(g, v.s, c, v.k.col, v.k.row, v.k.fg, v.k.bg))
  {
    hide Drawn, InCells, Pow2, Known;
    var pic := Drawn(g, v.s, c, v.k.col, v.k.row, v.k.fg, v.k.bg);
    forall l: nat, x: nat {:trigger pic[l][x]} | l < 16 * g.rows && x < 8 * g.cols
      ensures pic[l][x] == Inked(g, v, c, l, x)
    {
      ErasedCell(l, x, v.k.row, v.k.row + 1, v.k.col, v.k.col + 1);
      ColumnBits(x % 8);
    }
  }

  lemma ScrollFeeds(g: Geometry, v: View, pic: Screen, w: View)
    requires Ready(g, v) && IsScreen(g, pic) && SamePen(v, w) && SameSaved(v, w)
    requires v.k.row + 1 < g.rows ==> At(w, v.k.row + 1, 0) && w.s == pic
    requires v.k.row + 1 >= g.rows ==> At(w, v.k.row, 0) && w.s == Scrolled(g, pic, v.k.bg)
    ensures IsScreen(g, w.s) && Fed(g, v, w, pic)
  {
    hide Scrolled, Known;
  }

  lemma CharacterDone(g: Geometry, v: View, c: nat)
    requires Ready(g, v) && c < 256 && c !in {8, 9, 10, 13}
    ensures var w := Emit(g, v, c); IsScreen(g, w.s) && Printed(g, v, w, c)
  {
    hide Drawn, Scrolled, IsInked, Fed, Known, IsScreen;
    var pic := Drawn(g, v.s, c, v.k.col, v.k.row, v.k.fg, v.k.bg);
    DrawnIsInked(g, v, c);
    if v.k.col + 1 == g.cols { ScrollFeeds(g, v, pic, Emit(g, v, c)); }
  }

  lemma PrintDone(g: Geometry, v: View, cmd: Command)
    requires Idle(g, v) && cmd.Sendable() && (cmd.Print? || cmd.Bare?)
    ensures var w := Typed(g, v, Encoded(cmd)); Idle(g, w) && Does(g, v, cmd, w)
  {
    hide Emit, Dispatch, IsScreen, Known, Typed, Printed;
    if cmd.Print? {
      TypedOne(g, v, cmd.c);
    } else {
      TypedOne(g, v, 27);
      TypedSnoc(g, v, [27], cmd.c);
      assert [27] + [cmd.c] == [27, cmd.c];
    }
    CharacterDone(g, v, cmd.c);
    EmitIdle(g, v, cmd.c);
  }

  lemma EmitIdle(g: Geometry, v: View, c: nat)
    requires Ready(g, v) && c < 256
    ensures Emit(g, v, c).k.ansi == v.k.ansi
  {
    hide Drawn, Scrolled;
  }

  lemma LineDone(g: Geometry, v: View, cmd: Command)
    requires Idle(g, v) && (cmd.NewLine? || cmd.Return? || cmd.Tab? || cmd.Back?)
    ensures var w := Typed(g, v, Encoded(cmd)); Idle(g, w) && Does(g, v, cmd, w)
  {
    hide Dispatch, IsScreen, Known, Typed, Drawn, Scrolled, Fed;
    var c := match cmd case NewLine => 10 case Return => 13 case Tab => 9 case Back => 8;
    TypedOne(g, v, c);
    NextStop(v.k.col);
    if cmd.NewLine? || (cmd.Tab? && v.k.col - v.k.col % 8 + 8 >= g.cols) { ScrollFeeds(g, v, v.s, Emit(g, v, c)); }
  }

  lemma NextStop(col: nat)
    ensures (col + 8) / 8 * 8 == col - col % 8 + 8
  {
  }

  // ---- programs -----------------------------------------------------------

  /** The console does what each command says. */
  lemma CommandDone(g: Geometry, v: View, cmd: Command)
    requires Idle(g, v) && cmd.Sendable()
    ensures var w := Typed(g, v, Encoded(cmd)); Idle(g, w) && Does(g, v, cmd, w)
  {
    hide Typed, Encoded, Idle, Does;
    match cmd
    case Place(r, c, hvp) => PlaceDone(g, v, r, c, hvp);
    case EraseScreen(_) => EraseDone(g, v, cmd);
    case EraseRow(_) => EraseDone(g, v, cmd);
    case Colours(codes) => ColoursDone(g, v, codes);
    case Save => SavedDone(g, v, cmd);
    case Restore => SavedDone(g, v, cmd);
    case Print(_) => PrintDone(g, v, cmd);
    case Bare(_) => PrintDone(g, v, cmd);
    case NewLine => LineDone(g, v, cmd);
    case Return => LineDone(g, v, cmd);
    case Tab => LineDone(g, v, cmd);
    case Back => LineDone(g, v, cmd);
    case _ => MotionDone(g, v, cmd);
  }

  ghost predicate AllSendable(cmds: seq<Command>) {
    forall i {:trigger cmds[i]} :: 0 <= i < |cmds| ==> cmds[i].Sendable()
  }

  function EncodedAll(cmds: seq<Command>): (bytes: seq<nat>)
    requires AllSendable(cmds)
    ensures forall i {:trigger bytes[i]} :: 0 <= i < |bytes| ==> bytes[i] < 256
  {
    if cmds == [] then [] else EncodedAll(cmds[..|cmds| - 1]) + Encoded(cmds[|cmds| - 1])
  }

  /** The view after the first j commands. */
  ghost function Reached(g: Geometry, v: View, cmds: seq<Command>, j: nat): View
    requires Idle(g, v) && AllSendable(cmds) && j <= |cmds|
  {
    Typed(g, v, EncodedAll(cmds[..j]))
  }

  /** A program of commands, typed as one stream of bytes, does each of them in turn. */
  lemma {:induction false} ProgramDone(g: Geometry, v: View, cmds: seq<Command>, j: nat)
    requires Idle(g, v) && AllSendable(cmds) && j <= |cmds|
    ensures Idle(g, Reached(g, v, cmds, j))
    ensures j > 0 ==> Idle(g, Reached(g, v, cmds, j - 1)) && Does(g, Reached(g, v, cmds, j - 1), cmds[j - 1],
      Reached(g, v, cmds, j))
    decreases j
  {
    hide Typed, Encoded, Does;
    if j == 0 {
      TypedNothing(g, v);
    } else {
      ProgramDone(g, v, cmds, j - 1);
      assert cmds[..j][..j - 1] == cmds[..j - 1];
      CommandDone(g, Reached(g, v, cmds, j - 1), cmds[j - 1]);
      TypedThen(g, v, EncodedAll(cmds[..j - 1]), Encoded(cmds[j - 1]));
    }
  }

  lemma DoesKeepsSaved(g: Geometry, v: View, cmd: Command, w: View)
    requires Idle(g, v) && Idle(g, w) && cmd.Sendable() && Does(g, v, cmd, w) && !cmd.Save?
    ensures SameSaved(v, w)
  {
    hide IsScreen, Known, PaintsAll, Blanked, IsInked, SamePen;
  }

  lemma {:induction false} SavedStays(g: Geometry, v: View, cmds: seq<Command>, j: nat)
    requires Idle(g, v) && AllSendable(cmds) && 0 < j <= |cmds|
    requires cmds[0].Save? && forall i {:trigger cmds[i]} :: 0 < i < j ==> !cmds[i].Save?
    ensures Reached(g, v, cmds, j).k.savedRow == v.k.row && Reached(g, v, cmds, j).k.savedCol == v.k.col
    decreases j
  {
    hide Typed, Encoded, IsScreen, Known, Fed, Printed, PaintsAll, Blanked;
    ProgramDone(g, v, cmds, j);
    ProgramDone(g, v, cmds, j - 1);
    if j == 1 {
      assert cmds[..0] == [];
      TypedNothing(g, v);
    } else {
      SavedStays(g, v, cmds, j - 1);
      DoesKeepsSaved(g, Reached(g, v, cmds, j - 1), cmds[j - 1], Reached(g, v, cmds, j));
    }
  }

  lemma ReachedAll(g: Geometry, v: View, cmds: seq<Command>)
    requires Idle(g, v) && AllSendable(cmds)
    ensures AreBytes(EncodedAll(cmds)) && Reached(g, v, cmds, |cmds|) == Typed(g, v, EncodedAll(cmds))
  {
    assert cmds[..|cmds|] == cmds;
  }

  lemma RestoredTo(g: Geometry, v: View, w: View, row: nat, col: nat)
    requires Idle(g, v) && Idle(g, w) && Does(g, v, Restore, w) && v.k.savedRow == row && v.k.savedCol == col
    ensures row < g.rows && col < g.cols ==> At(w, row, col)
  {
    hide IsScreen, Known;
  }

  /** Whatever is typed between a save and the next restore, the cursor comes back. */
  lemma CursorComesBack(g: Geometry, v: View, cmds: seq<Command>)
    requires Idle(g, v) && AllSendable(cmds) && |cmds| >= 2 && cmds[0].Save? && cmds[|cmds| - 1].Restore?
    requires forall i {:trigger cmds[i]} :: 0 < i < |cmds| ==> !cmds[i].Save?
    ensures AreBytes(EncodedAll(cmds)) && At(Typed(g, v, EncodedAll(cmds)), v.k.row, v.k.col)
  {
    hide Typed, EncodedAll, Does, Reached, IsScreen, Known;
    var n := |cmds|;
    ProgramDone(g, v, cmds, n);
    SavedStays(g, v, cmds, n - 1);
    RestoredTo(g, Reached(g, v, cmds, n - 1), Reached(g, v, cmds, n), v.k.row, v.k.col);
    ReachedAll(g, v, cmds);
  }
}
