/** The text console as one screen of pixels: what every byte does to the cursor, the
    colours and the picture, with no buffers. */
module ConsoleSpec {
  import opened Bits

  const MAX_ROWS: nat := 128
  const MAX_PARAMS: nat := 8

  /** Dimensions in characters, colours, and the 8 by 16 font. */
  datatype Geometry = Geometry(cols: nat, rows: nat, fg: nat, bg: nat, palette: seq<nat>, font: seq<nat>) {
    predicate Valid() {
      && 0 < cols && 0 < rows <= 128 && |palette| == 16 && |font| == 4096
      && (forall y {:trigger font[512 + y]} :: 0 <= y < 16 ==> font[512 + y] == 0)
    }
  }

  // ---- the picture --------------------------------------------------------

  /** Scan lines of the text area. */
  type Screen = seq<seq<nat>>

  predicate IsScreen(g: Geometry, s: Screen) {
    |s| == 16 * g.rows && forall l {:trigger s[l]} :: 0 <= l < |s| ==> |s[l]| == 8 * g.cols
  }

  predicate BitSet(bits: nat, x: nat)
    requires x < 8
  {
    bits / Pow2(7 - x) % 2 == 1
  }

  /** Pixel (x, y) of a character. */
  function GlyphPixel(g: Geometry, c: nat, y: nat, x: nat, fg: nat, bg: nat): nat
    requires g.Valid() && c < 256 && y < 16 && x < 8
  {
    if BitSet(g.font[c * 16 + y], x) then fg else bg
  }

  lemma SpaceIsBlank(g: Geometry, y: nat, x: nat, fg: nat, bg: nat)
    requires g.Valid() && y < 16 && x < 8
    ensures GlyphPixel(g, 32, y, x, fg, bg) == bg
  {
    assert g.font[512 + y] == 0;
    DivModUnique(0, Pow2(7 - x), 0, 0);
  }

  predicate InCells(l: nat, x: nat, row0: nat, row1: nat, col0: nat, col1: nat) {
    16 * row0 <= l < 16 * row1 && 8 * col0 <= x < 8 * col1
  }

  function DrawnPixel(g: Geometry, s: Screen, c: nat, col: nat, row: nat, fg: nat, bg: nat, l: nat, x: nat): nat
    requires g.Valid() && IsScreen(g, s) && c < 256 && l < 16 * g.rows && x < 8 * g.cols
  {
    if InCells(l, x, row, row + 1, col, col + 1) then GlyphPixel(g, c, l % 16, x % 8, fg, bg) else s[l][x]
  }

  function Drawn(g: Geometry, s: Screen, c: nat, col: nat, row: nat, fg: nat, bg: nat): (r: Screen)
    requires g.Valid() && IsScreen(g, s) && c < 256
    ensures IsScreen(g, r)
    ensures forall l, x {:trigger r[l][x]} :: 0 <= l < 16 * g.rows && 0 <= x < 8 * g.cols ==>
      r[l][x] == DrawnPixel(g, s, c, col, row, fg, bg, l, x)
  {
    seq(16 * g.rows, l requires 0 <= l < 16 * g.rows =>
      seq(8 * g.cols, x requires 0 <= x < 8 * g.cols
          && 0 <= l < 16 * g.rows => DrawnPixel(g, s, c, col, row, fg, bg, l, x)))
  }

  function ErasedPixel(s: Screen, row0: nat, row1: nat, col0: nat, col1: nat, bg: nat, l: nat, x: nat): nat
    requires l < |s| && x < |s[l]|
  {
    if InCells(l, x, row0, row1, col0, col1) then bg else s[l][x]
  }

  /** Cells of rows [row0, row1) and columns [col0, col1) filled with one colour. */
  function Erased(g: Geometry, s: Screen, row0: nat, row1: nat, col0: nat, col1: nat, bg: nat): (r: Screen)
    requires IsScreen(g, s)
    ensures IsScreen(g, r)
    ensures forall l, x {:trigger r[l][x]} :: 0 <= l < 16 * g.rows && 0 <= x < 8 * g.cols ==>
      r[l][x] == ErasedPixel(s, row0, row1, col0, col1, bg, l, x)
  {
    seq(16 * g.rows, l requires 0 <= l < 16 * g.rows =>
      seq(8 * g.cols, x requires 0 <= x < 8 * g.cols
          && 0 <= l < 16 * g.rows => ErasedPixel(s, row0, row1, col0, col1, bg, l, x)))
  }

  function ScrolledPixel(g: Geometry, s: Screen, bg: nat, l: nat, x: nat): nat
    requires IsScreen(g, s) && l < 16 * g.rows && x < 8 * g.cols
  {
    if l + 16 < 16 * g.rows then s[l + 16][x] else bg
  }

  /** One text row up; the last row filled with one colour. */
  function Scrolled(g: Geometry, s: Screen, bg: nat): (r: Screen)
    requires IsScreen(g, s)
    ensures IsScreen(g, r)
    ensures forall l, x {:trigger r[l][x]} :: 0 <= l < 16 * g.rows && 0 <= x < 8 * g.cols ==>
      r[l][x] == ScrolledPixel(g, s, bg, l, x)
  {
    seq(16 * g.rows, l requires 0 <= l < 16 * g.rows =>
      seq(8 * g.cols, x requires 0 <= x < 8 * g.cols && 0 <= l < 16 * g.rows => ScrolledPixel(g, s, bg, l, x)))
  }

  // ---- cursor, colours and the escape parser ------------------------------

  datatype Ansi = Plain | Escape | Bracket

  datatype Control = Control(col: nat, row: nat, ansi: Ansi, params: seq<nat>, count: nat, current: nat,
                             bold: bool, fg: nat, bg: nat, savedCol: nat, savedRow: nat)

  predicate Known(g: Geometry, color: nat) { color == g.fg || color == g.bg || color in g.palette }

  /** The cursor is on the screen and the colours are ones the console knows. */
  predicate InBounds(g: Geometry, k: Control) {
    && k.col < g.cols && k.row < g.rows && |k.params| == MAX_PARAMS && k.count <= MAX_PARAMS
    && Known(g, k.fg) && Known(g, k.bg)
  }

  function Min(a: nat, b: nat): nat { if a < b then a else b }

  /** A parameter, 0 when it is missing. */
  function Param(k: Control, i: nat): nat
    requires |k.params| == MAX_PARAMS && k.count <= MAX_PARAMS
  {
    if i < k.count then k.params[i] else 0
  }

  function OrOne(n: nat): nat { if n == 0 then 1 else n }

  function Reset(g: Geometry, k: Control): Control { k.(bold := false, fg := g.fg, bg := g.bg) }

  /** The bright variant of a normal palette colour. */
  function Brightened(g: Geometry, color: nat, i: nat): nat
    requires |g.palette| == 16 && i <= 8
    decreases 8 - i
  {
    if i == 8 then color else if color == g.palette[i] then g.palette[i + 8] else Brightened(g, color, i + 1)
  }

  /** One code of a colour sequence. */
  function Sgr(g: Geometry, k: Control, code: nat): Control
    requires |g.palette| == 16
  {
    if code == 0 then Reset(g, k)
    else if code == 1 then k.(bold := true, fg := Brightened(g, k.fg, 0))
    else if code == 22 then k.(bold := false)
    else if 30 <= code <= 37 then k.(fg := g.palette[if k.bold then code - 30 + 8 else code - 30])
    else if code == 39 then k.(fg := g.fg)
    else if 40 <= code <= 47 then k.(bg := g.palette[code - 40])
    else if code == 49 then k.(bg := g.bg)
    else if 90 <= code <= 97 then k.(fg := g.palette[code - 90 + 8])
    else if 100 <= code <= 107 then k.(bg := g.palette[code - 100 + 8])
    else k
  }

  function SgrAll(g: Geometry, k: Control, params: seq<nat>, n: nat): Control
    requires |g.palette| == 16 && n <= |params|
  {
    if n == 0 then k else Sgr(g, SgrAll(g, k, params, n - 1), params[n - 1])
  }

  datatype View = View(k: Control, s: Screen)

  function EraseDisplay(g: Geometry, v: View, mode: nat): View
    requires g.Valid() && IsScreen(g, v.s) && InBounds(g, v.k)
  {
    var k := v.k;
    if mode == 0 then
      v.(s := Erased(g, Erased(g, v.s, k.row, k.row + 1, k.col, g.cols, k.bg), k.row + 1, g.rows, 0, g.cols, k.bg))
    else if mode == 1 then
      v.(s := Erased(g, Erased(g, v.s, 0, k.row, 0, g.cols, k.bg), k.row, k.row + 1, 0, k.col + 1, k.bg))
    else if mode == 2 then v.(s := Erased(g, v.s, 0, g.rows, 0, g.cols, k.bg))
    else v
  }

  function EraseLine(g: Geometry, v: View, mode: nat): View
    requires g.Valid() && IsScreen(g, v.s) && InBounds(g, v.k)
  {
    var k := v.k;
    if mode == 0 then v.(s := Erased(g, v.s, k.row, k.row + 1, k.col, g.cols, k.bg))
    else if mode == 1 then v.(s := Erased(g, v.s, k.row, k.row + 1, 0, k.col + 1, k.bg))
    else if mode == 2 then v.(s := Erased(g, v.s, k.row, k.row + 1, 0, g.cols, k.bg))
    else v
  }

  function Dispatch(g: Geometry, v: View, c: nat): View
    requires g.Valid() && IsScreen(g, v.s) && InBounds(g, v.k)
  {
    var k := v.k;
    var a, b := Param(k, 0), Param(k, 1);
    if c == 109 then v.(k := if k.count == 0 then Reset(g, k) else SgrAll(g, k, k.params, k.count))
    else if c == 65 then v.(k := k.(row := if OrOne(a) <= k.row then k.row - OrOne(a) else 0))
    else if c == 66 then v.(k := k.(row := Min(k.row + OrOne(a), g.rows - 1)))
    else if c == 67 then v.(k := k.(col := Min(k.col + OrOne(a), g.cols - 1)))
    else if c == 68 then v.(k := k.(col := if OrOne(a) <= k.col then k.col - OrOne(a) else 0))
    else if c == 72 || c == 102 then v.(k := k.(row := Min(OrOne(a) - 1, g.rows - 1),
        col := Min(OrOne(b) - 1, g.cols - 1)))
    else if c == 74 then EraseDisplay(g, v, a)
    else if c == 75 then EraseLine(g, v, a)
    else if c == 115 then v.(k := k.(savedCol := k.col, savedRow := k.row))
    else if c == 117 then v.(k := k.(col := Min(k.savedCol, g.cols - 1), row := Min(k.savedRow, g.rows - 1)))
    else v
  }

  /** Where a control character leaves the cursor, before wrapping. */
  function Moved(k: Control, c: nat): Control {
    if c == 10 then k.(col := 0, row := k.row + 1)
    else if c == 13 then k.(col := 0)
    else if c == 9 then k.(col := (k.col + 8) / 8 * 8)
    else if c == 8 then k.(col := if k.col > 0 then k.col - 1 else 0)
    else k.(col := k.col + 1)
  }

  predicate Printable(c: nat) { c != 10 && c != 13 && c != 9 && c != 8 }

  function Emit(g: Geometry, v: View, c: nat): View
    requires g.Valid() && IsScreen(g, v.s) && InBounds(g, v.k) && c < 256
  {
    var k := v.k;
    var s := if Printable(c) then Drawn(g, v.s, c, k.col, k.row, k.fg, k.bg) else v.s;
    var m := Moved(k, c);
    var w := if m.col >= g.cols then m.(col := 0, row := m.row + 1) else m;
    if w.row >= g.rows then View(w.(row := g.rows - 1), Scrolled(g, s, w.bg)) else View(w, s)
  }

  /** Store the parameter being read, if there is room. */
  function Stored(k: Control): Control
    requires |k.params| == MAX_PARAMS && k.count <= MAX_PARAMS
  {
    if k.count < MAX_PARAMS then k.(params := k.params[k.count := k.current], count := k.count + 1) else k
  }

  /** One byte. */
  function Write(g: Geometry, v: View, c: nat): View
    requires g.Valid() && IsScreen(g, v.s) && InBounds(g, v.k) && c < 256
  {
    var k := v.k;
    match k.ansi
    case Plain => if c == 27 then v.(k := k.(ansi := Escape)) else Emit(g, v, c)
    case Escape =>
      if c == 91 then v.(k := k.(ansi := Bracket, count := 0, current := 0, params := seq(MAX_PARAMS, _ => 0)))
      else Emit(g, v.(k := k.(ansi := Plain)), c)
    case Bracket =>
      if 48 <= c <= 57 then v.(k := k.(current := (k.current * 10 % 0x1_0000 + (c - 48)) % 0x1_0000))
      else if c == 59 then v.(k := Stored(k).(current := 0))
      else Dispatch(g, v.(k := Stored(k).(ansi := Plain)), c)
  }

  // ---- every stream keeps the cursor on the screen ------------------------

  lemma {:induction false} BrightenedKnown(g: Geometry, color: nat, i: nat)
    requires |g.palette| == 16 && i <= 8 && Known(g, color)
    ensures Known(g, Brightened(g, color, i))
    decreases 8 - i
  {
    if i < 8 { BrightenedKnown(g, color, i + 1); }
  }

  lemma SgrInBounds(g: Geometry, k: Control, code: nat)
    requires g.Valid() && InBounds(g, k)
    ensures InBounds(g, Sgr(g, k, code)) && Sgr(g, k, code).params == k.params
  {
    BrightenedKnown(g, k.fg, 0);
  }

  lemma {:induction false} SgrAllInBounds(g: Geometry, k: Control, params: seq<nat>, n: nat)
    requires g.Valid() && InBounds(g, k) && n <= |params|
    ensures InBounds(g, SgrAll(g, k, params, n))
  {
    hide Sgr, InBounds;
    if n > 0 {
      SgrAllInBounds(g, k, params, n - 1);
      SgrInBounds(g, SgrAll(g, k, params, n - 1), params[n - 1]);
    }
  }

  lemma DispatchInBounds(g: Geometry, v: View, c: nat)
    requires g.Valid() && IsScreen(g, v.s) && InBounds(g, v.k)
    ensures IsScreen(g, Dispatch(g, v, c).s) && InBounds(g, Dispatch(g, v, c).k)
  {
    hide Known, SgrAll, Erased;
    SgrAllInBounds(g, v.k, v.k.params, v.k.count);
    ResetKnown(g);
  }

  lemma ResetKnown(g: Geometry)
    ensures Known(g, g.fg) && Known(g, g.bg)
  {
  }

  lemma EmitInBounds(g: Geometry, v: View, c: nat)
    requires g.Valid() && IsScreen(g, v.s) && InBounds(g, v.k) && c < 256
    ensures IsScreen(g, Emit(g, v, c).s) && InBounds(g, Emit(g, v, c).k)
  {
    hide Known, Drawn, Scrolled;
  }

  lemma WriteInBounds(g: Geometry, v: View, c: nat)
    requires g.Valid() && IsScreen(g, v.s) && InBounds(g, v.k) && c < 256
    ensures IsScreen(g, Write(g, v, c).s) && InBounds(g, Write(g, v, c).k)
  {
    hide Known, Emit, Dispatch, IsScreen;
    match v.k.ansi
    case Plain => EmitInBounds(g, v, c);
    case Escape => EmitInBounds(g, v.(k := v.k.(ansi := Plain)), c);
    case Bracket => DispatchInBounds(g, v.(k := Stored(v.k).(ansi := Plain)), c);
  }

  /** A whole stream. */
  function WriteAll(g: Geometry, v: View, bytes: seq<nat>, n: nat): (r: View)
    requires g.Valid() && IsScreen(g, v.s) && InBounds(g, v.k) && n <= |bytes|
    requires forall i {:trigger bytes[i]} :: 0 <= i < |bytes| ==> bytes[i] < 256
    ensures IsScreen(g, r.s) && InBounds(g, r.k)
  {
    if n == 0 then v else
      var w := WriteAll(g, v, bytes, n - 1);
      WriteInBounds(g, w, bytes[n - 1]);
      Write(g, w, bytes[n - 1])
  }
}
