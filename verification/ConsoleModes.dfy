/** The console as built: a ring of scan lines, a linear shadow, or a grid of cells, with
    dirty rows copied to video memory on a flush.  Memory is addressed by scan line and
    pixel. */
module ConsoleModes {
  import opened ConsoleSpec

  /** Columns of the cell grid; only text mode keeps one. */
  const MAX_COLS: nat := 240

  datatype Mode = Ring | Linear | Text

  /** A character with palette indices: 255 the default foreground, 254 the default
      background. */
  datatype Cell = Cell(ch: nat, fgIdx: nat, bgIdx: nat)

  const DEFAULT_FG: nat := 255
  const DEFAULT_BG: nat := 254

  function FirstInPalette(palette: seq<nat>, color: nat, i: nat): nat
    requires i <= |palette| == 16
    decreases 16 - i
  {
    if i == 16 then DEFAULT_FG else if palette[i] == color then i else FirstInPalette(palette, color, i + 1)
  }

  function PaletteIndex(g: Geometry, color: nat): nat
    requires |g.palette| == 16
  {
    if color == g.fg then DEFAULT_FG else if color == g.bg then DEFAULT_BG else FirstInPalette(g.palette, color, 0)
  }

  function ResolveColor(g: Geometry, idx: nat): nat
    requires |g.palette| == 16
  {
    if idx == DEFAULT_FG then g.fg else if idx == DEFAULT_BG then g.bg else if idx < 16 then g.palette[idx] else g.fg
  }

  lemma {:induction false} FirstFound(palette: seq<nat>, color: nat, i: nat)
    requires i <= |palette| == 16 && color in palette[i..]
    ensures FirstInPalette(palette, color, i) < 16 && palette[FirstInPalette(palette, color, i)] == color
    decreases 16 - i
  {
    if palette[i] != color {
      assert palette[i..] == [palette[i]] + palette[i + 1..];
      FirstFound(palette, color, i + 1);
    }
  }

  /** Known colours survive the trip through a palette index. */
  lemma ColorRoundTrip(g: Geometry, color: nat)
    requires |g.palette| == 16 && Known(g, color)
    ensures ResolveColor(g, PaletteIndex(g, color)) == color
  {
    if color != g.fg && color != g.bg {
      assert g.palette[0..] == g.palette;
      FirstFound(g.palette, color, 0);
    }
  }

  function CellPixel(g: Geometry, cell: Cell, y: nat, x: nat): nat
    requires g.Valid() && cell.ch < 256 && y < 16 && x < 8
  {
    GlyphPixel(g, cell.ch, y, x, ResolveColor(g, cell.fgIdx), ResolveColor(g, cell.bgIdx))
  }

  /** The control state after start-up, and a screen of one colour. */
  function Start(g: Geometry): Control {
    Control(0, 0, Plain, seq(MAX_PARAMS, _ => 0), 0, 0, false, g.fg, g.bg, 0, 0)
  }

  function Solid(g: Geometry): (s: Screen)
    ensures IsScreen(g, s)
    ensures forall l, x {:trigger s[l][x]} :: 0 <= l < 16 * g.rows && 0 <= x < 8 * g.cols ==> s[l][x] == g.bg
  {
    seq(16 * g.rows, _ => seq(8 * g.cols, _ => g.bg))
  }

  class Console {
    const g: Geometry
    const mode: Mode
    const width: nat
    const height: nat
    const pitch: nat
    const vram: array2<nat>
    const shadow: array2<nat>
    const grid: array2<Cell>
    const dirty: array<bool>
    /** First visible line of the shadow. */
    var top: nat
    var k: Control
    ghost var s: Screen

    ghost predicate Shape()
      reads `top, `s
    {
      && g.Valid() && g.cols == width / 8 && g.rows == height / 16 && width <= pitch
      && vram.Length0 == height && vram.Length1 == pitch && vram != shadow
      && dirty.Length == MAX_ROWS && grid.Length0 == MAX_ROWS && grid.Length1 == MAX_COLS
      && (mode.Text? ==> g.cols <= MAX_COLS)
      && (!mode.Text? ==> shadow.Length1 == pitch && top + height <= shadow.Length0)
      && (mode.Linear? ==> top == 0)
      && (mode.Ring? ==> 2 * height <= shadow.Length0)
      && IsScreen(g, s)
    }

    /** The buffer behind the screen holds it. */
    ghost predicate Backed()
      requires Shape()
      reads `top, `s, shadow, grid
    {
      if mode.Text? then
        && (forall r, c {:trigger grid[r, c]} :: 0 <= r < g.rows && 0 <= c < g.cols ==> grid[r, c].ch < 256)
        && (forall l, x {:trigger s[l][x]} :: 0 <= l < 16 * g.rows && 0 <= x < 8 * g.cols ==>
              CellPixel(g, grid[l / 16, x / 8], l % 16, x % 8) == s[l][x])
      else
        forall l, x {:trigger s[l][x]} :: 0 <= l < 16 * g.rows && 0 <= x < 8 * g.cols ==> shadow[top + l, x] == s[l][x]
    }

    /** Rows that are not dirty already match video memory. */
    ghost predicate Clean()
      requires Shape()
      reads `top, `s, vram, dirty
    {
      forall l, x {:trigger s[l][x]} :: 0 <= l < 16 * g.rows && 0 <= x < 8 * g.cols && !dirty[l / 16] ==>
        vram[l, x] == s[l][x]
    }

    ghost predicate Valid()
      reads this, vram, shadow, grid, dirty
    {
      Shape() && InBounds(g, k) && Backed() && Clean()
    }

    /** Allocate the buffers of the given mode and clear the screen. */
    constructor (g0: Geometry, m: Mode, w: nat, h: nat, p: nat, shadowLines: nat, video: array2<nat>)
      requires g0.Valid() && g0.cols == w / 8 && g0.rows == h / 16 && w <= p && video.Length0 == h && video.Length1 == p
      requires m.Text? ==> g0.cols <= 240
      requires !m.Text? ==> h <= shadowLines
      requires m.Ring? ==> 2 * h <= shadowLines
      modifies video
      ensures Valid() && g == g0 && mode == m && vram == video
      ensures Shown() == View(Start(g0), Solid(g0))
      ensures k.row == 0 && k.col == 0 && k.ansi == Plain && !k.bold && k.fg == g0.fg && k.bg == g0.bg
      ensures forall l, x {:trigger s[l][x]} :: 0 <= l < 16 * g.rows && 0 <= x < 8 * g.cols ==> s[l][x] == g0.bg
      ensures forall l, x {:trigger s[l][x]} :: 0 <= l < 16 * g.rows && 0 <= x < 8 * g.cols ==> vram[l, x] == s[l][x]
      ensures fresh(shadow) && fresh(grid) && fresh(dirty)
    {
      g, mode, width, height, pitch, vram, top, k, s := g0, m, w, h, p, video, 0, Start(g0), Solid(g0);
      shadow := new nat[shadowLines, p]((_, _) => 0);
      grid := new Cell[MAX_ROWS, MAX_COLS]((_, _) => Cell(0, 0, 0));
      dirty := new bool[MAX_ROWS](_ => false);
      new;
      ClearScreen();
    }

    method ClearScreen()
      requires Shape() && s == Solid(g) && k == Start(g)
      modifies vram, shadow, grid, dirty
      ensures Valid()
      ensures forall l, x {:trigger s[l][x]} :: 0 <= l < 16 * g.rows && 0 <= x < 8 * g.cols ==> vram[l, x] == s[l][x]
    {
      if mode.Text? {
        hide ResolveColor, PaletteIndex, GlyphPixel;
        var blank := Cell(32, DEFAULT_FG, PaletteIndex(g, g.bg));
        ColorRoundTrip(g, g.bg);
        BlankPixels(g, blank);
        BlankGrid(blank);
      } else {
        FillLines(top, 0, width, height, g.bg);
      }
      MarkAllDirty();
      Flush();
    }

    method BlankGrid(blank: Cell)
      requires Shape() && mode.Text?
      modifies grid
      ensures forall r, c {:trigger grid[r, c]} :: 0 <= r < g.rows && 0 <= c < g.cols ==> grid[r, c] == blank
    {
      for r := 0 to g.rows
        invariant forall i, c {:trigger grid[i, c]} :: 0 <= i < r && 0 <= c < g.cols ==> grid[i, c] == blank
      {
        for c := 0 to g.cols
          invariant forall i, j {:trigger grid[i, j]} :: 0 <= i < r && 0 <= j < g.cols ==> grid[i, j] == blank
          invariant forall j {:trigger grid[r, j]} :: 0 <= j < c ==> grid[r, j] == blank
        {
          grid[r, c] := blank;
        }
      }
    }

    /** One line of a glyph into the shadow. */
    method PutLine(line: nat, px: nat, bits: nat, fg: nat, bg: nat)
      requires line < shadow.Length0 && px + 8 <= shadow.Length1
      modifies shadow
      ensures forall i, j {:trigger shadow[i, j]} :: 0 <= i < shadow.Length0 && 0 <= j < shadow.Length1 ==>
        shadow[i, j] == if i == line && px <= j < px + 8 then (if BitSet(bits, j - px) then fg else bg)
            else old(shadow[i, j])
    {
      for b := 0 to 8
        invariant forall i, j {:trigger shadow[i, j]} :: 0 <= i < shadow.Length0 && 0 <= j < shadow.Length1 ==>
          shadow[i, j] == if i == line && px <= j < px + b then (if BitSet(bits, j - px) then fg else bg)
              else old(shadow[i, j])
      {
        shadow[line, px + b] := if BitSet(bits, b) then fg else bg;
      }
    }

    /** A glyph into the shadow. */
    method PutGlyph(c: nat, col: nat, row: nat, fg: nat, bg: nat)
      requires Shape() && !mode.Text? && c < 256 && col < g.cols && row < g.rows
      modifies shadow
      ensures forall i, j {:trigger shadow[i, j]} :: 0 <= i < shadow.Length0 && 0 <= j < shadow.Length1 ==>
        shadow[i, j] == if top + 16 * row <= i < top + 16 * row + 16 && 8 * col <= j < 8 * col + 8
                        then GlyphPixel(g, c, i - top - 16 * row, j - 8 * col, fg, bg) else old(shadow[i, j])
    {
      for y := 0 to 16
        invariant forall i, j {:trigger shadow[i, j]} :: 0 <= i < shadow.Length0 && 0 <= j < shadow.Length1 ==>
          shadow[i, j] == if top + 16 * row <= i < top + 16 * row + y && 8 * col <= j < 8 * col + 8
                          then GlyphPixel(g, c, i - top - 16 * row, j - 8 * col, fg, bg) else old(shadow[i, j])
      {
        PutLine(top + 16 * row + y, 8 * col, g.font[c * 16 + y], fg, bg);
      }
    }

    /** Draw a character: pixels in the shadow, or a cell of the grid. */
    method DrawGlyph(c: nat, col: nat, row: nat, fg: nat, bg: nat)
      requires Valid() && c < 256 && col < g.cols && row < g.rows && Known(g, fg) && Known(g, bg)
      modifies `s, shadow, grid, dirty
      ensures Valid() && s == Drawn(g, old(s), c, col, row, fg, bg)
    {
      hide Shape, Backed, Clean, Drawn;
      if mode.Text? {
        DrawCell(c, col, row, fg, bg);
      } else {
        DrawPixels(c, col, row, fg, bg);
      }
    }

    method DrawCell(c: nat, col: nat, row: nat, fg: nat, bg: nat)
      requires Valid() && mode.Text? && c < 256 && col < g.cols && row < g.rows && Known(g, fg) && Known(g, bg)
      modifies `s, grid, dirty
      ensures Valid() && s == Drawn(g, old(s), c, col, row, fg, bg)
    {
      hide Drawn, GlyphPixel, ResolveColor, PaletteIndex, Known;
      ColorRoundTrip(g, fg);
      ColorRoundTrip(g, bg);
      grid[row, col] := Cell(c, PaletteIndex(g, fg), PaletteIndex(g, bg));
      dirty[row] := true;
      s := Drawn(g, s, c, col, row, fg, bg);
    }

    method DrawShadow(c: nat, col: nat, row: nat, fg: nat, bg: nat)
      requires Valid() && !mode.Text? && c < 256 && col < g.cols && row < g.rows
      modifies shadow
      ensures forall l, x {:trigger DrawnPixel(g, s, c, col, row, fg, bg, l, x)} ::
        0 <= l < 16 * g.rows && 0 <= x < 8 * g.cols ==>
        shadow[top + l, x] == DrawnPixel(g, s, c, col, row, fg, bg, l, x)
    {
      hide GlyphPixel, Clean, Known;
      PutGlyph(c, col, row, fg, bg);
    }

    method DrawPixels(c: nat, col: nat, row: nat, fg: nat, bg: nat)
      requires Valid() && !mode.Text? && c < 256 && col < g.cols && row < g.rows
      modifies `s, shadow, dirty
      ensures Valid() && s == Drawn(g, old(s), c, col, row, fg, bg)
    {
      hide Drawn, GlyphPixel, Known;
      DrawShadow(c, col, row, fg, bg);
      dirty[row] := true;
      s := Drawn(g, s, c, col, row, fg, bg);
    }

    /** Fill one line of the shadow. */
    method FillLine(line: nat, x: nat, w: nat, color: nat)
      requires line < shadow.Length0 && x + w <= shadow.Length1
      modifies shadow
      ensures forall i, j {:trigger shadow[i, j]} :: 0 <= i < shadow.Length0 && 0 <= j < shadow.Length1 ==>
        shadow[i, j] == if i == line && x <= j < x + w then color else old(shadow[i, j])
    {
      for n := 0 to w
        invariant forall i, j {:trigger shadow[i, j]} :: 0 <= i < shadow.Length0 && 0 <= j < shadow.Length1 ==>
          shadow[i, j] == if i == line && x <= j < x + n then color else old(shadow[i, j])
      {
        shadow[line, x + n] := color;
      }
    }

    method FillLines(line: nat, x: nat, w: nat, h: nat, color: nat)
      requires line + h <= shadow.Length0 && x + w <= shadow.Length1
      modifies shadow
      ensures forall i, j {:trigger shadow[i, j]} :: 0 <= i < shadow.Length0 && 0 <= j < shadow.Length1 ==>
        shadow[i, j] == if line <= i < line + h && x <= j < x + w then color else old(shadow[i, j])
    {
      for y := 0 to h
        invariant forall i, j {:trigger shadow[i, j]} :: 0 <= i < shadow.Length0 && 0 <= j < shadow.Length1 ==>
          shadow[i, j] == if line <= i < line + y && x <= j < x + w then color else old(shadow[i, j])
      {
        FillLine(line + y, x, w, color);
      }
    }

    /** Fill pixels of one text row from a column on; col1 is the last column covered. */
    method FillRow(row: nat, col0: nat, w: nat, color: nat, ghost col1: nat)
      requires Valid() && !mode.Text? && row < g.rows && col0 <= col1 <= g.cols && 8 * col0 + w <= width
      requires 8 * col0 + w == 8 * col1 || (col1 == g.cols && 8 * col0 + w >= 8 * g.cols)
      modifies `s, shadow, dirty
      ensures Valid() && s == Erased(g, old(s), row, row + 1, col0, col1, color)
    {
      hide Erased, Known;
      ghost var t := Erased(g, s, row, row + 1, col0, col1, color);
      FillLines(top + 16 * row, 8 * col0, w, 16, color);
      forall l, x {:trigger t[l][x]} | 0 <= l < 16 * g.rows && 0 <= x < 8 * g.cols
        ensures shadow[top + l, x] == t[l][x] {
        assert t[l][x] == ErasedPixel(s, row, row + 1, col0, col1, color, l, x);
      }
      dirty[row] := true;
      s := t;
    }

    method FillRows(row0: nat, row1: nat, color: nat)
      requires Valid() && !mode.Text? && row0 <= row1 <= g.rows
      modifies `s, shadow, dirty
      ensures Valid() && s == Erased(g, old(s), row0, row1, 0, g.cols, color)
    {
      hide Erased;
      NothingErased(g, s, row0, 0, g.cols, color);
      for r := row0 to row1
        invariant Valid() && s == Erased(g, old(s), row0, r, 0, g.cols, color)
      {
        FillRow(r, 0, width, color, g.cols);
        ErasedMore(g, old(s), row0, r, color);
      }
    }

    /** Blank cells of the grid. */
    method ClearCells(col0: nat, row0: nat, col1: nat, row1: nat)
      requires Valid() && mode.Text? && col0 <= col1 <= g.cols && row0 <= row1 <= g.rows
      modifies `s, grid, dirty
      ensures Valid() && s == Erased(g, old(s), row0, row1, col0, col1, k.bg)
    {
      hide Erased, ResolveColor, PaletteIndex;
      ColorRoundTrip(g, k.bg);
      var blank := Cell(32, DEFAULT_FG, PaletteIndex(g, k.bg));
      NothingErased(g, s, row0, col0, col1, k.bg);
      for r := row0 to row1
        invariant Valid() && s == Erased(g, old(s), row0, r, col0, col1, k.bg)
      {
        ClearRow(r, col0, col1, blank);
        ErasedRowMore(g, old(s), row0, r, col0, col1, k.bg);
      }
    }

    method ClearRow(r: nat, col0: nat, col1: nat, blank: Cell)
      requires Valid() && mode.Text? && col0 <= col1 <= g.cols && r < g.rows
      requires blank.ch == 32 && ResolveColor(g, blank.bgIdx) == k.bg
      modifies `s, grid, dirty
      ensures Valid() && s == Erased(g, old(s), r, r + 1, col0, col1, k.bg)
    {
      hide Erased, ResolveColor, GlyphPixel;
      for c := col0 to col1
        invariant unchanged(`s) && unchanged(dirty)
        invariant forall i, j {:trigger grid[i, j]} :: 0 <= i < grid.Length0 && 0 <= j < grid.Length1 ==>
          grid[i, j] == if i == r && col0 <= j < c then blank else old(grid[i, j])
      {
        grid[r, c] := blank;
      }
      dirty[r] := true;
      BlankPixels(g, blank);
      s := Erased(g, s, r, r + 1, col0, col1, k.bg);
    }

    /** Move n lines of the shadow down in memory, overlap allowed. */
    method CopyLines(src: nat, dst: nat, n: nat)
      requires dst <= src && src + n <= shadow.Length0
      modifies shadow
      ensures forall i, j {:trigger shadow[i, j]} :: dst <= i < dst + n && 0 <= j < shadow.Length1 ==>
        shadow[i, j] == old(shadow[i + (src - dst), j])
      ensures forall i, j {:trigger shadow[i, j]} ::
        (0 <= i < dst || dst + n <= i < shadow.Length0) && 0 <= j < shadow.Length1 ==>
        shadow[i, j] == old(shadow[i, j])
    {
      ghost var gap := src - dst;
      for y := 0 to n
        invariant forall i, j {:trigger shadow[i, j]} :: dst <= i < dst + y && 0 <= j < shadow.Length1 ==>
          shadow[i, j] == old(shadow[i + gap, j])
        invariant forall i, j {:trigger shadow[i, j]} ::
          (0 <= i < dst || dst + y <= i < shadow.Length0) && 0 <= j < shadow.Length1 ==>
          shadow[i, j] == old(shadow[i, j])
      {
        CopyLine(src + y, dst + y);
      }
    }

    method CopyLine(src: nat, dst: nat)
      requires src < shadow.Length0 && dst < shadow.Length0
      modifies shadow
      ensures forall j {:trigger shadow[dst, j]} :: 0 <= j < shadow.Length1 ==> shadow[dst, j] == old(shadow[src, j])
      ensures forall i, j {:trigger shadow[i, j]} :: 0 <= i < shadow.Length0 && i != dst && 0 <= j < shadow.Length1 ==>
        shadow[i, j] == old(shadow[i, j])
    {
      for x := 0 to shadow.Length1
        invariant forall j {:trigger shadow[dst, j]} :: 0 <= j < shadow.Length1 ==>
          shadow[dst, j] == if j < x then old(shadow[src, j]) else old(shadow[dst, j])
        invariant forall i, j {:trigger shadow[i, j]} ::
          0 <= i < shadow.Length0 && i != dst && 0 <= j < shadow.Length1 ==>
          shadow[i, j] == old(shadow[i, j])
      {
        shadow[dst, x] := shadow[src, x];
      }
    }

    method MarkAllDirty()
      requires g.rows <= dirty.Length
      modifies dirty
      ensures forall r {:trigger dirty[r]} :: 0 <= r < g.rows ==> dirty[r]
    {
      for r := 0 to g.rows
        invariant forall q {:trigger dirty[q]} :: 0 <= q < r ==> dirty[q]
      {
        dirty[r] := true;
      }
    }

    /** Scroll the shadow: advance the ring, compacting when it is used up, or move the
        lines. */
    method AdvanceShadow()
      requires Valid() && !mode.Text?
      modifies `top, shadow
      ensures Shape()
      ensures forall l, x {:trigger ScrolledPixel(g, s, k.bg, l, x)} ::
        0 <= l < 16 * (g.rows - 1) && 0 <= x < 8 * g.cols ==> shadow[top + l, x] == ScrolledPixel(g, s, k.bg, l, x)
    {
      if mode.Ring? {
        top := top + 16;
        if top + height > shadow.Length0 {
          CopyLines(top, 0, height - 16);
          top := 0;
        }
      } else {
        CopyLines(top + 16, top, height - 16);
      }
    }

    method ScrollShadow()
      requires Valid() && !mode.Text?
      modifies `top, shadow
      ensures Shape()
      ensures forall l, x :: 0 <= l < 16 * g.rows && 0 <= x < 8 * g.cols ==>
        shadow[top + l, x] == ScrolledPixel(g, s, k.bg, l, x)
    {
      AdvanceShadow();
      FillLines(top + 16 * (g.rows - 1), 0, width, 16, k.bg);
    }

    method ScrollGrid(blank: Cell)
      requires Shape() && mode.Text?
      modifies grid
      ensures forall r, c {:trigger grid[r, c]} :: 0 <= r < g.rows && 0 <= c < g.cols ==>
        grid[r, c] == if r + 1 < g.rows then old(grid[r + 1, c]) else blank
    {
      for r := 1 to g.rows
        invariant forall i, c {:trigger grid[i, c]} :: 0 <= i < g.rows && 0 <= c < g.cols ==>
          grid[i, c] == old(grid[if i < r - 1 then i + 1 else i, c])
      {
        CopyCells(r, r - 1);
      }
      BlankRow(g.rows - 1, blank);
    }

    method BlankRow(row: nat, blank: Cell)
      requires Shape() && mode.Text? && row < g.rows
      modifies grid
      ensures forall i, j {:trigger grid[i, j]} :: 0 <= i < g.rows && 0 <= j < g.cols ==>
        grid[i, j] == if i == row then blank else old(grid[i, j])
    {
      for c := 0 to g.cols
        invariant forall i, j {:trigger grid[i, j]} :: 0 <= i < g.rows && 0 <= j < g.cols ==>
          grid[i, j] == if i == row && j < c then blank else old(grid[i, j])
      {
        grid[row, c] := blank;
      }
    }

    method CopyCells(src: nat, dst: nat)
      requires Shape() && mode.Text? && src < g.rows && dst < g.rows
      modifies grid
      ensures forall i, c {:trigger grid[i, c]} :: 0 <= i < g.rows && 0 <= c < g.cols ==>
        grid[i, c] == old(grid[if i == dst then src else i, c])
    {
      for x := 0 to g.cols
        invariant forall i, c {:trigger grid[i, c]} :: 0 <= i < g.rows && 0 <= c < g.cols ==>
          grid[i, c] == old(grid[if i == dst && c < x then src else i, c])
      {
        grid[dst, x] := grid[src, x];
      }
    }

    /** Scroll up one text row. */
    method ScrollUp()
      requires Valid()
      modifies `s, `top, shadow, grid, dirty
      ensures Valid() && s == Scrolled(g, old(s), k.bg)
    {
      hide Scrolled, ResolveColor, PaletteIndex, GlyphPixel;
      if mode.Text? {
        ColorRoundTrip(g, k.bg);
        var blank := Cell(32, DEFAULT_FG, PaletteIndex(g, k.bg));
        BlankPixels(g, blank);
        ScrollGrid(blank);
      } else {
        ScrollShadow();
      }
      MarkAllDirty();
      s := Scrolled(g, s, k.bg);
    }

    // ---- flushing -----------------------------------------------------------

    /** Copy one text row of the shadow to video memory. */
    method FlushRow(row: nat)
      requires Valid() && !mode.Text? && row < g.rows
      modifies vram
      ensures forall i, j {:trigger vram[i, j]} :: 0 <= i < vram.Length0 && 0 <= j < vram.Length1 ==>
        vram[i, j] == if 16 * row <= i < 16 * row + 16 then shadow[top + i, j] else old(vram[i, j])
    {
      for y := 0 to 16
        invariant forall i, j {:trigger vram[i, j]} :: 0 <= i < vram.Length0 && 0 <= j < vram.Length1 ==>
          vram[i, j] == if 16 * row <= i < 16 * row + y then shadow[top + i, j] else old(vram[i, j])
      {
        FlushLine(16 * row + y);
      }
    }

    method FlushLine(line: nat)
      requires Shape() && !mode.Text? && line < height
      modifies vram
      ensures forall i, j {:trigger vram[i, j]} :: 0 <= i < vram.Length0 && 0 <= j < vram.Length1 ==>
        vram[i, j] == if i == line then shadow[top + i, j] else old(vram[i, j])
    {
      for x := 0 to pitch
        invariant forall i, j {:trigger vram[i, j]} :: 0 <= i < vram.Length0 && 0 <= j < vram.Length1 ==>
          vram[i, j] == if i == line && j < x then shadow[top + i, j] else old(vram[i, j])
      {
        vram[line, x] := shadow[top + line, x];
      }
    }

    /** Render one cell straight into video memory. */
    method RenderGlyph(c: nat, col: nat, row: nat, fg: nat, bg: nat)
      requires Shape() && c < 256 && col < g.cols && row < g.rows
      modifies vram
      ensures forall i, j {:trigger vram[i, j]} :: 0 <= i < vram.Length0 && 0 <= j < vram.Length1 ==>
        vram[i, j] == if InCells(i, j, row, row + 1, col, col + 1)
          then GlyphPixel(g, c, i - 16 * row, j - 8 * col, fg, bg) else old(vram[i, j])
    {
      for y := 0 to 16
        invariant forall i, j {:trigger vram[i, j]} :: 0 <= i < vram.Length0 && 0 <= j < vram.Length1 ==>
          vram[i, j] == if 16 * row <= i < 16 * row + y && 8 * col <= j < 8 * col + 8
                        then GlyphPixel(g, c, i - 16 * row, j - 8 * col, fg, bg) else old(vram[i, j])
      {
        RenderLine(16 * row + y, 8 * col, g.font[c * 16 + y], fg, bg);
      }
    }

    method RenderLine(line: nat, px: nat, bits: nat, fg: nat, bg: nat)
      requires line < vram.Length0 && px + 8 <= vram.Length1
      modifies vram
      ensures forall i, j {:trigger vram[i, j]} :: 0 <= i < vram.Length0 && 0 <= j < vram.Length1 ==>
        vram[i, j] == if i == line && px <= j < px + 8 then (if BitSet(bits, j - px) then fg else bg)
            else old(vram[i, j])
    {
      for b := 0 to 8
        invariant forall i, j {:trigger vram[i, j]} :: 0 <= i < vram.Length0 && 0 <= j < vram.Length1 ==>
          vram[i, j] == if i == line && px <= j < px + b then (if BitSet(bits, j - px) then fg else bg)
              else old(vram[i, j])
      {
        vram[line, px + b] := if BitSet(bits, b) then fg else bg;
      }
    }

    /** Render the cells of one text row. */
    method RenderRow(row: nat)
      requires Valid() && mode.Text? && row < g.rows
      modifies vram
      ensures forall i, j {:trigger vram[i, j]} :: 0 <= i < vram.Length0 && 0 <= j < vram.Length1 ==>
        vram[i, j] == if 16 * row <= i < 16 * row + 16 && j < 8 * g.cols then s[i][j] else old(vram[i, j])
    {
      hide GlyphPixel, ResolveColor;
      for col := 0 to g.cols
        invariant forall i, j {:trigger vram[i, j]} :: 0 <= i < vram.Length0 && 0 <= j < vram.Length1 ==>
          vram[i, j] == if 16 * row <= i < 16 * row + 16 && j < 8 * col then s[i][j] else old(vram[i, j])
      {
        var cell := grid[row, col];
        RenderGlyph(cell.ch, col, row, ResolveColor(g, cell.fgIdx), ResolveColor(g, cell.bgIdx));
      }
    }

    /** Bring video memory up to date: afterwards it shows the screen. */
    method Flush()
      requires Valid()
      modifies vram, dirty
      ensures Valid()
      ensures forall l, x {:trigger s[l][x]} :: 0 <= l < 16 * g.rows && 0 <= x < 8 * g.cols ==> vram[l, x] == s[l][x]
      ensures forall r {:trigger dirty[r]} :: 0 <= r < g.rows ==> !dirty[r]
    {
      hide CellPixel;
      for row := 0 to g.rows
        invariant Valid() && forall r {:trigger dirty[r]} :: 0 <= r < row ==> !dirty[r]
      {
        if dirty[row] {
          if mode.Text? { RenderRow(row); } else { FlushRow(row); }
          dirty[row] := false;
        }
      }
    }

    // ---- bytes --------------------------------------------------------------

    ghost function Shown(): View
      reads `k, `s
    {
      View(k, s)
    }

    method EraseInLine(what: nat)
      requires Valid()
      modifies `s, shadow, grid, dirty
      ensures Valid() && Shown() == EraseLine(g, old(Shown()), what)
    {
      hide Erased;
      if mode.Text? {
        if what == 0 {
          ClearCells(k.col, k.row, g.cols, k.row + 1);
        } else if what == 1 {
          ClearCells(0, k.row, k.col + 1, k.row + 1);
        } else if what == 2 {
          ClearCells(0, k.row, g.cols, k.row + 1);
        }
      } else {
        if what == 0 {
          FillRow(k.row, k.col, width - 8 * k.col, k.bg, g.cols);
        } else if what == 1 {
          FillRow(k.row, 0, 8 * (k.col + 1), k.bg, k.col + 1);
        } else if what == 2 {
          FillRow(k.row, 0, width, k.bg, g.cols);
        }
      }
    }

    method EraseInDisplay(what: nat)
      requires Valid()
      modifies `s, shadow, grid, dirty
      ensures Valid() && Shown() == EraseDisplay(g, old(Shown()), what)
    {
      hide Erased;
      if mode.Text? {
        if what == 0 {
          ClearCells(k.col, k.row, g.cols, k.row + 1);
          ClearCells(0, k.row + 1, g.cols, g.rows);
        } else if what == 1 {
          ClearCells(0, 0, g.cols, k.row);
          ClearCells(0, k.row, k.col + 1, k.row + 1);
        } else if what == 2 {
          ClearCells(0, 0, g.cols, g.rows);
        }
      } else {
        if what == 0 {
          FillRow(k.row, k.col, width - 8 * k.col, k.bg, g.cols);
          FillRows(k.row + 1, g.rows, k.bg);
        } else if what == 1 {
          FillRows(0, k.row, k.bg);
          FillRow(k.row, 0, 8 * (k.col + 1), k.bg, k.col + 1);
        } else if what == 2 {
          FillRows(0, g.rows, k.bg);
        }
      }
    }

    /** The colour codes of one sequence, in order. */
    method HandleSgr()
      requires Valid()
      modifies `k
      ensures Valid() && k == if old(k).count == 0 then Reset(g, old(k))
        else SgrAll(g, old(k), old(k).params, old(k).count)
    {
      hide Sgr;
      if k.count == 0 {
        k := Reset(g, k);
        return;
      }
      var codes, n := k.params, k.count;
      for i := 0 to n
        invariant k == SgrAll(g, old(k), codes, i)
      {
        k := Sgr(g, k, codes[i]);
      }
      SgrAllInBounds(g, old(k), codes, n);
    }

    method DispatchCsi(c: nat)
      requires Valid()
      modifies `k, `s, shadow, grid, dirty
      ensures Valid() && Shown() == Dispatch(g, old(Shown()), c)
    {
      hide Erased, SgrAll, Backed, Clean;
      DispatchInBounds(g, Shown(), c);
      var a, b := Param(k, 0), Param(k, 1);
      if c == 109 {
        HandleSgr();
      } else if c == 65 {
        k := k.(row := if OrOne(a) <= k.row then k.row - OrOne(a) else 0);
      } else if c == 66 {
        k := k.(row := Min(k.row + OrOne(a), g.rows - 1));
      } else if c == 67 {
        k := k.(col := Min(k.col + OrOne(a), g.cols - 1));
      } else if c == 68 {
        k := k.(col := if OrOne(a) <= k.col then k.col - OrOne(a) else 0);
      } else if c == 72 || c == 102 {
        k := k.(row := Min(OrOne(a) - 1, g.rows - 1), col := Min(OrOne(b) - 1, g.cols - 1));
      } else if c == 74 {
        EraseInDisplay(a);
      } else if c == 75 {
        EraseInLine(a);
      } else if c == 115 {
        k := k.(savedCol := k.col, savedRow := k.row);
      } else if c == 117 {
        k := k.(col := Min(k.savedCol, g.cols - 1), row := Min(k.savedRow, g.rows - 1));
      }
    }

    method EmitChar(c: nat)
      requires Valid() && c < 256
      modifies `k, `s, `top, shadow, grid, dirty
      ensures Valid() && Shown() == Emit(g, old(Shown()), c)
    {
      hide Drawn, Scrolled, Backed, Clean;
      if Printable(c) { DrawGlyph(c, k.col, k.row, k.fg, k.bg); }
      var m := Moved(k, c);
      if m.col >= g.cols { m := m.(col := 0, row := m.row + 1); }
      if m.row >= g.rows {
        k := m.(row := g.rows - 1);
        ScrollUp();
      } else {
        k := m;
      }
    }

    method WriteChar(c: nat)
      requires Valid() && c < 256
      modifies `k, `s, `top, shadow, grid, dirty
      ensures Valid() && Shown() == Write(g, old(Shown()), c)
    {
      hide Emit, Dispatch, Backed, Clean;
      WriteInBounds(g, Shown(), c);
      match k.ansi {
        case Plain =>
          if c == 27 {
            k := k.(ansi := Escape);
          } else {
            EmitChar(c);
          }
        case Escape =>
          if c == 91 {
            k := k.(ansi := Bracket, count := 0, current := 0, params := seq(MAX_PARAMS, _ => 0));
          } else {
            k := k.(ansi := Plain);
            EmitChar(c);
          }
        case Bracket =>
          if 48 <= c <= 57 {
            k := k.(current := (k.current * 10 % 0x1_0000 + (c - 48)) % 0x1_0000);
          } else if c == 59 {
            k := Stored(k).(current := 0);
          } else {
            k := Stored(k).(ansi := Plain);
            DispatchCsi(c);
          }
      }
    }

    /** Write a run of bytes and flush once: video memory then shows the screen that the
        bytes make, whatever the buffering mode. */
    method WriteBytes(bytes: seq<nat>)
      requires Valid() && forall i {:trigger bytes[i]} :: 0 <= i < |bytes| ==> bytes[i] < 256
      modifies this, vram, shadow, grid, dirty
      ensures Valid() && Shown() == WriteAll(g, old(Shown()), bytes, |bytes|)
      ensures bytes != [] ==> forall l, x {:trigger s[l][x]} :: 0 <= l < 16 * g.rows && 0 <= x < 8 * g.cols ==>
        vram[l, x] == s[l][x]
    {
      hide Write, Backed, Clean;
      if bytes == [] { return; }
      for i := 0 to |bytes|
        invariant Valid() && Shown() == WriteAll(g, old(Shown()), bytes, i)
      {
        WriteChar(bytes[i]);
      }
      Flush();
    }
  }

  lemma BlankPixels(g: Geometry, blank: Cell)
    requires g.Valid() && blank.ch == 32
    ensures forall y, x {:trigger CellPixel(g, blank, y, x)} :: 0 <= y < 16 && 0 <= x < 8 ==>
      CellPixel(g, blank, y, x) == ResolveColor(g, blank.bgIdx)
  {
    forall y, x | 0 <= y < 16 && 0 <= x < 8 ensures CellPixel(g, blank, y, x) == ResolveColor(g, blank.bgIdx) {
      SpaceIsBlank(g, y, x, ResolveColor(g, blank.fgIdx), ResolveColor(g, blank.bgIdx));
    }
  }

  lemma SameScreen(g: Geometry, a: Screen, b: Screen)
    requires IsScreen(g, a) && IsScreen(g, b)
    requires forall l, x {:trigger a[l][x]} :: 0 <= l < 16 * g.rows && 0 <= x < 8 * g.cols ==> a[l][x] == b[l][x]
    ensures a == b
  {
    forall l | 0 <= l < |a| ensures a[l] == b[l] {
      assert forall x :: 0 <= x < |a[l]| ==> a[l][x] == b[l][x];
    }
  }

  lemma NothingErased(g: Geometry, s: Screen, row: nat, col0: nat, col1: nat, color: nat)
    requires IsScreen(g, s)
    ensures Erased(g, s, row, row, col0, col1, color) == s
  {
    var e := Erased(g, s, row, row, col0, col1, color);
    hide Erased;
    SameScreen(g, e, s);
  }

  lemma ErasedRowMore(g: Geometry, s: Screen, row0: nat, r: nat, col0: nat, col1: nat, color: nat)
    requires IsScreen(g, s) && row0 <= r
    ensures Erased(g, Erased(g, s, row0, r, col0, col1, color), r, r + 1, col0, col1,
      color) == Erased(g, s, row0, r + 1, col0, col1, color)
  {
    hide Erased;
    SameScreen(g, Erased(g, Erased(g, s, row0, r, col0, col1, color), r, r + 1, col0, col1, color),
        Erased(g, s, row0, r + 1, col0, col1, color));
  }

  lemma ErasedMore(g: Geometry, s: Screen, row0: nat, r: nat, color: nat)
    requires IsScreen(g, s) && row0 <= r
    ensures Erased(g, Erased(g, s, row0, r, 0, g.cols, color), r, r + 1, 0, g.cols,
      color) == Erased(g, s, row0, r + 1, 0, g.cols, color)
  {
    ErasedRowMore(g, s, row0, r, 0, g.cols, color);
  }

  /** No console touches another's buffers. */
  ghost predicate Separate(a: Console, b: Console) {
    a != b && a.vram != b.vram && a.shadow != b.shadow && a.vram != b.shadow && a.shadow != b.vram && a.grid != b.grid
        && a.dirty != b.dirty
  }

  /** Both consoles stand at the same screen. */
  ghost predicate Level(a: Console, b: Console, v: View)
    reads a, a.vram, a.shadow, a.grid, a.dirty, b, b.vram, b.shadow, b.grid, b.dirty
  {
    a.Valid() && b.Valid() && a.g == b.g && a.Shown() == v && b.Shown() == v
  }

  /** Two consoles in any modes, fed the same bytes and flushed at the same points, show
      the same pixels after every flush. */
  method SameInEveryMode(a: Console, b: Console, chunks: seq<seq<nat>>, ghost v: View) returns (ghost w: View)
    requires Separate(a, b) && Level(a, b, v)
    requires forall i, j {:trigger chunks[i][j]} :: 0 <= i < |chunks| && 0 <= j < |chunks[i]| ==> chunks[i][j] < 256
    requires SamePixels(a, b)
    modifies a, a.vram, a.shadow, a.grid, a.dirty, b, b.vram, b.shadow, b.grid, b.dirty
    ensures Level(a, b, w) && SamePixels(a, b)
  {
    w := v;
    for i := 0 to |chunks|
      invariant Level(a, b, w) && SamePixels(a, b)
    {
      if chunks[i] != [] {
        a.WriteBytes(chunks[i]);
        b.WriteBytes(chunks[i]);
        w := a.Shown();
        MatchingPixels(a, b);
      }
    }
  }

  ghost predicate SamePixels(a: Console, b: Console)
    reads a, a.vram, b, b.vram
  {
    a.Shape() && b.Shape() && a.g == b.g &&
    forall l, x {:trigger a.vram[l, x]} {:trigger b.vram[l, x]} :: 0 <= l < 16 * a.g.rows && 0 <= x < 8 * a.g.cols ==>
      a.vram[l, x] == b.vram[l, x]
  }

  lemma MatchingPixels(a: Console, b: Console)
    requires a.Shape() && b.Shape() && a.g == b.g && a.s == b.s
    requires forall l, x {:trigger a.s[l][x]} :: 0 <= l < 16 * a.g.rows && 0 <= x < 8 * a.g.cols ==>
      a.vram[l, x] == a.s[l][x]
    requires forall l, x {:trigger b.s[l][x]} :: 0 <= l < 16 * b.g.rows && 0 <= x < 8 * b.g.cols ==>
      b.vram[l, x] == b.s[l][x]
    ensures SamePixels(a, b)
  {
    forall l, x | 0 <= l < 16 * a.g.rows && 0 <= x < 8 * a.g.cols ensures a.vram[l, x] == b.vram[l, x] {
      assert a.s[l][x] == b.s[l][x];
    }
  }
}
