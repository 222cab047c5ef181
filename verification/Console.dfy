/** The console driver: grid, cursor and framebuffer updated in place.  The framebuffer always shows the
    grid, glyph by glyph. */
module Console {
  import opened Bits
  import opened KernelMemory
  import opened ConsoleModel
  import opened Framebuffer
  import F = FormatStrings

  predicate OnGrid(f: Font, cols: nat, rows: nat, px: nat, py: nat)
    requires FontOk(f)
  {
    px / f.width < cols && py / f.height < rows
  }

  lemma DotInside(f: Font, px: nat, py: nat)
    requires FontOk(f)
    ensures px % f.width < f.width && py % f.height < f.height
  {
  }

  /** A dot of the cell in column `cx` of line `cy`. */
  function CellDot(f: Font, grid: seq<Cell>, cols: nat, rows: nat, cx: nat, cy: nat, row: nat, col: nat): (p: Rgb)
    requires FontOk(f) && |grid| == Area(rows, cols) && cx < cols && cy < rows && row < f.height && col < f.width
  {
    IndexInGrid(cx, cy, cols, rows);
    var cell := grid[Area(cy, cols) + cx];
    Dot(f, cell.c, cell.fg, cell.bg, row, col)
  }

  /** The colour that pixel (px, py) should have: a dot of the cell it falls in. */
  function Expected(f: Font, grid: seq<Cell>, cols: nat, rows: nat, px: nat, py: nat): (p: Rgb)
    requires FontOk(f) && |grid| == Area(rows, cols) && OnGrid(f, cols, rows, px, py)
  {
    NonNegative(px, f.width);
    NonNegative(py, f.height);
    DotInside(f, px, py);
    CellDot(f, grid, cols, rows, px / f.width, py / f.height, py % f.height, px % f.width)
  }

  /** The rectangle of cell number `k` along one axis, in terms of division. */
  lemma InCell(p: nat, w: nat, k: nat)
    requires w > 0
    ensures k * w <= p < k * w + w <==> p / w == k
    ensures p / w == k ==> p - k * w == p % w
  {
    if p / w == k {
      assert p == w * k + p % w;
    } else if k * w <= p < k * w + w {
      DivModUnique(p, w, k, p - k * w);
    }
  }

  /** Cells of the grid lie on the screen. */
  lemma CellOnScreen(p: nat, w: nat, cols: nat, width: nat)
    requires w > 0 && cols * w <= width && p / w < cols
    ensures p < width
  {
    MulMono(p / w + 1, cols, w);
    assert (p / w + 1) * w == p / w * w + w;
    assert p == w * (p / w) + p % w;
  }

  lemma SamePosition(x: nat, y: nat, x': nat, y': nat, cols: nat)
    requires x < cols && x' < cols
    ensures Area(y, cols) + x == Area(y', cols) + x' <==> x == x' && y == y'
  {
    if y < y' {
      AreaSum(y + 1, y' - (y + 1), cols);
      AreaSum(y, 1, cols);
    } else if y' < y {
      AreaSum(y' + 1, y - (y' + 1), cols);
      AreaSum(y', 1, cols);
    }
  }

  /** A blank space glyph makes an all-space grid a plain background. */
  predicate BlankSpace(f: Font)
    requires FontOk(f)
  {
    forall row: nat, col: nat :: row < f.height && col < f.width ==> !GlyphBit(f, SPACE, row, col)
  }

  /** The grid lies on the screen. */
  predicate LayoutOk(f: Font, g: Geometry, cols: nat, rows: nat) {
    && FontOk(f) && BlankSpace(f) && cols > 0 && rows > 0
    && cols * f.width <= g.width && rows * f.height <= g.height
  }

  /** Pixel (px, py), if it belongs to a cell, shows that cell's character in that cell's colours. */
  ghost predicate PixelOk(f: Font, g: Geometry, m: seq<byte>, grid: seq<Cell>, cols: nat, rows: nat, px: nat, py: nat)
    requires LayoutOk(f, g, cols, rows) && GeometryOk(g, |m|) && |grid| == Area(rows, cols)
  {
    OnGrid(f, cols, rows, px, py) ==>
      px < g.width && py < g.height && PixelAt(g, m, px, py) == Expected(f, grid, cols, rows, px, py)
  }

  ghost predicate ShownIn(f: Font, g: Geometry, m: seq<byte>, grid: seq<Cell>, cols: nat, rows: nat)
    requires LayoutOk(f, g, cols, rows) && GeometryOk(g, |m|) && |grid| == Area(rows, cols)
  {
    forall px: nat, py: nat :: PixelOk(f, g, m, grid, cols, rows, px, py)
  }

  lemma OnScreen(f: Font, g: Geometry, cols: nat, rows: nat, px: nat, py: nat)
    requires LayoutOk(f, g, cols, rows) && OnGrid(f, cols, rows, px, py)
    ensures px < g.width && py < g.height
  {
    CellOnScreen(px, f.width, cols, g.width);
    CellOnScreen(py, f.height, rows, g.height);
  }

  ghost predicate AllPixels(g: Geometry, m: seq<byte>, p: Rgb)
    requires GeometryOk(g, |m|)
  {
    forall px: nat, py: nat :: px < g.width && py < g.height ==> PixelAt(g, m, px, py) == p
  }

  /** A cleared framebuffer shows a grid of spaces. */
  lemma ClearedShown(f: Font, g: Geometry, m: seq<byte>, cols: nat, rows: nat, fg: nat, bg: nat)
    requires LayoutOk(f, g, cols, rows) && GeometryOk(g, |m|) && AllPixels(g, m, Shade(bg))
    ensures ShownIn(f, g, m, Blank(fg, bg, Area(rows, cols)), cols, rows)
  {
    hide Area, PixelAt, GlyphBit, Shade, FontOk;
    FontPositive(f);
    var grid := Blank(fg, bg, Area(rows, cols));
    forall px: nat, py: nat
      ensures PixelOk(f, g, m, grid, cols, rows, px, py)
    {
      if OnGrid(f, cols, rows, px, py) {
        OnScreen(f, g, cols, rows, px, py);
        IndexInGrid(px / f.width, py / f.height, cols, rows);
        DotInside(f, px, py);
      }
    }
  }

  /** What drawing one glyph does to the image. */
  ghost predicate Drawn(f: Font, g: Geometry, m: seq<byte>, m': seq<byte>, cell: Cell, x: nat, y: nat)
    requires FontOk(f) && GeometryOk(g, |m|) && |m'| == |m|
  {
    forall px: nat, py: nat :: px < g.width && py < g.height ==>
      PixelAt(g, m', px, py) == if x <= px < x + f.width && y <= py < y + f.height then Dot(f, cell.c, cell.fg, cell.bg, py - y, px - x)
                                else PixelAt(g, m, px, py)
  }

  /** Drawing cell (cx, cy) makes its pixels right and leaves every other cell's pixels alone. */
  lemma DrawnCell(f: Font, g: Geometry, m: seq<byte>, m': seq<byte>, grid: seq<Cell>, cols: nat, rows: nat, cx: nat, cy: nat, px: nat, py: nat)
    requires LayoutOk(f, g, cols, rows) && GeometryOk(g, |m|) && |m'| == |m| && |grid| == Area(rows, cols)
    requires cx < cols && cy < rows && Area(cy, cols) + cx < |grid|
    requires Drawn(f, g, m, m', grid[Area(cy, cols) + cx], cx * f.width, cy * f.height)
    requires OnGrid(f, cols, rows, px, py)
    ensures px < g.width && py < g.height
    ensures px / f.width == cx && py / f.height == cy ==> PixelOk(f, g, m', grid, cols, rows, px, py)
    ensures !(px / f.width == cx && py / f.height == cy) ==> PixelAt(g, m', px, py) == PixelAt(g, m, px, py)
  {
    hide Area, PixelAt, Dot, FontOk;
    OnScreen(f, g, cols, rows, px, py);
    FontPositive(f);
    InCell(px, f.width, cx);
    InCell(py, f.height, cy);
  }

  lemma FontPositive(f: Font)
    requires FontOk(f)
    ensures f.width > 0 && f.height > 0
  {
  }

  /** A character written to the grid and drawn keeps the screen right. */
  lemma PutShown(f: Font, g: Geometry, m: seq<byte>, m': seq<byte>, grid: seq<Cell>, cols: nat, rows: nat, cx: nat, cy: nat, cell: Cell)
    requires LayoutOk(f, g, cols, rows) && GeometryOk(g, |m|) && |m'| == |m| && |grid| == Area(rows, cols)
    requires cx < cols && cy < rows && Area(cy, cols) + cx < |grid|
    requires ShownIn(f, g, m, grid, cols, rows)
    requires Drawn(f, g, m, m', cell, cx * f.width, cy * f.height)
    ensures ShownIn(f, g, m', grid[Area(cy, cols) + cx := cell], cols, rows)
  {
    hide Area, PixelAt, Dot, FontOk, Drawn;
    FontPositive(f);
    var grid': seq<Cell> := grid[Area(cy, cols) + cx := cell];
    forall px: nat, py: nat
      ensures PixelOk(f, g, m', grid', cols, rows, px, py)
    {
      if OnGrid(f, cols, rows, px, py) {
        DrawnCell(f, g, m, m', grid', cols, rows, cx, cy, px, py);
        assert PixelOk(f, g, m, grid, cols, rows, px, py);
        IndexInGrid(px / f.width, py / f.height, cols, rows);
        SamePosition(px / f.width, py / f.height, cx, cy, cols);
      }
    }
  }

  /** Every cell before (cx, cy) in row order is shown. */
  ghost predicate ShownBefore(f: Font, g: Geometry, m: seq<byte>, grid: seq<Cell>, cols: nat, rows: nat, cx: nat, cy: nat)
    requires LayoutOk(f, g, cols, rows) && GeometryOk(g, |m|) && |grid| == Area(rows, cols)
  {
    forall px: nat, py: nat :: (py / f.height < cy || (py / f.height == cy && px / f.width < cx)) ==>
      PixelOk(f, g, m, grid, cols, rows, px, py)
  }

  lemma RedrawStep(f: Font, g: Geometry, m: seq<byte>, m': seq<byte>, grid: seq<Cell>, cols: nat, rows: nat, cx: nat, cy: nat)
    requires LayoutOk(f, g, cols, rows) && GeometryOk(g, |m|) && |m'| == |m| && |grid| == Area(rows, cols)
    requires cx < cols && cy < rows && Area(cy, cols) + cx < |grid|
    requires ShownBefore(f, g, m, grid, cols, rows, cx, cy)
    requires Drawn(f, g, m, m', grid[Area(cy, cols) + cx], cx * f.width, cy * f.height)
    ensures ShownBefore(f, g, m', grid, cols, rows, cx + 1, cy)
  {
    hide Area, PixelAt, Dot, FontOk, Drawn;
    FontPositive(f);
    forall px: nat, py: nat | py / f.height < cy || (py / f.height == cy && px / f.width < cx + 1)
      ensures PixelOk(f, g, m', grid, cols, rows, px, py)
    {
      if OnGrid(f, cols, rows, px, py) {
        DrawnCell(f, g, m, m', grid, cols, rows, cx, cy, px, py);
        if !(px / f.width == cx && py / f.height == cy) {
          assert PixelOk(f, g, m, grid, cols, rows, px, py);
        }
      }
    }
  }

  lemma RowShown(f: Font, g: Geometry, m: seq<byte>, grid: seq<Cell>, cols: nat, rows: nat, cy: nat)
    requires LayoutOk(f, g, cols, rows) && GeometryOk(g, |m|) && |grid| == Area(rows, cols)
    requires ShownBefore(f, g, m, grid, cols, rows, cols, cy)
    ensures ShownBefore(f, g, m, grid, cols, rows, 0, cy + 1)
  {
    hide Area, PixelAt, Expected, FontOk;
    FontPositive(f);
  }

  lemma AllShown(f: Font, g: Geometry, m: seq<byte>, grid: seq<Cell>, cols: nat, rows: nat)
    requires LayoutOk(f, g, cols, rows) && GeometryOk(g, |m|) && |grid| == Area(rows, cols)
    requires ShownBefore(f, g, m, grid, cols, rows, 0, rows)
    ensures ShownIn(f, g, m, grid, cols, rows)
  {
    hide Area, PixelAt, Expected, FontOk;
    FontPositive(f);
    forall px: nat, py: nat
      ensures PixelOk(f, g, m, grid, cols, rows, px, py)
    {
    }
  }

  lemma NothingShown(f: Font, g: Geometry, m: seq<byte>, grid: seq<Cell>, cols: nat, rows: nat)
    requires LayoutOk(f, g, cols, rows) && GeometryOk(g, |m|) && |grid| == Area(rows, cols)
    ensures ShownBefore(f, g, m, grid, cols, rows, 0, 0)
  {
    hide Area, PixelOk, FontOk;
    FontPositive(f);
    forall px: nat, py: nat
      ensures !(py / f.height < 0) && !(px / f.width < 0)
    {
      NonNegative(px, f.width);
      NonNegative(py, f.height);
    }
  }

  lemma NonNegative(p: nat, w: nat)
    requires w > 0
    ensures p / w >= 0
  {
  }

  lemma GridFits(width: nat, w: nat)
    requires 0 < w <= width
    ensures width / w > 0 && width / w * w <= width
  {
  }

  class TextConsole {
    const display: Display
    const font: Font
    const cols: nat
    const rows: nat
    const buffer: array<Cell>
    var x: nat
    var y: nat
    var fg: nat
    var bg: nat

    ghost predicate Valid()
      reads this, buffer
    {
      && display.Valid() && LayoutOk(font, display.geometry, cols, rows)
      && (buffer as object) != display.mem
      && ScreenOk(Contents(), cols, rows)
    }

    ghost function Contents(): (s: Screen)
      reads this, buffer
    {
      Screen(buffer[..], x, y, fg, bg)
    }

    /** Every pixel of every cell shows that cell's character in that cell's colours. */
    ghost predicate Shown()
      requires Valid()
      reads this, buffer, display.mem
    {
      ShownIn(font, display.geometry, display.mem[..], buffer[..], cols, rows)
    }

    /** `console_init`. */
    constructor (d: Display, f: Font)
      requires d.Valid() && FontOk(f) && BlankSpace(f)
      requires f.width <= d.geometry.width && f.height <= d.geometry.height
      modifies d.mem
      ensures Valid() && fresh(buffer) && display == d && font == f
      ensures cols == d.geometry.width / f.width && rows == d.geometry.height / f.height
      ensures Contents() == Screen(Blank(0xFF_FFFF, 0, Area(rows, cols)), 0, 0, 0xFF_FFFF, 0)
      ensures Shown()
    {
      display, font := d, f;
      cols, rows := d.geometry.width / f.width, d.geometry.height / f.height;
      fg, bg := 0xFF_FFFF, 0;
      x, y := 0, 0;
      buffer := new Cell[Area(d.geometry.height / f.height, d.geometry.width / f.width)](_ => Cell(SPACE, 0, 0));
      new;
      GridFits(d.geometry.width, f.width);
      GridFits(d.geometry.height, f.height);
      ClearScreen();
    }

    /** Writes `n` spaces in the current colours. */
    method FillBlank(start: nat, n: nat)
      requires start + n <= buffer.Length
      modifies buffer
      ensures buffer[..] == old(buffer[..])[..start] + Blank(fg, bg, n) + old(buffer[..])[start + n..]
    {
      var i: nat := 0;
      while i < n
        invariant i <= n
        invariant forall k :: 0 <= k < buffer.Length ==>
                    buffer[k] == if start <= k < start + i then Cell(SPACE, fg, bg) else old(buffer[k])
      {
        buffer[start + i] := Cell(SPACE, fg, bg);
        i := i + 1;
      }
    }

    /** `console_clear`. */
    method ClearScreen()
      requires Valid()
      modifies this`x, this`y, buffer, display.mem
      ensures Valid() && Shown()
      ensures Contents() == Screen(Blank(fg, bg, Area(rows, cols)), 0, 0, fg, bg)
    {
      hide Area, ShownIn, Shade, FontOk, BlankSpace, PixelAt;
      display.Clear(bg);
      assert AllPixels(display.geometry, display.mem[..], Shade(bg));
      FillBlank(0, buffer.Length);
      x, y := 0, 0;
      assert buffer[..] == Blank(fg, bg, Area(rows, cols));
      ClearedShown(font, display.geometry, display.mem[..], cols, rows, fg, bg);
    }

    method DrawCell(cell: Cell, cx: nat, cy: nat)
      requires Valid()
      modifies display.mem
      ensures Valid() && buffer[..] == old(buffer[..])
      ensures Drawn(font, display.geometry, old(display.mem[..]), display.mem[..], cell, cx * font.width, cy * font.height)
    {
      hide Area, PixelAt, Dot, BlankSpace;
      display.DrawChar(font, cell.c, cx * font.width, cy * font.height, cell.fg, cell.bg);
    }

    /** `redraw_all`. */
    method RedrawAll()
      requires Valid()
      modifies display.mem
      ensures Valid() && Shown()
      ensures buffer[..] == old(buffer[..])
    {
      hide Area, PixelAt, Dot, BlankSpace, ShownBefore, ShownIn, Drawn, FontOk, LayoutOk, GeometryOk;
      ghost var grid := buffer[..];
      NothingShown(font, display.geometry, display.mem[..], grid, cols, rows);
      var cy: nat := 0;
      while cy < rows
        invariant cy <= rows && Valid() && buffer[..] == grid
        invariant ShownBefore(font, display.geometry, display.mem[..], grid, cols, rows, 0, cy)
      {
        var cx: nat := 0;
        while cx < cols
          invariant cx <= cols && Valid() && buffer[..] == grid
          invariant ShownBefore(font, display.geometry, display.mem[..], grid, cols, rows, cx, cy)
        {
          IndexInGrid(cx, cy, cols, rows);
          ghost var before := display.mem[..];
          DrawCell(buffer[Area(cy, cols) + cx], cx, cy);
          RedrawStep(font, display.geometry, before, display.mem[..], grid, cols, rows, cx, cy);
          cx := cx + 1;
        }
        RowShown(font, display.geometry, display.mem[..], grid, cols, rows, cy);
        cy := cy + 1;
      }
      AllShown(font, display.geometry, display.mem[..], grid, cols, rows);
    }

    /** `scroll`. */
    method Scroll()
      requires Valid()
      modifies buffer, display.mem
      ensures Valid() && Shown()
      ensures buffer[..] == Scrolled(old(Contents()), cols)
    {
      hide Area, PixelAt, BlankSpace, ShownIn, FontOk, LayoutOk, GeometryOk;
      IndexInGrid(x, y, cols, rows);
      ghost var before := buffer[..];
      MemMove(buffer, 0, cols, Area(rows - 1, cols));
      ghost var moved := buffer[..];
      FillBlank(Area(rows - 1, cols), cols);
      ScrolledIs(before, moved, Contents(), cols, Area(rows - 1, cols));
      RedrawAll();
    }

    /** `console_set_color`. */
    method SetColors(f: nat, b: nat)
      requires Valid()
      modifies this`fg, this`bg
      ensures Valid() && Contents() == Act(old(Contents()), cols, rows, SetColor(f, b))
    {
      fg, bg := f, b;
    }

    /** `console_putchar`. */
    method PutCharacter(c: byte)
      requires Valid() && Shown()
      modifies this`x, this`y, buffer, display.mem
      ensures Valid() && Shown()
      ensures Contents() == PutChar(old(Contents()), cols, rows, c)
    {
      hide Area, PixelAt, BlankSpace, ShownIn, FontOk, LayoutOk, GeometryOk, Drawn;
      ghost var s := Contents();
      IndexInGrid(x, y, cols, rows);
      var px, py := x, y;
      if c == NEWLINE {
        px, py := 0, py + 1;
      } else if c == RETURN {
        px := 0;
      } else if c == BACKSPACE {
        if px > 0 {
          px := px - 1;
        }
      } else {
        var cell := Cell(c, fg, bg);
        ghost var image := display.mem[..];
        buffer[Area(y, cols) + x] := cell;
        DrawCell(cell, x, y);
        PutShown(font, display.geometry, image, display.mem[..], s.grid, cols, rows, x, y, cell);
        px := px + 1;
        if px >= cols {
          px, py := 0, py + 1;
        }
      }
      ghost var g := if Prints(c) then s.grid[Area(s.y, cols) + s.x := Cell(c, fg, bg)] else s.grid;
      assert buffer[..] == g;
      if py >= rows {
        Scroll();
        py := rows - 1;
      }
      x, y := px, py;
    }

    /** The characters of a text, one `console_putchar` after the other. */
    method Emit(s: string)
      requires Valid() && Shown()
      modifies this`x, this`y, buffer, display.mem
      ensures Valid() && Shown()
      ensures Contents() == ActAll(old(Contents()), cols, rows, Puts(s))
    {
      hide Valid, Shown, Contents, PutChar, ActAll;
      ghost var before := Screened();
      var i := 0;
      Nothing(before, cols, rows);
      assert s[..0] == "";
      while i < |s|
        invariant 0 <= i <= |s| && Valid() && Shown()
        invariant ScreenOk(before, cols, rows) && Contents() == ActAll(before, cols, rows, Puts(s[..i]))
      {
        assert s[..i + 1] == s[..i] + [s[i]];
        assert Puts([s[i]]) == [Put(ByteOf(s[i]))];
        PutsAppend(before, cols, rows, s[..i], [s[i]]);
        ActOne(ActAll(before, cols, rows, Puts(s[..i])), cols, rows, ByteOf(s[i]));
        PutCharacter(ByteOf(s[i]));
        i := i + 1;
      }
      assert s[..|s|] == s;
    }

    ghost function Screened(): (s: Screen)
      requires Valid()
      reads this, buffer
      ensures s == Contents() && ScreenOk(s, cols, rows)
    {
      Contents()
    }

    /** `cvprintf`: the screen receives exactly the characters that `svprintf` emits for the same format
        and arguments, and the framebuffer shows them. */
    method Cvprintf(fmt: string, args: seq<F.Arg>) returns (ending: F.Ending)
      requires Valid() && Shown()
      modifies this`x, this`y, buffer, display.mem
      ensures Valid() && Shown()
      ensures ending == F.Format(fmt, args).ending
      ensures Contents() == ActAll(old(Contents()), cols, rows, Puts(F.Format(fmt, args).s))
    {
      hide Valid, Shown, Contents, ActAll, F.ParseDirective, F.RenderDirective;
      ghost var before := Screened();
      ghost var out := "";
      Nothing(before, cols, rows);
      var p: nat := 0;
      var left := args;
      assert fmt[0..] == fmt;
      while p < |fmt| && fmt[p] != '\0'
        invariant p <= |fmt| && Valid() && Shown()
        invariant ScreenOk(before, cols, rows) && Contents() == ActAll(before, cols, rows, Puts(out))
        invariant F.Format(fmt, args) == F.Prepend(out, F.Format(fmt[p..], left))
        decreases |fmt| - p
      {
        ghost var t := fmt[p..];
        assert t[0] == fmt[p] && t[1..] == fmt[p + 1..];
        if fmt[p] != '%' {
          F.PrependPrepend(out, [fmt[p]], F.Format(fmt[p + 1..], left));
          PutsAppend(before, cols, rows, out, [fmt[p]]);
          Emit([fmt[p]]);
          out := out + [fmt[p]];
          p := p + 1;
        } else {
          var ok, d, q := F.ScanDirective(fmt, p + 1);
          if !ok {
            PutsAppend(before, cols, rows, out, "%");
            Emit("%");
            return F.Overrun;
          }
          var r := F.RenderDirective(d, left);
          if r.None? {
            assert out + "" == out;
            return F.BadArgs;
          }
          F.PrependPrepend(out, r.value.0, F.Format(fmt[q..], r.value.1));
          PutsAppend(before, cols, rows, out, r.value.0);
          Emit(r.value.0);
          out := out + r.value.0;
          left := r.value.1;
          p := q;
        }
      }
      assert out + "" == out;
      ending := F.Complete;
    }
  }

  lemma Nothing(s: Screen, cols: nat, rows: nat)
    requires ScreenOk(s, cols, rows)
    ensures ActAll(s, cols, rows, Puts("")) == s
  {
  }

  /** The byte of a character. */
  function ByteOf(c: char): (b: byte) { c as int % 256 }

  /** A text as console actions. */
  function Puts(s: string): (acts: seq<Action>) { seq(|s|, i requires 0 <= i < |s| => Put(ByteOf(s[i]))) }

  lemma {:induction false} ActAllAppend(s: Screen, cols: nat, rows: nat, a: seq<Action>, b: seq<Action>)
    requires ScreenOk(s, cols, rows)
    ensures ActAll(s, cols, rows, a + b) == ActAll(ActAll(s, cols, rows, a), cols, rows, b)
    decreases |a|
  {
    hide Act;
    if a == [] {
      assert a + b == b;
    } else {
      assert (a + b)[1..] == a[1..] + b;
      ActAllAppend(Act(s, cols, rows, a[0]), cols, rows, a[1..], b);
    }
  }

  lemma ActOne(s: Screen, cols: nat, rows: nat, c: byte)
    requires ScreenOk(s, cols, rows)
    ensures ActAll(s, cols, rows, [Put(c)]) == PutChar(s, cols, rows, c)
  {
    hide PutChar;
    assert [Put(c)][1..] == [];
  }

  lemma PutsConcat(a: string, b: string)
    ensures Puts(a + b) == Puts(a) + Puts(b)
  {
  }

  lemma PutsAppend(s: Screen, cols: nat, rows: nat, a: string, b: string)
    requires ScreenOk(s, cols, rows)
    ensures ActAll(s, cols, rows, Puts(a + b)) == ActAll(ActAll(s, cols, rows, Puts(a)), cols, rows, Puts(b))
  {
    hide ActAll, Puts;
    PutsConcat(a, b);
    ActAllAppend(s, cols, rows, Puts(a), Puts(b));
  }

  /** Moving all lines up and blanking the last one is scrolling. */
  lemma ScrolledIs(before: seq<Cell>, moved: seq<Cell>, s: Screen, cols: nat, n: nat)
    requires |before| == n + cols && moved == Moved(before, 0, cols, n)
    requires s.grid == moved[..n] + Blank(s.fg, s.bg, cols) + moved[n + cols..]
    ensures s.grid == before[cols..] + Blank(s.fg, s.bg, cols)
  {
    assert moved[..n] == before[cols..];
  }
}
