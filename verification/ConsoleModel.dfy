/** The text console as a value, and the unbounded terminal it is a window on. */
module ConsoleModel {
  import opened Bits

  const NEWLINE: byte := 10
  const RETURN: byte := 13
  const BACKSPACE: byte := 8
  const SPACE: byte := 32

  datatype Cell = Cell(c: byte, fg: nat, bg: nat)

  /** What a program does to the console. */
  datatype Action = Put(c: byte) | SetColor(fg: nat, bg: nat)

  /** The console: a grid of `rows * cols` cells in row order, a cursor, and the current colours. */
  datatype Screen = Screen(grid: seq<Cell>, x: nat, y: nat, fg: nat, bg: nat)

  function Blank(fg: nat, bg: nat, n: nat): (r: seq<Cell>) { seq(n, _ => Cell(SPACE, fg, bg)) }

  /** Cells in `lines` lines; the position of a cell is `Area(y, cols) + x`. */
  function Area(lines: nat, cols: nat): (n: nat) { lines * cols }

  lemma AreaSum(a: nat, b: nat, cols: nat)
    ensures Area(a + b, cols) == Area(a, cols) + Area(b, cols)
    ensures Area(a + 1, cols) == Area(a, cols) + cols
  {
  }

  predicate ScreenOk(s: Screen, cols: nat, rows: nat) {
    |s.grid| == Area(rows, cols) && s.x < cols && s.y < rows
  }

  lemma IndexInGrid(x: nat, y: nat, cols: nat, rows: nat)
    requires x < cols && y < rows
    ensures Area(y, cols) + x < Area(rows, cols)
    ensures Area(rows, cols) == Area(rows - 1, cols) + cols
  {
    AreaSum(rows - 1, 1, cols);
    AreaSum(y, rows - 1 - y, cols);
  }

  /** One line up, the last line blank in the current colours. */
  function Scrolled(s: Screen, cols: nat): (g: seq<Cell>)
    requires cols <= |s.grid|
    ensures |g| == |s.grid|
  {
    s.grid[cols..] + Blank(s.fg, s.bg, cols)
  }

  /** Where the cursor goes, before any scrolling. */
  function CursorAfter(c: byte, x: nat, y: nat, cols: nat): (r: (nat, nat))
  {
    if c == NEWLINE then (0, y + 1)
    else if c == RETURN then (0, y)
    else if c == BACKSPACE then (if x > 0 then x - 1 else x, y)
    else if x + 1 >= cols then (0, y + 1)
    else (x + 1, y)
  }

  predicate Prints(c: byte) { c != NEWLINE && c != RETURN && c != BACKSPACE }

  /** `console_putchar`. */
  function PutChar(s: Screen, cols: nat, rows: nat, c: byte): (s': Screen)
    requires ScreenOk(s, cols, rows)
    ensures ScreenOk(s', cols, rows)
  {
    IndexInGrid(s.x, s.y, cols, rows);
    var g: seq<Cell> := if Prints(c) then s.grid[Area(s.y, cols) + s.x := Cell(c, s.fg, s.bg)] else s.grid;
    var (x, y) := CursorAfter(c, s.x, s.y, cols);
    var s1 := s.(grid := g, x := x, y := y);
    if y >= rows then s1.(grid := Scrolled(s1, cols), y := rows - 1) else s1
  }

  function Act(s: Screen, cols: nat, rows: nat, a: Action): (s': Screen)
    requires ScreenOk(s, cols, rows)
    ensures ScreenOk(s', cols, rows)
  {
    match a
    case Put(c) => PutChar(s, cols, rows, c)
    case SetColor(fg, bg) => s.(fg := fg, bg := bg)
  }

  // ----- the reference terminal --------------------------------------------

  /** A terminal that never scrolls: lines are only ever added at the bottom. */
  datatype Terminal = Terminal(cells: seq<Cell>, lines: nat, x: nat, y: nat, fg: nat, bg: nat)

  predicate TerminalOk(t: Terminal, cols: nat, rows: nat) {
    && |t.cells| == Area(t.lines, cols) && t.lines >= rows && t.x < cols
    && t.lines - rows <= t.y < t.lines
  }

  /** Column 0 of the next line, which is added blank if there is none yet. */
  function NextLine(t: Terminal, cols: nat): (t': Terminal)
  {
    var t1 := t.(x := 0, y := t.y + 1);
    if t.y + 1 < t.lines then t1 else t1.(cells := t.cells + Blank(t.fg, t.bg, cols), lines := t.lines + 1)
  }

  /** Byte 10 starts the next line, byte 13 returns to column 0, byte 8 moves one column left unless at
      column 0; every other byte fills the cell at the cursor, and after the last column the text goes on
      in the next line. */
  function TermPut(t: Terminal, cols: nat, c: byte): (t': Terminal)
    requires t.x < cols && t.y < t.lines && |t.cells| == Area(t.lines, cols)
  {
    match c
    case 10 => NextLine(t, cols)
    case 13 => t.(x := 0)
    case 8 => t.(x := if t.x == 0 then 0 else t.x - 1)
    case _ =>
      IndexInGrid(t.x, t.y, cols, t.lines);
      var filled := t.(cells := t.cells[Area(t.y, cols) + t.x := Cell(c, t.fg, t.bg)]);
      if t.x == cols - 1 then NextLine(filled, cols) else filled.(x := t.x + 1)
  }

  lemma TermPutOk(t: Terminal, cols: nat, rows: nat, c: byte)
    requires TerminalOk(t, cols, rows)
    ensures TerminalOk(TermPut(t, cols, c), cols, rows)
  {
    hide Area;
    IndexInGrid(t.x, t.y, cols, t.lines);
    AreaSum(t.lines, 1, cols);
  }

  function TermAct(t: Terminal, cols: nat, rows: nat, a: Action): (t': Terminal)
    requires TerminalOk(t, cols, rows)
    ensures TerminalOk(t', cols, rows)
  {
    match a
    case Put(c) =>
      TermPutOk(t, cols, rows, c);
      TermPut(t, cols, c)
    case SetColor(fg, bg) => t.(fg := fg, bg := bg)
  }

  /** The last `rows` lines of the terminal. */
  function Window(t: Terminal, cols: nat, rows: nat): (s: Screen)
    requires TerminalOk(t, cols, rows)
  {
    WindowFits(t, cols, rows);
    Screen(t.cells[Area(t.lines - rows, cols)..], t.x, t.y - (t.lines - rows), t.fg, t.bg)
  }

  lemma WindowFits(t: Terminal, cols: nat, rows: nat)
    requires TerminalOk(t, cols, rows)
    ensures |t.cells| == Area(t.lines - rows, cols) + Area(rows, cols)
    ensures Area(t.y, cols) == Area(t.lines - rows, cols) + Area(t.y - (t.lines - rows), cols)
  {
    AreaSum(t.lines - rows, rows, cols);
    AreaSum(t.lines - rows, t.y - (t.lines - rows), cols);
  }

  /** Going to the next line, with the console's cells already equal to the last lines of the terminal's. */
  lemma NextLineMatches(t: Terminal, cols: nat, rows: nat)
    requires TerminalOk(t, cols, rows) && cols > 0
    ensures TerminalOk(NextLine(t, cols), cols, rows) && ScreenOk(Window(t, cols, rows), cols, rows)
    ensures var s := Window(t, cols, rows).(x := 0);
            Window(NextLine(t, cols), cols, rows) ==
            if s.y + 1 >= rows then s.(grid := Scrolled(s, cols), y := rows - 1) else s.(y := s.y + 1)
  {
    hide Area, Blank;
    AreaSum(t.lines, 1, cols);
    WindowFits(t, cols, rows);
    BlankLength(t.fg, t.bg, cols);
    IndexInGrid(t.x, t.y - (t.lines - rows), cols, rows);
    if t.y + 1 >= t.lines {
      AreaSum(t.lines - rows, 1, cols);
      SliceScroll(t.cells, Area(t.lines - rows, cols), cols, Blank(t.fg, t.bg, cols));
    }
  }

  /** A cell filled in both. */
  lemma FillMatches(t: Terminal, cols: nat, rows: nat, c: byte)
    requires TerminalOk(t, cols, rows)
    ensures Area(t.y, cols) + t.x < |t.cells|
    ensures var t1 := t.(cells := t.cells[Area(t.y, cols) + t.x := Cell(c, t.fg, t.bg)]);
            var s := Window(t, cols, rows);
            && TerminalOk(t1, cols, rows) && Area(s.y, cols) + s.x < |s.grid|
            && Window(t1, cols, rows) == s.(grid := s.grid[Area(s.y, cols) + s.x := Cell(c, s.fg, s.bg)])
  {
    hide Area;
    WindowFits(t, cols, rows);
    IndexInGrid(t.x, t.y, cols, t.lines);
    IndexInGrid(t.x, t.y - (t.lines - rows), cols, rows);
    SliceUpdate(t.cells, Area(t.lines - rows, cols), Area(t.y, cols) + t.x, Cell(c, t.fg, t.bg));
  }

  /** One character keeps the console a window on the terminal. */
  lemma PutMatches(t: Terminal, cols: nat, rows: nat, c: byte)
    requires TerminalOk(t, cols, rows)
    ensures TerminalOk(TermPut(t, cols, c), cols, rows)
    ensures ScreenOk(Window(t, cols, rows), cols, rows)
    ensures Window(TermPut(t, cols, c), cols, rows) == PutChar(Window(t, cols, rows), cols, rows, c)
  {
    hide Area, Blank, NextLine;
    TermPutOk(t, cols, rows, c);
    WindowFits(t, cols, rows);
    NextLineMatches(t, cols, rows);
    FillMatches(t, cols, rows, c);
    var t1 := t.(cells := t.cells[Area(t.y, cols) + t.x := Cell(c, t.fg, t.bg)]);
    NextLineMatches(t1, cols, rows);
  }

  lemma SliceUpdate(cells: seq<Cell>, top: nat, k: nat, cell: Cell)
    requires top <= k < |cells|
    ensures cells[k := cell][top..] == cells[top..][k - top := cell]
  {
  }

  lemma SliceScroll(cells: seq<Cell>, top: nat, cols: nat, line: seq<Cell>)
    requires top + cols <= |cells|
    ensures (cells + line)[top + cols..] == cells[top..][cols..] + line
  {
  }

  lemma BlankLength(fg: nat, bg: nat, n: nat)
    ensures |Blank(fg, bg, n)| == n
  {
  }

  function ActAll(s: Screen, cols: nat, rows: nat, acts: seq<Action>): (s': Screen)
    requires ScreenOk(s, cols, rows)
    ensures ScreenOk(s', cols, rows)
    decreases |acts|
  {
    if acts == [] then s else ActAll(Act(s, cols, rows, acts[0]), cols, rows, acts[1..])
  }

  function TermAll(t: Terminal, cols: nat, rows: nat, acts: seq<Action>): (t': Terminal)
    requires TerminalOk(t, cols, rows)
    ensures TerminalOk(t', cols, rows)
    decreases |acts|
  {
    if acts == [] then t else TermAll(TermAct(t, cols, rows, acts[0]), cols, rows, acts[1..])
  }

  /** For every stream of characters and colour changes the console shows the last `rows` lines of a
      terminal that never scrolled, with the cursor inside the grid. */
  lemma {:induction false} ConsoleIsWindow(t: Terminal, cols: nat, rows: nat, acts: seq<Action>)
    requires TerminalOk(t, cols, rows)
    ensures ScreenOk(Window(t, cols, rows), cols, rows)
    ensures Window(TermAll(t, cols, rows, acts), cols, rows) == ActAll(Window(t, cols, rows), cols, rows, acts)
    decreases |acts|
  {
    hide Window, PutChar, TermPut;
    WindowOk(t, cols, rows);
    if acts != [] {
      var t1 := TermAct(t, cols, rows, acts[0]);
      match acts[0] {
        case Put(c) => PutMatches(t, cols, rows, c);
        case SetColor(fg, bg) => ColorMatches(t, cols, rows, fg, bg);
      }
      ConsoleIsWindow(t1, cols, rows, acts[1..]);
    }
  }

  lemma WindowOk(t: Terminal, cols: nat, rows: nat)
    requires TerminalOk(t, cols, rows)
    ensures ScreenOk(Window(t, cols, rows), cols, rows)
  {
    WindowFits(t, cols, rows);
  }

  lemma ColorMatches(t: Terminal, cols: nat, rows: nat, fg: nat, bg: nat)
    requires TerminalOk(t, cols, rows)
    ensures TerminalOk(t.(fg := fg, bg := bg), cols, rows)
    ensures Window(t.(fg := fg, bg := bg), cols, rows) == Window(t, cols, rows).(fg := fg, bg := bg)
  {
  }

  // ----- what a program sees -----------------------------------------------

  /** The control characters and the end of a line, on the screen itself. */
  lemma ControlLaws(s: Screen, cols: nat, rows: nat, c: byte)
    requires ScreenOk(s, cols, rows)
    ensures PutChar(s, cols, rows, 13) == s.(x := 0)
    ensures PutChar(s, cols, rows, 8) == s.(x := if s.x == 0 then 0 else s.x - 1)
    ensures s.y + 1 < rows ==> PutChar(s, cols, rows, 10) == s.(x := 0, y := s.y + 1)
    ensures s.y + 1 == rows ==>
              PutChar(s, cols, rows, 10) == s.(x := 0, grid := s.grid[cols..] + seq(cols, _ => Cell(32, s.fg, s.bg)))
    ensures c != 8 && c != 10 && c != 13 && s.x + 1 == cols ==>
              PutChar(s, cols, rows, c) == PutChar(Written(s, cols, rows, c), cols, rows, 10)
  {
    hide Area;
    IndexInGrid(s.x, s.y, cols, rows);
  }

  /** The cell at the cursor filled. */
  function Written(s: Screen, cols: nat, rows: nat, c: byte): (s': Screen)
    requires ScreenOk(s, cols, rows)
    ensures ScreenOk(s', cols, rows)
  {
    IndexInGrid(s.x, s.y, cols, rows);
    s.(grid := s.grid[Area(s.y, cols) + s.x := Cell(c, s.fg, s.bg)])
  }

  predicate Printable(text: seq<byte>) { forall k :: 0 <= k < |text| ==> text[k] != 8 && text[k] != 10 && text[k] != 13 }

  /** The grid with a text written from position `p` on. */
  function Overwritten(grid: seq<Cell>, p: nat, text: seq<byte>, fg: nat, bg: nat): (g: seq<Cell>)
    requires p + |text| <= |grid|
  {
    grid[..p] + seq(|text|, k requires 0 <= k < |text| => Cell(text[k], fg, bg)) + grid[p + |text|..]
  }

  /** Text that fits in its line fills the cells from the cursor on, in order, and leaves the cursor behind
      it; nothing else changes. */
  lemma {:induction false} LineLaw(s: Screen, cols: nat, rows: nat, text: seq<byte>)
    requires ScreenOk(s, cols, rows) && Printable(text) && s.x + |text| < cols
    ensures Area(s.y, cols) + s.x + |text| <= |s.grid|
    ensures ActAll(s, cols, rows, Putting(text)) ==
            s.(grid := Overwritten(s.grid, Area(s.y, cols) + s.x, text, s.fg, s.bg), x := s.x + |text|)
    decreases |text|
  {
    hide Area;
    IndexInGrid(s.x + |text|, s.y, cols, rows);
    var p := Area(s.y, cols) + s.x;
    if text == [] {
      assert Overwritten(s.grid, p, text, s.fg, s.bg) == s.grid;
    } else {
      var s1 := PutChar(s, cols, rows, text[0]);
      PrintableStep(s, cols, rows, text[0]);
      assert Putting(text)[1..] == Putting(text[1..]);
      LineLaw(s1, cols, rows, text[1..]);
      OverwrittenStep(s.grid, p, text, s.fg, s.bg);
    }
  }

  function Putting(text: seq<byte>): (acts: seq<Action>)
  {
    seq(|text|, k requires 0 <= k < |text| => Put(text[k]))
  }

  lemma PrintableStep(s: Screen, cols: nat, rows: nat, c: byte)
    requires ScreenOk(s, cols, rows) && c != 8 && c != 10 && c != 13 && s.x + 1 < cols
    ensures PutChar(s, cols, rows, c) == Written(s, cols, rows, c).(x := s.x + 1)
  {
  }

  lemma OverwrittenStep(grid: seq<Cell>, p: nat, text: seq<byte>, fg: nat, bg: nat)
    requires text != [] && p + |text| <= |grid|
    ensures Overwritten(grid[p := Cell(text[0], fg, bg)], p + 1, text[1..], fg, bg) == Overwritten(grid, p, text, fg, bg)
  {
  }
}
