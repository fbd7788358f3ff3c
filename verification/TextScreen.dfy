/**
 The text console of kernel/src/console_fb.c as a grid of 80 by 60 cells, and the pixels such a
 grid denotes. ScreenObject.dfy holds the code that paints the 640 by 480 framebuffer in place.
 */
module TextScreen {
  const WIDTH: int := 640
  const HEIGHT: int := 480
  const CELL: int := 8
  const COLS: int := 80
  const ROWS: int := 60
  const ASCII_MIN: int := 32
  const ASCII_MAX: int := 126
  const FONT_SIZE: int := 95 * 64

  /** A cell shows nothing, a box (for characters outside the font), or a glyph. */
  datatype Cell = Blank(bg: nat) | Box(fg: nat, bg: nat) | Glyph(ch: int, fg: nat, bg: nat)

  type Row = seq<Cell>
  datatype Screen = Screen(grid: seq<Row>, cx: int, cy: int, fg: nat, bg: nat)

  predicate Drawable(c: Cell) {
    c.Glyph? ==> ASCII_MIN <= c.ch <= ASCII_MAX
  }

  ghost predicate GridOk(grid: seq<Row>) {
    && |grid| == ROWS
    && (forall y :: 0 <= y < ROWS ==> |grid[y]| == COLS)
    && (forall y, x :: 0 <= y < ROWS && 0 <= x < COLS ==> Drawable(grid[y][x]))
  }

  /** Dimensions right, cursor inside the grid. */
  ghost predicate ScreenOk(s: Screen) {
    GridOk(s.grid) && 0 <= s.cx < COLS && 0 <= s.cy < ROWS
  }

  function BlankRow(bg: nat): Row {
    seq(COLS, _ => Blank(bg))
  }

  function BlankGrid(bg: nat): seq<Row> {
    seq(ROWS, _ => BlankRow(bg))
  }

  function Put(s: Screen, cell: Cell): Screen
    requires ScreenOk(s)
  {
    s.(grid := s.grid[s.cy := s.grid[s.cy][s.cx := cell]])
  }

  function ScrollUp(grid: seq<Row>, bg: nat): seq<Row>
    requires |grid| > 0
  {
    grid[1..] + [BlankRow(bg)]
  }

  function Newline(s: Screen): Screen
    requires ScreenOk(s)
  {
    if s.cy + 1 >= ROWS then s.(cx := 0, cy := ROWS - 1, grid := ScrollUp(s.grid, s.bg))
    else s.(cx := 0, cy := s.cy + 1)
  }

  function Clear(s: Screen): Screen {
    s.(grid := BlankGrid(s.bg), cx := 0, cy := 0)
  }

  /** Step right, wrapping to a new line after the last column. */
  function Advance(s: Screen): Screen
    requires ScreenOk(s)
  {
    if s.cx + 1 >= COLS then Newline(s) else s.(cx := s.cx + 1)
  }

  function CellFor(s: Screen, c: nat): Cell {
    if c == 0 then Blank(s.bg)
    else if ASCII_MIN <= c <= ASCII_MAX then Glyph(c, s.fg, s.bg)
    else Box(s.fg, s.bg)
  }

  /** A character that is drawn in a cell. */
  function Show(s: Screen, c: nat): Screen
    requires ScreenOk(s)
  {
    PutOk(s, CellFor(s, c));
    Advance(Put(s, CellFor(s, c)))
  }

  function Backspace(s: Screen): Screen
    requires ScreenOk(s)
  {
    if s.cx > 0 then Put(s.(cx := s.cx - 1), Blank(s.bg))
    else if s.cy > 0 then Put(s.(cy := s.cy - 1, cx := COLS - 1), Blank(s.bg))
    else s
  }

  function Spaces(s: Screen, n: nat): (r: Screen)
    requires ScreenOk(s)
    ensures ScreenOk(r)
    decreases n
  {
    if n == 0 then s else ShowOk(s, 32); Spaces(Show(s, 32), n - 1)
  }

  function Putc(s: Screen, c: nat): Screen
    requires ScreenOk(s)
  {
    if c == 7 then s
    else if c == 10 || c == 11 then Newline(s)
    else if c == 12 then Clear(s)
    else if c == 8 then Backspace(s)
    else if c == 13 then s.(cx := 0)
    else if c == 9 then Spaces(s, 4)
    else Show(s, c)
  }

  // ---------------------------------------------------------------------------
  // Every operation keeps the cursor on a well-formed grid
  // ---------------------------------------------------------------------------

  lemma PutOk(s: Screen, cell: Cell)
    requires ScreenOk(s) && Drawable(cell)
    ensures ScreenOk(Put(s, cell))
  {
  }

  lemma NewlineOk(s: Screen)
    requires ScreenOk(s)
    ensures ScreenOk(Newline(s))
  {
    var g := ScrollUp(s.grid, s.bg);
    forall y | 0 <= y < ROWS
      ensures g[y] == if y < ROWS - 1 then s.grid[y + 1] else BlankRow(s.bg)
    {
    }
  }

  lemma ShowOk(s: Screen, c: nat)
    requires ScreenOk(s)
    ensures ScreenOk(Show(s, c))
  {
    PutOk(s, CellFor(s, c));
    NewlineOk(Put(s, CellFor(s, c)));
  }

  lemma BackspaceOk(s: Screen)
    requires ScreenOk(s)
    ensures ScreenOk(Backspace(s))
  {
    if s.cx > 0 {
      PutOk(s.(cx := s.cx - 1), Blank(s.bg));
    } else if s.cy > 0 {
      PutOk(s.(cy := s.cy - 1, cx := COLS - 1), Blank(s.bg));
    }
  }

  lemma PutcOk(s: Screen, c: nat)
    requires ScreenOk(s)
    ensures ScreenOk(Putc(s, c))
  {
    if c == 10 || c == 11 {
      NewlineOk(s);
    } else if c == 8 {
      BackspaceOk(s);
    } else if c != 7 && c != 12 && c != 13 && c != 9 {
      ShowOk(s, c);
    }
  }

  datatype Event = EvPutc(c: nat) | EvClear | EvColors(fg: nat, bg: nat)

  function Next(s: Screen, e: Event): Screen
    requires ScreenOk(s)
  {
    match e
    case EvPutc(c) => Putc(s, c)
    case EvClear => Clear(s)
    case EvColors(fg, bg) => s.(fg := fg, bg := bg)
  }

  lemma NextOk(s: Screen, e: Event)
    requires ScreenOk(s)
    ensures ScreenOk(Next(s, e))
  {
    if e.EvPutc? {
      PutcOk(s, e.c);
    }
  }

  /** Any history of characters, clears and colour changes. */
  ghost function Run(s: Screen, es: seq<Event>): (r: Screen)
    requires ScreenOk(s)
    ensures ScreenOk(r)
    decreases |es|
  {
    if es == [] then s else NextOk(s, es[0]); Run(Next(s, es[0]), es[1..])
  }

  // ---------------------------------------------------------------------------
  // What printing and backspacing do to the picture
  // ---------------------------------------------------------------------------

  /** The screen after the cell under the cursor has been blanked. */
  function Blanked(s: Screen): Screen
    requires ScreenOk(s)
  {
    Put(s, Blank(s.bg))
  }

  /**
   A drawn character followed by a backspace returns the cursor and leaves its cell blank; on the
   last cell of the screen the picture has scrolled up by one line in between.
   */
  lemma BackspaceUndoesShow(s: Screen, c: nat)
    requires ScreenOk(s)
    ensures ScreenOk(Show(s, c))
    ensures Backspace(Show(s, c)) ==
            if s.cx == COLS - 1 && s.cy == ROWS - 1
            then Blanked(s).(grid := ScrollUp(Blanked(s).grid, s.bg), cy := ROWS - 2)
            else Blanked(s)
  {
    ShowOk(s, c);
    var cell := CellFor(s, c);
    PutOk(s, cell);
    PutOk(s, Blank(s.bg));
    var row := s.grid[s.cy];
    assert row[s.cx := cell][s.cx := Blank(s.bg)] == row[s.cx := Blank(s.bg)];
    var r := Backspace(Show(s, c));
    var want := if s.cx == COLS - 1 && s.cy == ROWS - 1 then ScrollUp(Blanked(s).grid, s.bg) else Blanked(s).grid;
    assert r.grid == want;
  }

  /** Printable text that fits on the line lands in consecutive cells, and the cursor ends just after it. */
  lemma {:induction false} TextLandsInOrder(s: Screen, w: seq<nat>)
    requires ScreenOk(s) && s.cx + |w| < COLS
    requires forall k :: 0 <= k < |w| ==> ASCII_MIN <= w[k] <= ASCII_MAX
    ensures var r := Run(s, seq(|w|, k requires 0 <= k < |w| => EvPutc(w[k])));
            && r.cx == s.cx + |w| && r.cy == s.cy && r.fg == s.fg && r.bg == s.bg
            && (forall y :: 0 <= y < ROWS && y != s.cy ==> r.grid[y] == s.grid[y])
            && (forall x :: 0 <= x < s.cx || s.cx + |w| <= x < COLS ==> r.grid[s.cy][x] == s.grid[s.cy][x])
            && (forall k :: 0 <= k < |w| ==> r.grid[s.cy][s.cx + k] == Glyph(w[k], s.fg, s.bg))
    decreases |w|
  {
    var es := seq(|w|, k requires 0 <= k < |w| => EvPutc(w[k]));
    if w != [] {
      NextOk(s, es[0]);
      var s1 := Next(s, es[0]);
      assert s1 == Put(s, Glyph(w[0], s.fg, s.bg)).(cx := s.cx + 1);
      TextLandsInOrder(s1, w[1..]);
      assert es[1..] == seq(|w| - 1, k requires 0 <= k < |w| - 1 => EvPutc(w[1..][k]));
      var r := Run(s, es);
      forall k | 0 <= k < |w|
        ensures r.grid[s.cy][s.cx + k] == Glyph(w[k], s.fg, s.bg)
      {
        if k > 0 {
          assert r.grid[s1.cy][s1.cx + (k - 1)] == Glyph(w[1..][k - 1], s.fg, s.bg);
        }
      }
    }
  }

  /** Blank lines enough to scroll everything away: 60 newlines from the bottom row leave an empty screen. */
  function Newlines(s: Screen, n: nat): Screen
    requires ScreenOk(s)
    decreases n
  {
    if n == 0 then s else NewlineOk(s); Newlines(Newline(s), n - 1)
  }

  lemma {:induction false} NewlinesScroll(s: Screen, n: nat)
    requires ScreenOk(s) && s.cy == ROWS - 1 && n <= ROWS
    ensures |Newlines(s, n).grid| == ROWS
    ensures Newlines(s, n).grid[..ROWS - n] == s.grid[n..]
    ensures forall y :: ROWS - n <= y < ROWS ==> Newlines(s, n).grid[y] == BlankRow(s.bg)
    decreases n
  {
    if n > 0 {
      NewlineOk(s);
      var s1 := Newline(s);
      NewlinesScroll(s1, n - 1);
      var g := Newlines(s, n).grid;
      assert s1.grid[n - 1..][..ROWS - n] == s.grid[n..];
      assert g[..ROWS - (n - 1)][..ROWS - n] == g[..ROWS - n];
      assert g[ROWS - n] == g[..ROWS - (n - 1)][ROWS - n] == s1.grid[n - 1..][ROWS - n];
    }
  }

  // ---------------------------------------------------------------------------
  // What each character does
  // ---------------------------------------------------------------------------

  /** Line feed and vertical tab: column 0 of the next row; on the bottom row everything moves up one row instead. */
  lemma LineFeed(s: Screen, c: nat)
    requires ScreenOk(s) && (c == 10 || c == 11)
    ensures s.cy < 59 ==> Putc(s, c) == s.(cx := 0, cy := s.cy + 1)
    ensures s.cy == 59 ==> Putc(s, c) == s.(cx := 0, grid := s.grid[1..] + [seq(80, _ => Blank(s.bg))])
  {
  }

  /** Carriage return: column 0 of the same row. Bell: nothing. Form feed: an empty screen. */
  lemma ReturnBellFormFeed(s: Screen)
    requires ScreenOk(s)
    ensures Putc(s, 13) == s.(cx := 0) && Putc(s, 7) == s
    ensures Putc(s, 12) == Screen(seq(60, _ => seq(80, _ => Blank(s.bg))), 0, 0, s.fg, s.bg)
  {
    var blank := seq(80, _ => Blank(s.bg));
    assert BlankRow(s.bg) == blank;
    assert BlankGrid(s.bg) == seq(60, _ => blank);
  }

  /** Backspace: blanks the cell before the cursor and goes there, across the line break too; in the top left corner, nothing. */
  lemma BackspaceKey(s: Screen)
    requires ScreenOk(s)
    ensures s.cx == 0 && s.cy == 0 ==> Putc(s, 8) == s
    ensures s.cx > 0 ==> Putc(s, 8) == s.(cx := s.cx - 1, grid := s.grid[s.cy := s.grid[s.cy][s.cx - 1 := Blank(s.bg)]])
    ensures s.cx == 0 && s.cy > 0 ==>
              Putc(s, 8) == s.(cx := 79, cy := s.cy - 1, grid := s.grid[s.cy - 1 := s.grid[s.cy - 1][79 := Blank(s.bg)]])
  {
  }

  /** Everything that is not a control character of the list above. */
  predicate Drawn(c: nat) {
    c != 7 && c != 8 && c != 9 && c != 10 && c != 11 && c != 12 && c != 13
  }

  /** Clearing is a form feed; new colours leave what is shown and hold for what comes. */
  lemma ClearAndColours(s: Screen, fg: nat, bg: nat)
    requires ScreenOk(s)
    ensures Next(s, EvClear) == Putc(s, 12)
    ensures Next(s, EvColors(fg, bg)) == Screen(s.grid, s.cx, s.cy, fg, bg)
  {
  }

  /** A drawn character changes the cell under the cursor and no other, and steps right. */
  lemma DrawnCharacter(s: Screen, c: nat)
    requires ScreenOk(s) && Drawn(c) && s.cx < 79
    ensures var cell := if c == 0 then Blank(s.bg) else if 32 <= c <= 126 then Glyph(c, s.fg, s.bg) else Box(s.fg, s.bg);
            Putc(s, c) == s.(cx := s.cx + 1, grid := s.grid[s.cy := s.grid[s.cy][s.cx := cell]])
  {
  }

  /** In the last column it is drawn there, and the line breaks. */
  lemma DrawnInLastColumn(s: Screen, c: nat)
    requires ScreenOk(s) && Drawn(c) && s.cx == 79
    ensures var cell := if c == 0 then Blank(s.bg) else if 32 <= c <= 126 then Glyph(c, s.fg, s.bg) else Box(s.fg, s.bg);
            var drawn := s.(grid := s.grid[s.cy := s.grid[s.cy][79 := cell]]);
            ScreenOk(drawn) && Putc(s, c) == Putc(drawn, 10)
  {
    PutOk(s, CellFor(s, c));
  }

  /** A printed character followed by backspace: the cursor is back and its cell is blank. */
  lemma BackspaceUndoesPrinted(s: Screen, c: nat)
    requires ScreenOk(s) && Drawn(c) && !(s.cx == 79 && s.cy == 59)
    ensures ScreenOk(Putc(s, c)) && Putc(Putc(s, c), 8) == s.(grid := s.grid[s.cy := s.grid[s.cy][s.cx := Blank(s.bg)]])
  {
    BackspaceUndoesShow(s, c);
  }

  /** Tab prints four spaces. */
  lemma TabPrintsFourSpaces(s: Screen)
    requires ScreenOk(s) && s.cx + 4 < 80
    ensures var r, g := Putc(s, 9), Glyph(32, s.fg, s.bg);
            && r.cx == s.cx + 4 && r.cy == s.cy && r.fg == s.fg && r.bg == s.bg
            && |r.grid| == 60 && r.grid[s.cy] == s.grid[s.cy][..s.cx] + [g, g, g, g] + s.grid[s.cy][s.cx + 4..]
            && forall y :: 0 <= y < 60 && y != s.cy ==> r.grid[y] == s.grid[y]
  {
    var g := Glyph(32, s.fg, s.bg);
    ShowOk(s, 32);
    var s1 := Show(s, 32);
    ShowOk(s1, 32);
    var s2 := Show(s1, 32);
    ShowOk(s2, 32);
    var s3 := Show(s2, 32);
    ShowOk(s3, 32);
    assert Spaces(s, 4) == Spaces(s1, 3) == Spaces(s2, 2) == Spaces(s3, 1) == Show(s3, 32);
    assert Show(s3, 32).grid[s.cy] == s.grid[s.cy][s.cx := g][s.cx + 1 := g][s.cx + 2 := g][s.cx + 3 := g];
  }

  /** The events of printing a text. */
  function Typed(w: seq<nat>): seq<Event> {
    seq(|w|, k requires 0 <= k < |w| => EvPutc(w[k]))
  }

  lemma {:induction false} RunConcat(s: Screen, a: seq<Event>, b: seq<Event>)
    requires ScreenOk(s)
    ensures Run(s, a + b) == Run(Run(s, a), b)
    decreases |a|
  {
    if a == [] {
      assert a + b == b;
    } else {
      NextOk(s, a[0]);
      assert (a + b)[1..] == a[1..] + b;
      RunConcat(Next(s, a[0]), a[1..], b);
    }
  }

  /** The text w stands in row y from column x on. */
  ghost predicate Reads(grid: seq<Row>, y: int, x: int, w: seq<nat>, fg: nat, bg: nat) {
    && 0 <= y < |grid| && 0 <= x && x + |w| <= |grid[y]|
    && forall k :: 0 <= k < |w| ==> grid[y][x + k] == Glyph(w[k], fg, bg)
  }

  predicate Printable(w: seq<nat>) {
    forall k :: 0 <= k < |w| ==> 32 <= w[k] <= 126
  }

  ghost predicate SameRowsBut(a: seq<Row>, b: seq<Row>, y: int) {
    |a| == |b| && forall z :: 0 <= z < |a| && z != y ==> a[z] == b[z]
  }

  lemma TextReads(s: Screen, w: seq<nat>)
    requires ScreenOk(s) && s.cx + |w| < 80 && Printable(w)
    ensures var r := Run(s, Typed(w));
            && r.cx == s.cx + |w| && r.cy == s.cy && r.fg == s.fg && r.bg == s.bg
            && Reads(r.grid, s.cy, s.cx, w, s.fg, s.bg) && SameRowsBut(s.grid, r.grid, s.cy)
  {
    TextLandsInOrder(s, w);
  }

  lemma LineThen(s: Screen, w: seq<nat>, rest: seq<Event>)
    requires ScreenOk(s)
    ensures ScreenOk(Putc(Run(s, Typed(w)), 10))
    ensures Run(s, Typed(w) + ([EvPutc(10)] + rest)) == Run(Putc(Run(s, Typed(w)), 10), rest)
  {
    var s1 := Run(s, Typed(w));
    NextOk(s1, EvPutc(10));
    RunConcat(s, Typed(w), [EvPutc(10)] + rest);
    assert ([EvPutc(10)] + rest)[1..] == rest;
  }

  /** Two texts with a line feed between them land one below the other, the second from column 0. */
  lemma TwoLinesLand(s: Screen, a: seq<nat>, b: seq<nat>)
    requires ScreenOk(s) && s.cx + |a| < 80 && |b| < 80 && s.cy < 59 && Printable(a) && Printable(b)
    ensures var r := Run(s, Typed(a) + ([EvPutc(10)] + Typed(b)));
            && r.cx == |b| && r.cy == s.cy + 1
            && Reads(r.grid, s.cy, s.cx, a, s.fg, s.bg) && Reads(r.grid, s.cy + 1, 0, b, s.fg, s.bg)
  {
    TextReads(s, a);
    var s1 := Run(s, Typed(a));
    LineFeed(s1, 10);
    LineThen(s, a, Typed(b));
    TextReads(Putc(s1, 10), b);
  }

  // ---------------------------------------------------------------------------
  // The pixels of a grid
  // ---------------------------------------------------------------------------

  /** Position of pixel (row, column) in the framebuffer. */
  function At(r: int, c: int): int {
    r * WIDTH + c
  }

  predicate OnScreen(r: int, c: int) {
    0 <= r < HEIGHT && 0 <= c < WIDTH
  }

  function CellPixel(font: seq<int>, cell: Cell, x: int, y: int): nat
    requires |font| == FONT_SIZE && Drawable(cell) && 0 <= x < CELL && 0 <= y < CELL
  {
    match cell
    case Blank(bg) => bg
    case Box(fg, bg) => if y == 0 || y == CELL - 1 || x == 0 || x == CELL - 1 then fg else bg
    case Glyph(ch, fg, bg) => if font[(ch - ASCII_MIN) * 64 + y * CELL + x] != 0 then fg else bg
  }

  ghost function Pixel(font: seq<int>, grid: seq<Row>, r: int, c: int): nat
    requires |font| == FONT_SIZE && GridOk(grid) && OnScreen(r, c)
  {
    CellPixel(font, grid[r / CELL][c / CELL], c % CELL, r % CELL)
  }

  /** The framebuffer shows exactly this grid. */
  ghost predicate Shows(pixels: seq<nat>, font: seq<int>, grid: seq<Row>) {
    && |pixels| == WIDTH * HEIGHT && |font| == FONT_SIZE && GridOk(grid)
    && forall r, c {:trigger At(r, c)} :: OnScreen(r, c) ==> pixels[At(r, c)] == Pixel(font, grid, r, c)
  }

  /** A grid has only one picture: every one of the 307200 pixels is determined. */
  lemma PictureIsUnique(a: seq<nat>, b: seq<nat>, font: seq<int>, grid: seq<Row>)
    requires Shows(a, font, grid) && Shows(b, font, grid)
    ensures a == b
  {
    forall p | 0 <= p < WIDTH * HEIGHT
      ensures a[p] == b[p]
    {
      assert p == At(p / WIDTH, p % WIDTH);
    }
  }

  /** Pixel by pixel: where cell (x, y) is, and what its pixel (i, j) shows. */
  lemma ShownPixel(pixels: seq<nat>, font: seq<int>, grid: seq<Row>, x: int, y: int, i: int, j: int)
    requires Shows(pixels, font, grid) && 0 <= x < 80 && 0 <= y < 60 && 0 <= i < 8 && 0 <= j < 8
    ensures 0 <= (8 * y + j) * 640 + (8 * x + i) < |pixels|
    ensures var p, cell := pixels[(8 * y + j) * 640 + (8 * x + i)], grid[y][x];
            match cell
            case Blank(bg) => p == bg
            case Box(fg, bg) => p == if 1 <= i <= 6 && 1 <= j <= 6 then bg else fg
            case Glyph(ch, fg, bg) =>
              && 0 <= (ch - 32) * 64 + j * 8 + i < |font|
              && p == if font[(ch - 32) * 64 + j * 8 + i] == 0 then bg else fg
  {
    var r, c := 8 * y + j, 8 * x + i;
    assert r / 8 == y && r % 8 == j && c / 8 == x && c % 8 == i;
    assert OnScreen(r, c) && At(r, c) == (8 * y + j) * 640 + (8 * x + i);
    assert Drawable(grid[y][x]);
  }
}
