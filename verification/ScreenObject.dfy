/**
 The framebuffer painted in place. The ghost screen is what the user sees as text; Valid says that
 the 307200 pixels are exactly its picture, and every method says which screen comes next.
 */
module ScreenObject {
  import opened TextScreen

  /** Pixel (r, c) lies in the cell in column cx of row cy. */
  predicate InCell(r: int, c: int, cx: int, cy: int) {
    cy * CELL <= r < cy * CELL + CELL && cx * CELL <= c < cx * CELL + CELL
  }

  /** Is the pixel among those a cell loop has written when it stands at (y, x)? */
  predicate Passed(r: int, c: int, cx: int, cy: int, y: int, x: int) {
    InCell(r, c, cx, cy) && (r - cy * CELL < y || (r - cy * CELL == y && c - cx * CELL < x))
  }

  /** Progress of painting one cell: passed pixels are the cell's, the rest are as before. */
  ghost predicate Painting(pixels: seq<nat>, was: seq<nat>, font: seq<int>, cell: Cell, cx: int, cy: int, y: int, x: int) {
    && |pixels| == |was| == WIDTH * HEIGHT && |font| == FONT_SIZE && Drawable(cell)
    && 0 <= cx < COLS && 0 <= cy < ROWS
    && forall r, c {:trigger At(r, c)} :: OnScreen(r, c) ==>
         pixels[At(r, c)] ==
           if Passed(r, c, cx, cy, y, x) then CellPixel(font, cell, c - cx * CELL, r - cy * CELL) else was[At(r, c)]
  }

  lemma PaintStep(pixels: seq<nat>, was: seq<nat>, font: seq<int>, cell: Cell, cx: int, cy: int, y: int, x: int)
    requires Painting(pixels, was, font, cell, cx, cy, y, x) && 0 <= y < CELL && 0 <= x < CELL
    ensures 0 <= At(cy * CELL + y, cx * CELL + x) < |pixels|
    ensures Painting(pixels[At(cy * CELL + y, cx * CELL + x) := CellPixel(font, cell, x, y)],
                     was, font, cell, cx, cy, y, x + 1)
  {
  }

  lemma PaintRowDone(pixels: seq<nat>, was: seq<nat>, font: seq<int>, cell: Cell, cx: int, cy: int, y: int)
    requires Painting(pixels, was, font, cell, cx, cy, y, CELL)
    ensures Painting(pixels, was, font, cell, cx, cy, y + 1, 0)
  {
  }

  /** A fully painted cell turns the picture of a grid into the picture of the updated grid. */
  lemma PaintedCell(pixels: seq<nat>, was: seq<nat>, font: seq<int>, grid: seq<Row>, cell: Cell, cx: int, cy: int)
    requires Painting(pixels, was, font, cell, cx, cy, CELL, 0) && Shows(was, font, grid)
    ensures Shows(pixels, font, grid[cy := grid[cy][cx := cell]])
  {
    var grid' := grid[cy := grid[cy][cx := cell]];
    forall r, c {:trigger At(r, c)} | OnScreen(r, c)
      ensures pixels[At(r, c)] == Pixel(font, grid', r, c)
    {
      assert InCell(r, c, cx, cy) <==> r / CELL == cy && c / CELL == cx;
    }
  }

  /** Rows above y, and the first x pixels of row y, come from 8 rows further down; the rest is as before. */
  ghost predicate Scrolling(pixels: seq<nat>, was: seq<nat>, y: int, x: int) {
    && |pixels| == |was| == WIDTH * HEIGHT
    && forall r, c {:trigger At(r, c)} :: OnScreen(r, c) ==>
         pixels[At(r, c)] == if r < HEIGHT - CELL && (r < y || (r == y && c < x)) then was[At(r + CELL, c)] else was[At(r, c)]
  }

  lemma ScrollStep(pixels: seq<nat>, was: seq<nat>, y: int, x: int)
    requires Scrolling(pixels, was, y, x) && 0 <= y < HEIGHT - CELL && 0 <= x < WIDTH
    ensures 0 <= At(y, x) < |pixels| && 0 <= At(y + CELL, x) < |pixels|
    ensures Scrolling(pixels[At(y, x) := pixels[At(y + CELL, x)]], was, y, x + 1)
  {
  }

  /** Rows from top on are filled with the background up to (y, x); the rest is as in was. */
  ghost predicate Filling(pixels: seq<nat>, was: seq<nat>, bg: nat, top: int, y: int, x: int) {
    && |pixels| == |was| == WIDTH * HEIGHT
    && forall r, c {:trigger At(r, c)} :: OnScreen(r, c) ==>
         pixels[At(r, c)] == if top <= r && (r < y || (r == y && c < x)) then bg else was[At(r, c)]
  }

  lemma FillStep(pixels: seq<nat>, was: seq<nat>, bg: nat, top: int, y: int, x: int)
    requires Filling(pixels, was, bg, top, y, x) && top <= y && 0 <= y < HEIGHT && 0 <= x < WIDTH
    ensures 0 <= At(y, x) < |pixels|
    ensures Filling(pixels[At(y, x) := bg], was, bg, top, y, x + 1)
  {
  }

  /** Shifting the pixels up by 8 rows and filling the bottom is shifting the grid up by one. */
  lemma ScrolledGrid(pixels: seq<nat>, mid: seq<nat>, was: seq<nat>, font: seq<int>, grid: seq<Row>, bg: nat)
    requires Shows(was, font, grid) && Scrolling(mid, was, HEIGHT - CELL, 0)
    requires Filling(pixels, mid, bg, HEIGHT - CELL, HEIGHT, 0)
    ensures Shows(pixels, font, ScrollUp(grid, bg))
  {
    var grid' := ScrollUp(grid, bg);
    assert forall y :: 0 <= y < ROWS ==> grid'[y] == if y < ROWS - 1 then grid[y + 1] else BlankRow(bg);
    forall r, c {:trigger At(r, c)} | OnScreen(r, c)
      ensures pixels[At(r, c)] == Pixel(font, grid', r, c)
    {
      if r < HEIGHT - CELL {
        assert pixels[At(r, c)] == mid[At(r, c)] == was[At(r + CELL, c)];
        assert (r + CELL) / CELL == r / CELL + 1;
      }
    }
  }

  lemma ClearedGrid(pixels: seq<nat>, was: seq<nat>, font: seq<int>, bg: nat)
    requires |font| == FONT_SIZE && Filling(pixels, was, bg, 0, HEIGHT, 0)
    ensures Shows(pixels, font, BlankGrid(bg))
  {
    var grid := BlankGrid(bg);
    assert forall y :: 0 <= y < ROWS ==> grid[y] == BlankRow(bg);
  }

  class Framebuffer {
    const fb: array<nat>
    const font: seq<int>
    var cursorX: int
    var cursorY: int
    var fg: nat
    var bg: nat
    ghost var screen: Screen

    ghost predicate Sized() {
      fb.Length == WIDTH * HEIGHT && |font| == FONT_SIZE
    }

    ghost predicate Valid()
      reads this, fb
    {
      && Sized()
      && ScreenOk(screen)
      && screen.cx == cursorX && screen.cy == cursorY && screen.fg == fg && screen.bg == bg
      && Shows(fb[..], font, screen.grid)
    }

    /** console_fb_init: default colours and a cleared screen. */
    constructor (font: seq<int>)
      requires |font| == FONT_SIZE
      ensures Valid() && fresh(fb)
      ensures screen == Screen(BlankGrid(0), 0, 0, 0xFFFFFF, 0)
    {
      this.font := font;
      fb := new nat[WIDTH * HEIGHT](_ => 0);
      fg, bg, cursorX, cursorY := 0xFFFFFF, 0, 0, 0;
      new;
      ClearScreen();
    }

    method SetColors(f: nat, b: nat)
      requires Valid()
      modifies this
      ensures Valid() && screen == old(screen).(fg := f, bg := b)
    {
      fg, bg := f, b;
      screen := screen.(fg := f, bg := b);
    }

    /** Fill rows top .. HEIGHT with the background colour. */
    method FillRows(top: int)
      requires Sized() && 0 <= top <= HEIGHT
      modifies fb
      ensures Filling(fb[..], old(fb[..]), bg, top, HEIGHT, 0)
    {
      ghost var was := fb[..];
      var y := top;
      while y < HEIGHT
        invariant top <= y <= HEIGHT
        invariant Filling(fb[..], was, bg, top, y, 0)
      {
        var x := 0;
        while x < WIDTH
          invariant 0 <= x <= WIDTH
          invariant Filling(fb[..], was, bg, top, y, x)
        {
          FillStep(fb[..], was, bg, top, y, x);
          fb[y * WIDTH + x] := bg;
          x := x + 1;
        }
        y := y + 1;
      }
    }

    method ClearScreen()
      requires Sized()
      modifies this, fb
      ensures Valid() && fg == old(fg) && bg == old(bg)
      ensures screen == Screen(BlankGrid(bg), 0, 0, fg, bg)
    {
      FillRows(0);
      ClearedGrid(fb[..], old(fb[..]), font, bg);
      cursorX, cursorY := 0, 0;
      screen := Screen(BlankGrid(bg), 0, 0, fg, bg);
    }

    method ShiftRowsUp()
      requires Sized()
      modifies fb
      ensures Scrolling(fb[..], old(fb[..]), HEIGHT - CELL, 0)
    {
      ghost var was := fb[..];
      var y := 0;
      while y < HEIGHT - CELL
        invariant 0 <= y <= HEIGHT - CELL
        invariant Scrolling(fb[..], was, y, 0)
      {
        var x := 0;
        while x < WIDTH
          invariant 0 <= x <= WIDTH
          invariant Scrolling(fb[..], was, y, x)
        {
          ScrollStep(fb[..], was, y, x);
          fb[y * WIDTH + x] := fb[(y + CELL) * WIDTH + x];
          x := x + 1;
        }
        y := y + 1;
      }
    }

    method ScrollOneLine()
      requires Valid()
      modifies this`screen, fb
      ensures Valid() && screen == old(screen).(grid := ScrollUp(old(screen).grid, bg))
    {
      ghost var was := fb[..];
      ShiftRowsUp();
      ghost var mid := fb[..];
      FillRows(HEIGHT - CELL);
      ScrolledGrid(fb[..], mid, was, font, screen.grid, bg);
      screen := screen.(grid := ScrollUp(screen.grid, bg));
    }

    method NewLine()
      requires Valid()
      modifies this, fb
      ensures Valid() && screen == Newline(old(screen))
    {
      NewlineOk(screen);
      cursorX := 0;
      cursorY := cursorY + 1;
      if cursorY >= ROWS {
        cursorY := ROWS - 1;
        screen := screen.(cx := 0, cy := ROWS - 1);
        ScrollOneLine();
      } else {
        screen := screen.(cx := 0, cy := cursorY);
      }
    }

    method ClearCell(cx: int, cy: int)
      requires Sized() && 0 <= cx < COLS && 0 <= cy < ROWS
      modifies fb
      ensures Painting(fb[..], old(fb[..]), font, Blank(bg), cx, cy, CELL, 0)
    {
      ghost var was := fb[..];
      var py, px := cy * CELL, cx * CELL;
      var y := 0;
      while y < CELL
        invariant 0 <= y <= CELL
        invariant Painting(fb[..], was, font, Blank(bg), cx, cy, y, 0)
      {
        var x := 0;
        while x < CELL
          invariant 0 <= x <= CELL
          invariant Painting(fb[..], was, font, Blank(bg), cx, cy, y, x)
        {
          PaintStep(fb[..], was, font, Blank(bg), cx, cy, y, x);
          fb[(py + y) * WIDTH + (px + x)] := bg;
          x := x + 1;
        }
        PaintRowDone(fb[..], was, font, Blank(bg), cx, cy, y);
        y := y + 1;
      }
    }

    method DrawBox(cx: int, cy: int)
      requires Sized() && 0 <= cx < COLS && 0 <= cy < ROWS
      modifies fb
      ensures Painting(fb[..], old(fb[..]), font, Box(fg, bg), cx, cy, CELL, 0)
    {
      ghost var was := fb[..];
      var py, px := cy * CELL, cx * CELL;
      var y := 0;
      while y < CELL
        invariant 0 <= y <= CELL
        invariant Painting(fb[..], was, font, Box(fg, bg), cx, cy, y, 0)
      {
        var x := 0;
        while x < CELL
          invariant 0 <= x <= CELL
          invariant Painting(fb[..], was, font, Box(fg, bg), cx, cy, y, x)
        {
          PaintStep(fb[..], was, font, Box(fg, bg), cx, cy, y, x);
          if y == 0 || y == CELL - 1 || x == 0 || x == CELL - 1 {
            fb[(py + y) * WIDTH + (px + x)] := fg;
          } else {
            fb[(py + y) * WIDTH + (px + x)] := bg;
          }
          x := x + 1;
        }
        PaintRowDone(fb[..], was, font, Box(fg, bg), cx, cy, y);
        y := y + 1;
      }
    }

    method DrawGlyph(ch: int, cx: int, cy: int)
      requires Sized() && 0 <= cx < COLS && 0 <= cy < ROWS && ASCII_MIN <= ch <= ASCII_MAX
      modifies fb
      ensures Painting(fb[..], old(fb[..]), font, Glyph(ch, fg, bg), cx, cy, CELL, 0)
    {
      ghost var was := fb[..];
      var py, px := cy * CELL, cx * CELL;
      var base := (ch - ASCII_MIN) * 64;
      var y := 0;
      while y < CELL
        invariant 0 <= y <= CELL
        invariant Painting(fb[..], was, font, Glyph(ch, fg, bg), cx, cy, y, 0)
      {
        var rowBase := base + y * CELL;
        var x := 0;
        while x < CELL
          invariant 0 <= x <= CELL
          invariant Painting(fb[..], was, font, Glyph(ch, fg, bg), cx, cy, y, x)
        {
          PaintStep(fb[..], was, font, Glyph(ch, fg, bg), cx, cy, y, x);
          if font[rowBase + x] != 0 {
            fb[(py + y) * WIDTH + (px + x)] := fg;
          } else {
            fb[(py + y) * WIDTH + (px + x)] := bg;
          }
          x := x + 1;
        }
        PaintRowDone(fb[..], was, font, Glyph(ch, fg, bg), cx, cy, y);
        y := y + 1;
      }
    }

    /** Clear the cell under the cursor. */
    method BlankHere()
      requires Valid()
      modifies this`screen, fb
      ensures Valid() && screen == Put(old(screen), Blank(bg))
    {
      PutOk(screen, Blank(bg));
      ClearCell(cursorX, cursorY);
      PaintedCell(fb[..], old(fb[..]), font, screen.grid, Blank(bg), cursorX, cursorY);
      screen := Put(screen, Blank(bg));
    }

    /** Draw c, not 0, in the cell under the cursor. */
    method DrawChar(c: nat)
      requires Valid() && c != 0
      modifies this`screen, fb
      ensures Valid() && screen == Put(old(screen), CellFor(old(screen), c))
    {
      ghost var cell := CellFor(screen, c);
      PutOk(screen, cell);
      if c < ASCII_MIN || c > ASCII_MAX {
        DrawBox(cursorX, cursorY);
      } else {
        DrawGlyph(c, cursorX, cursorY);
      }
      PaintedCell(fb[..], old(fb[..]), font, screen.grid, cell, cursorX, cursorY);
      screen := Put(screen, cell);
    }

    method ShowChar(c: nat)
      requires Valid()
      modifies this, fb
      ensures Valid() && screen == Show(old(screen), c)
    {
      if c == 0 {
        BlankHere();
      } else {
        DrawChar(c);
      }
      if cursorX + 1 >= COLS {
        NewLine();
      } else {
        cursorX := cursorX + 1;
        screen := screen.(cx := cursorX);
      }
    }

    method MoveBack()
      requires Valid()
      modifies this, fb
      ensures Valid() && screen == Backspace(old(screen))
    {
      if cursorX > 0 {
        cursorX := cursorX - 1;
      } else if cursorY > 0 {
        cursorY := cursorY - 1;
        cursorX := COLS - 1;
      } else {
        return;
      }
      screen := screen.(cx := cursorX, cy := cursorY);
      BlankHere();
    }

    method PutChar(c: nat)
      requires Valid()
      modifies this, fb
      ensures Valid() && screen == Putc(old(screen), c)
    {
      if c == 7 { return; }
      if c == 10 || c == 11 { NewLine(); return; }
      if c == 12 { ClearScreen(); return; }
      if c == 8 { MoveBack(); return; }
      if c == 13 {
        cursorX := 0;
        screen := screen.(cx := 0);
        return;
      }
      if c == 9 {
        for i := 0 to 4
          invariant Valid() && Spaces(screen, 4 - i) == Spaces(old(screen), 4)
        {
          ShowChar(32);
        }
        return;
      }
      ShowChar(c);
    }
  }
}
