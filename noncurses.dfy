/**
 * The character buffer of a NonCurses window (NonCursesWindow in
 * noncurses.php): a lines x cols grid of characters, the grid of what was
 * last drawn at each cell (nothing, until a parentless window draws it), and
 * a queue of cells to redraw that is filled only when a cell changes from
 * what was last drawn. The terminal side (cursor moves and echoes) is not
 * modelled: the draw methods return the cells they would paint or hand to
 * the parent window.
 */
module NonCurses {
  import opened Wrappers

  const ULCorner: char := '┌'
  const LLCorner: char := '└'
  const URCorner: char := '┐'
  const LRCorner: char := '┘'
  const HLine: char := '─'
  const VLine: char := '│'

  /** A border argument of `drawBorder`: the integer 0, or a one-character string. */
  datatype BorderChar = Default | Glyph(c: char)

  /**
   * `$b == 0 ? default : $b` under PHP 8 comparison: the integer 0 and the
   * numeric string "0" select the default, any other character is kept.
   */
  function Pick(b: BorderChar, default: char): char
  {
    if b.Default? || b.c == '0' then default else b.c
  }

  /** The eight border arguments, defaults resolved. */
  datatype Border = Border(left: char, right: char, top: char, bottom: char,
                           tl: char, tr: char, bl: char, br: char)

  function Resolve(left: BorderChar, right: BorderChar, top: BorderChar, bottom: BorderChar,
                   tl: BorderChar, tr: BorderChar, bl: BorderChar, br: BorderChar): Border
  {
    Border(Pick(left, VLine), Pick(right, VLine), Pick(top, HLine), Pick(bottom, HLine),
           Pick(tl, ULCorner), Pick(tr, URCorner), Pick(bl, LLCorner), Pick(br, LRCorner))
  }

  /**
   * The character `drawBorder` puts at (line, col) of a lines x cols
   * window, by its chain of tests; None for a cell it leaves alone.
   */
  function BorderGlyph(b: Border, lines: int, cols: int, line: int, col: int): Option<char>
  {
    if col == 0 && line == 0 then Some(b.tl)
    else if col == cols - 1 && line == 0 then Some(b.tr)
    else if col == 0 && line == lines - 1 then Some(b.bl)
    else if col == cols - 1 && line == lines - 1 then Some(b.br)
    else if col == 0 then Some(b.left)
    else if col == cols - 1 then Some(b.right)
    else if line == 0 then Some(b.top)
    else if line == lines - 1 then Some(b.bottom)
    else None
  }

  /**
   * The four corners get the corner characters, the outer columns the
   * vertical ones and the outer rows the horizontal ones; every other cell
   * is left alone.
   */
  lemma BorderShape(b: Border, lines: int, cols: int, line: int, col: int)
    requires lines >= 2 && cols >= 2 && 0 <= line < lines && 0 <= col < cols
    ensures line == 0 && col == 0 ==> BorderGlyph(b, lines, cols, line, col) == Some(b.tl)
    ensures line == 0 && col == cols - 1 ==> BorderGlyph(b, lines, cols, line, col) == Some(b.tr)
    ensures line == lines - 1 && col == 0 ==> BorderGlyph(b, lines, cols, line, col) == Some(b.bl)
    ensures line == lines - 1 && col == cols - 1 ==> BorderGlyph(b, lines, cols, line, col) == Some(b.br)
    ensures 0 < line < lines - 1 && col == 0 ==> BorderGlyph(b, lines, cols, line, col) == Some(b.left)
    ensures 0 < line < lines - 1 && col == cols - 1 ==> BorderGlyph(b, lines, cols, line, col) == Some(b.right)
    ensures line == 0 && 0 < col < cols - 1 ==> BorderGlyph(b, lines, cols, line, col) == Some(b.top)
    ensures line == lines - 1 && 0 < col < cols - 1 ==> BorderGlyph(b, lines, cols, line, col) == Some(b.bottom)
    ensures BorderGlyph(b, lines, cols, line, col).None? <==> 0 < line < lines - 1 && 0 < col < cols - 1
  {
  }

  /** With every argument 0 the border is drawn with the line-drawing characters. */
  lemma DefaultBorder()
    ensures Resolve(Default, Default, Default, Default, Default, Default, Default, Default)
         == Border(VLine, VLine, HLine, HLine, ULCorner, URCorner, LLCorner, LRCorner)
  {
  }

  /** A character other than '0' is used as given; 0 and "0" give the default. */
  lemma PickChoice(b: BorderChar, default: char)
    ensures b.Glyph? && b.c != '0' ==> Pick(b, default) == b.c
    ensures b.Default? || b.c == '0' ==> Pick(b, default) == default
  {
  }

  /** Where `addString` leaves the cursor X after writing n characters at x on a row of `cols`. */
  function CursorAfter(x: int, n: nat, cols: nat): int
  {
    if x + n < cols then x + n else cols
  }

  /**
   * The column `drawBorder`'s inner loop visits after `col` on row `line`,
   * as written: on a middle row the first column jumps to `cols - 2`
   * before the loop's own increment.
   */
  function NextColAsWritten(line: int, col: int, lines: int, cols: int): int
  {
    (if col == 0 && line != 0 && line != lines - 1 then cols - 2 else col) + 1
  }

  /**
   * On a window one column wide and at least three lines tall the jump
   * lands back on column 0, so the inner loop never leaves its first
   * middle row.
   */
  lemma BorderLoopStuck()
    ensures NextColAsWritten(1, 0, 3, 1) == 0
  {
  }

  /** The corrected step: the jump is taken only when it moves forward. */
  function NextCol(line: int, col: int, lines: int, cols: int): int
  {
    (if col == 0 && line != 0 && line != lines - 1 && cols - 2 > col then cols - 2 else col) + 1
  }

  /**
   * The corrected step always advances, agrees with the written one
   * whenever the window is at least two columns wide, and skips only
   * cells the border leaves alone.
   */
  lemma NextColAdvances(b: Border, line: int, col: int, lines: int, cols: int)
    requires 0 <= col
    ensures NextCol(line, col, lines, cols) > col
    ensures cols >= 2 ==> NextCol(line, col, lines, cols) == NextColAsWritten(line, col, lines, cols)
    ensures forall c :: col < c < NextCol(line, col, lines, cols) ==> BorderGlyph(b, lines, cols, line, c).None?
  {
  }

  /** One `setBufferChar` call: character c put at row y, column x. */
  datatype Put = Put(y: int, x: int, c: char)

  /** Cell (y, x) would be queued for c: it was drawn before as something else. */
  predicate Differs(last: array2<Option<char>>, y: int, x: int, c: char)
    reads last
  {
    0 <= y < last.Length0 && 0 <= x < last.Length1 && last[y, x].Some? && last[y, x].value != c
  }

  /** The draw queue after `setBufferChar` put c at (y, x). */
  function Enqueue(last: array2<Option<char>>, q: map<(int, int), char>, w: Put): map<(int, int), char>
    reads last
  {
    if Differs(last, w.y, w.x, w.c) then q[(w.y, w.x) := w.c] else q
  }

  /** The draw queue after the puts `ws`, in order, starting from `q`. */
  function Replay(last: array2<Option<char>>, q: map<(int, int), char>, ws: seq<Put>): map<(int, int), char>
    reads last
  {
    if ws == [] then q else Enqueue(last, Replay(last, q, ws[..|ws| - 1]), ws[|ws| - 1])
  }

  /** The cells that some put in `ws` changes from what was last drawn there. */
  function Changed(last: array2<Option<char>>, ws: seq<Put>): set<(int, int)>
    reads last
  {
    set i | 0 <= i < |ws| && Differs(last, ws[i].y, ws[i].x, ws[i].c) :: (ws[i].y, ws[i].x)
  }

  /** No two puts of `ws` touch the same cell. */
  predicate DistinctCells(ws: seq<Put>)
  {
    forall i, j :: 0 <= i < j < |ws| ==> (ws[i].y, ws[i].x) != (ws[j].y, ws[j].x)
  }

  /**
   * For puts on distinct cells, the queue gains exactly the cells that
   * differ from what was last drawn, each with the character put there,
   * and keeps every other entry as it was.
   */
  lemma {:induction false} ReplayQueue(last: array2<Option<char>>, q: map<(int, int), char>, ws: seq<Put>)
    requires DistinctCells(ws)
    ensures Replay(last, q, ws).Keys == q.Keys + Changed(last, ws)
    ensures forall i :: 0 <= i < |ws| && Differs(last, ws[i].y, ws[i].x, ws[i].c) ==>
      Replay(last, q, ws)[(ws[i].y, ws[i].x)] == ws[i].c
    ensures forall p :: p in q && p !in Changed(last, ws) ==> Replay(last, q, ws)[p] == q[p]
  {
    if ws != [] {
      var init, w := ws[..|ws| - 1], ws[|ws| - 1];
      assert DistinctCells(init) by {
        forall i, j | 0 <= i < j < |init| ensures (init[i].y, init[i].x) != (init[j].y, init[j].x) {
          assert init[i] == ws[i] && init[j] == ws[j];
        }
      }
      ReplayQueue(last, q, init);
      assert Changed(last, ws) == Changed(last, init) + (if Differs(last, w.y, w.x, w.c) then {(w.y, w.x)} else {}) by {
        forall p | p in Changed(last, ws) ensures p in Changed(last, init) + (if Differs(last, w.y, w.x, w.c) then {(w.y, w.x)} else {}) {
          var i :| 0 <= i < |ws| && Differs(last, ws[i].y, ws[i].x, ws[i].c) && p == (ws[i].y, ws[i].x);
          if i < |init| { assert init[i] == ws[i]; }
        }
        forall p | p in Changed(last, init) ensures p in Changed(last, ws) {
          var i :| 0 <= i < |init| && Differs(last, init[i].y, init[i].x, init[i].c) && p == (init[i].y, init[i].x);
          assert init[i] == ws[i];
        }
      }
      forall i | 0 <= i < |init| && Differs(last, ws[i].y, ws[i].x, ws[i].c)
        ensures Replay(last, q, ws)[(ws[i].y, ws[i].x)] == ws[i].c
      {
        assert init[i] == ws[i];
        assert (ws[i].y, ws[i].x) != (w.y, w.x);
      }
    }
  }

  /** Replaying puts only ever adds cells inside the grid to the queue. */
  lemma {:induction false} ReplayInside(last: array2<Option<char>>, q: map<(int, int), char>, ws: seq<Put>)
    ensures forall p :: p in Replay(last, q, ws) ==> p in q || (0 <= p.0 < last.Length0 && 0 <= p.1 < last.Length1)
  {
    if ws != [] {
      ReplayInside(last, q, ws[..|ws| - 1]);
    }
  }

  /** Replaying one more put is one more `Enqueue`. */
  lemma ReplaySnoc(last: array2<Option<char>>, q: map<(int, int), char>, ws: seq<Put>, w: Put)
    ensures Replay(last, q, ws + [w]) == Enqueue(last, Replay(last, q, ws), w)
  {
    assert (ws + [w])[..|ws|] == ws;
  }

  /**
   * Where nothing has been drawn (every last-drawn cell NULL), replaying
   * puts queues nothing. A child window is always in this state: only the
   * screen's branches of `drawQueue` and `drawAll` record what was drawn,
   * so a child's writes reach its parent only through `drawAll`.
   */
  lemma {:induction false} UndrawnQueuesNothing(last: array2<Option<char>>, q: map<(int, int), char>, ws: seq<Put>)
    requires forall y, x :: 0 <= y < last.Length0 && 0 <= x < last.Length1 ==> last[y, x].None?
    ensures Replay(last, q, ws) == q
  {
    if ws != [] {
      UndrawnQueuesNothing(last, q, ws[..|ws| - 1]);
    }
  }

  class Window {
    var cols: nat
    var lines: nat
    var topleft: (int, int)              // (x, y) relative to the parent
    var cursor: (int, int)               // (x, y)
    var destroyed: bool
    var hasParent: bool
    var buffer: array2<char>             // buffer[y, x]
    var lastBuffer: array2<Option<char>> // what was last drawn; None for NULL
    var drawQueue: map<(int, int), char> // (y, x) -> character to redraw

    /** The buffers have the window's shape and the queue names only cells of it. */
    predicate Valid()
      reads this
    {
      && Shaped()
      && forall p :: p in drawQueue ==> 0 <= p.0 < lines && 0 <= p.1 < cols
    }

    /** Both grids are lines x cols. */
    predicate Shaped()
      reads this
    {
      && buffer.Length0 == lines && buffer.Length1 == cols
      && lastBuffer.Length0 == lines && lastBuffer.Length1 == cols
    }

    /** `__construct($parent)` for a non-null parent: a 1 x 1 window of ' '. */
    constructor ()
      ensures Valid() && hasParent && !destroyed && fresh(buffer) && fresh(lastBuffer)
      ensures lines == 1 && cols == 1 && topleft == (0, 0) && cursor == (0, 0)
      ensures buffer[0, 0] == ' ' && lastBuffer[0, 0] == None && drawQueue == map[]
    {
      cols, lines := 1, 1;
      topleft, cursor := (0, 0), (0, 0);
      destroyed := false;
      hasParent := true;
      buffer := new char[0, 0];
      lastBuffer := new Option<char>[0, 0];
      drawQueue := map[];
      new;
      ResetBuffer(' ');
    }

    /**
     * The parentless top-level screen, once its size has been read from the
     * terminal (which resets its buffer).
     */
    constructor Screen(lines: nat, cols: nat)
      ensures Valid() && !hasParent && !destroyed && fresh(buffer) && fresh(lastBuffer)
      ensures this.lines == lines && this.cols == cols && topleft == (0, 0) && cursor == (0, 0)
      ensures forall y, x :: 0 <= y < lines && 0 <= x < cols ==> buffer[y, x] == ' ' && lastBuffer[y, x] == None
      ensures drawQueue == map[]
    {
      this.cols, this.lines := cols, lines;
      topleft, cursor := (0, 0), (0, 0);
      destroyed := false;
      hasParent := false;
      buffer := new char[0, 0];
      lastBuffer := new Option<char>[0, 0];
      drawQueue := map[];
      new;
      ResetBuffer(' ');
    }

    /**
     * `resetBuffer($overwrite, $character)`: fresh lines x cols grids, every
     * cell `character`, nothing drawn, an empty queue.
     */
    method ResetBuffer(character: char)
      modifies this
      ensures Valid() && fresh(buffer) && fresh(lastBuffer)
      ensures forall y, x :: 0 <= y < lines && 0 <= x < cols ==> buffer[y, x] == character && lastBuffer[y, x] == None
      ensures drawQueue == map[]
      ensures cols == old(cols) && lines == old(lines) && topleft == old(topleft) && cursor == old(cursor)
      ensures destroyed == old(destroyed) && hasParent == old(hasParent)
    {
      drawQueue := map[];
      var height, width := lines, cols;
      var b := new char[height, width];
      var lb := new Option<char>[height, width];
      for y := 0 to height
        modifies b, lb
        invariant forall y', x :: 0 <= y' < y && 0 <= x < width ==> b[y', x] == character && lb[y', x] == None
      {
        for x := 0 to width
          modifies b, lb
          invariant forall y', x' :: 0 <= y' < y && 0 <= x' < width ==> b[y', x'] == character && lb[y', x'] == None
          invariant forall x' :: 0 <= x' < x ==> b[y, x'] == character && lb[y, x'] == None
        {
          b[y, x] := character;
          lb[y, x] := None;
        }
      }
      buffer, lastBuffer := b, lb;
    }

    /**
     * `setBufferChar($x, $y, $char)`: ignored outside the window; otherwise
     * the cell takes the character and is queued when it was drawn before
     * and differs.
     */
    method SetBufferChar(x: nat, y: nat, c: char)
      requires Shaped()
      modifies buffer, this`drawQueue
      ensures Shaped() && (old(Valid()) ==> Valid())
      ensures x < cols && y < lines ==>
        && buffer[y, x] == c
        && drawQueue == Enqueue(lastBuffer, old(drawQueue), Put(y, x, c))
      ensures !(x < cols && y < lines) ==> drawQueue == old(drawQueue)
      ensures forall y', x' :: 0 <= y' < lines && 0 <= x' < cols && (y', x') != (y, x) ==>
        buffer[y', x'] == old(buffer[y', x'])
    {
      if x < cols && y < lines {
        buffer[y, x] := c;
        if lastBuffer[y, x].Some? && lastBuffer[y, x].value != c {
          drawQueue := drawQueue[(y, x) := c];
        }
      }
    }

    /** `setBufferChar` on a cell inside the window, as the last of the puts `ws` replayed on `q0`. */
    method PutChar(w: Put, ghost ws: seq<Put>, ghost q0: map<(int, int), char>)
      requires Shaped() && 0 <= w.x < cols && 0 <= w.y < lines
      requires drawQueue == Replay(lastBuffer, q0, ws)
      modifies buffer, this`drawQueue
      ensures Shaped()
      ensures drawQueue == Replay(lastBuffer, q0, ws + [w])
      ensures buffer[w.y, w.x] == w.c
      ensures forall y, x :: 0 <= y < lines && 0 <= x < cols && (y, x) != (w.y, w.x) ==>
        buffer[y, x] == old(buffer[y, x])
    {
      ReplaySnoc(lastBuffer, q0, ws, w);
      SetBufferChar(w.x, w.y, w.c);
    }

    /** `getBufferChar($x, $y)`: the cell, or null outside the window. */
    method GetBufferChar(x: nat, y: nat) returns (r: Option<char>)
      requires Valid()
      ensures r.Some? <==> x < cols && y < lines
      ensures r.Some? ==> r.value == buffer[y, x]
    {
      if x < cols && y < lines {
        return Some(buffer[y, x]);
      }
      return None;
    }

    /**
     * `destroy()`: every later paint operation does nothing. The screen
     * refuses with an exception and stays as it was.
     */
    method Destroy() returns (thrown: bool)
      modifies this`destroyed
      ensures thrown <==> !hasParent
      ensures destroyed == (old(destroyed) || !thrown)
    {
      if !hasParent {
        return true;
      }
      destroyed := true;
      return false;
    }

    /** `getBounds()`, the parent's absolute position given: [top, left, bottom, right]. */
    method GetBounds(parentAbsX: int, parentAbsY: int) returns (top: int, left: int, bottom: int, right: int)
      ensures top == parentAbsY + topleft.1 && left == parentAbsX + topleft.0
      ensures bottom - top == lines && right - left == cols
    {
      var absY := parentAbsY + topleft.1;
      var absX := parentAbsX + topleft.0;
      top := absY;
      bottom := absY + lines;
      left := absX;
      right := absX + cols;
    }

    /**
     * `setCols($cols)`: a new width and a reset buffer. The screen
     * refuses with an exception and stays as it was.
     */
    method SetCols(cols: nat) returns (thrown: bool)
      modifies this
      ensures thrown <==> !hasParent
      ensures thrown ==> unchanged(this)
      ensures !thrown ==>
        && Valid()
        && this.cols == cols && lines == old(lines)
        && fresh(buffer) && fresh(lastBuffer)
        && (forall y, x :: 0 <= y < lines && 0 <= x < cols ==> buffer[y, x] == ' ' && lastBuffer[y, x] == None)
        && drawQueue == map[] && topleft == old(topleft) && cursor == old(cursor)
        && destroyed == old(destroyed) && hasParent == old(hasParent)
    {
      if !hasParent {
        return true;
      }
      this.cols := cols;
      ResetBuffer(' ');
      return false;
    }

    /**
     * `setLines($lines)`: a new height and a reset buffer. The screen
     * refuses with an exception and stays as it was.
     */
    method SetLines(lines: nat) returns (thrown: bool)
      modifies this
      ensures thrown <==> !hasParent
      ensures thrown ==> unchanged(this)
      ensures !thrown ==>
        && Valid()
        && this.lines == lines && cols == old(cols)
        && fresh(buffer) && fresh(lastBuffer)
        && (forall y, x :: 0 <= y < lines && 0 <= x < cols ==> buffer[y, x] == ' ' && lastBuffer[y, x] == None)
        && drawQueue == map[] && topleft == old(topleft) && cursor == old(cursor)
        && destroyed == old(destroyed) && hasParent == old(hasParent)
    {
      if !hasParent {
        return true;
      }
      this.lines := lines;
      ResetBuffer(' ');
      return false;
    }

    /**
     * `addString($line, $x, $y)`, null coordinates taken from the cursor:
     * each character that lands inside the window is set, in order, other
     * cells keep theirs, and the cursor ends just after the last character
     * written (never beyond the row's end) on that row; a destroyed window
     * is left alone.
     */
    method AddString(text: seq<char>, atX: Option<int>, atY: Option<int>)
      requires Valid()
      modifies this, buffer
      ensures Valid() && buffer == old(buffer) && lastBuffer == old(lastBuffer)
      ensures cols == old(cols) && lines == old(lines) && topleft == old(topleft)
      ensures destroyed == old(destroyed) && hasParent == old(hasParent)
      ensures old(destroyed) ==> drawQueue == old(drawQueue) && cursor == old(cursor)
      ensures old(destroyed) ==> forall y, x :: 0 <= y < lines && 0 <= x < cols ==> buffer[y, x] == old(buffer[y, x])
      ensures !old(destroyed) ==>
        var x := atX.GetOr(old(cursor).0);
        var y := atY.GetOr(old(cursor).1);
        && (forall y', x' :: 0 <= y' < lines && 0 <= x' < cols ==>
              buffer[y', x'] == if y' == y && x <= x' < x + |text| then text[x' - x] else old(buffer[y', x']))
        && drawQueue == Replay(lastBuffer, old(drawQueue), StringPuts(lines, cols, text, x, y, |text|))
        && cursor == if AnyWritten(lines, cols, x, y, |text|) then (CursorAfter(x, |text|, cols), y) else old(cursor)
    {
      if destroyed {
        return;
      }
      var x := atX.GetOr(cursor.0);
      var y := atY.GetOr(cursor.1);
      AddStringAt(text, x, y);
    }

    /** The loop of `addString`, once the coordinates are known. */
    method AddStringAt(text: seq<char>, x: int, y: int)
      requires Valid()
      modifies buffer, this`drawQueue, this`cursor
      ensures Valid()
      ensures forall y', x' :: 0 <= y' < lines && 0 <= x' < cols ==>
        buffer[y', x'] == if y' == y && x <= x' < x + |text| then text[x' - x] else old(buffer[y', x'])
      ensures drawQueue == Replay(lastBuffer, old(drawQueue), StringPuts(lines, cols, text, x, y, |text|))
      ensures cursor == if AnyWritten(lines, cols, x, y, |text|) then (CursorAfter(x, |text|, cols), y) else old(cursor)
    {
      var height, width, buf := lines, cols, buffer;
      for i := 0 to |text|
        invariant Shaped()
        invariant buffer == buf
        invariant forall y', x' :: 0 <= y' < height && 0 <= x' < width ==>
          buf[y', x'] == if y' == y && x <= x' < x + i then text[x' - x] else old(buf[y', x'])
        invariant drawQueue == Replay(lastBuffer, old(drawQueue), StringPuts(height, width, text, x, y, i))
        invariant cursor == if AnyWritten(height, width, x, y, i) then (CursorAfter(x, i, width), y) else old(cursor)
      {
        AddChar(text, x, y, i, old(drawQueue), old(cursor));
      }
      ReplayInside(lastBuffer, old(drawQueue), StringPuts(height, width, text, x, y, |text|));
    }

    /** One pass of `addString`'s loop: character i of `text` at column x + i of row y. */
    method AddChar(text: seq<char>, x: int, y: int, i: nat, ghost q0: map<(int, int), char>, ghost cursor0: (int, int))
      requires Shaped() && i < |text|
      requires drawQueue == Replay(lastBuffer, q0, StringPuts(lines, cols, text, x, y, i))
      requires cursor == if AnyWritten(lines, cols, x, y, i) then (CursorAfter(x, i, cols), y) else cursor0
      modifies buffer, this`drawQueue, this`cursor
      ensures Shaped()
      ensures forall y', x' :: 0 <= y' < lines && 0 <= x' < cols ==>
        buffer[y', x'] == if y' == y && x' == x + i then text[i] else old(buffer[y', x'])
      ensures drawQueue == Replay(lastBuffer, q0, StringPuts(lines, cols, text, x, y, i + 1))
      ensures cursor == if AnyWritten(lines, cols, x, y, i + 1) then (CursorAfter(x, i + 1, cols), y) else cursor0
    {
      CursorStep(lines, cols, x, y, i);
      StringPutsStep(lines, cols, text, x, y, i);
      if 0 <= y < lines && 0 <= x + i < cols {
        PutChar(Put(y, x + i, text[i]), StringPuts(lines, cols, text, x, y, i), q0);
        cursor := (x + i + 1, y);
      }
    }

    /**
     * `drawBorder(...)` with the corrected middle-row jump: the border
     * characters (0 meaning the line-drawing default) are set on the outer
     * rows and columns, row by row, the inside is left alone, and the
     * cursor returns to (0, 0); a destroyed window is left alone.
     */
    method DrawBorder(left: BorderChar, right: BorderChar, top: BorderChar, bottom: BorderChar,
                      tl: BorderChar, tr: BorderChar, bl: BorderChar, br: BorderChar)
      requires Valid()
      modifies this, buffer
      ensures Valid() && buffer == old(buffer) && lastBuffer == old(lastBuffer)
      ensures cols == old(cols) && lines == old(lines) && topleft == old(topleft)
      ensures destroyed == old(destroyed) && hasParent == old(hasParent)
      ensures old(destroyed) ==> drawQueue == old(drawQueue) && cursor == old(cursor)
      ensures old(destroyed) ==> forall y, x :: 0 <= y < lines && 0 <= x < cols ==> buffer[y, x] == old(buffer[y, x])
      ensures !old(destroyed) ==>
        var b := Resolve(left, right, top, bottom, tl, tr, bl, br);
        && (forall y, x :: 0 <= y < lines && 0 <= x < cols ==>
              buffer[y, x] == if BorderGlyph(b, lines, cols, y, x).Some? then BorderGlyph(b, lines, cols, y, x).value
                              else old(buffer[y, x]))
        && drawQueue == Replay(lastBuffer, old(drawQueue), BorderPuts(b, lines, cols, lines))
        && cursor == (0, 0)
    {
      if destroyed {
        return;
      }
      var b := Resolve(left, right, top, bottom, tl, tr, bl, br);
      var height, width, buf := lines, cols, buffer;
      for line := 0 to height
        modifies buffer, this`drawQueue
        invariant Shaped()
        invariant buffer == buf
        invariant forall y, x :: 0 <= y < height && 0 <= x < width ==>
          buf[y, x] == if y < line && BorderGlyph(b, height, width, y, x).Some?
            then BorderGlyph(b, height, width, y, x).value else old(buf[y, x])
        invariant drawQueue == Replay(lastBuffer, old(drawQueue), BorderPuts(b, height, width, line))
      {
        BorderRow(b, line, BorderPuts(b, height, width, line), old(drawQueue));
      }
      ReplayInside(lastBuffer, old(drawQueue), BorderPuts(b, height, width, height));
      cursor := (0, 0);
    }

    /** One pass of `drawBorder`'s inner loop: row `line` gets its border cells, left to right. */
    method BorderRow(b: Border, line: nat, ghost done: seq<Put>, ghost q0: map<(int, int), char>)
      requires Shaped() && line < lines
      requires drawQueue == Replay(lastBuffer, q0, done)
      modifies buffer, this`drawQueue
      ensures Shaped()
      ensures forall y, x :: 0 <= y < lines && 0 <= x < cols ==>
        buffer[y, x] == if y == line && BorderGlyph(b, lines, cols, y, x).Some?
          then BorderGlyph(b, lines, cols, y, x).value else old(buffer[y, x])
      ensures drawQueue == Replay(lastBuffer, q0, done + RowPuts(b, lines, cols, line, cols))
    {
      var height, width, buf := lines, cols, buffer;
      assert done + RowPuts(b, height, width, line, 0) == done;
      var col: int := 0;
      while col < width
        invariant 0 <= col
        invariant Shaped()
        invariant buffer == buf
        invariant forall y, x :: 0 <= y < height && 0 <= x < width ==>
          buf[y, x] == if y == line && x < col && BorderGlyph(b, height, width, y, x).Some?
            then BorderGlyph(b, height, width, y, x).value else old(buf[y, x])
        invariant drawQueue == Replay(lastBuffer, q0, done + RowPuts(b, height, width, line, col))
        decreases width - col
      {
        col := BorderStep(b, line, col, done, q0);
      }
      RowPutsSkip(b, height, width, line, width, col);
    }

    /** One pass of the border's inner loop: the cell at `col`, then the skip to the next column. */
    method BorderStep(b: Border, line: nat, col: nat, ghost done: seq<Put>, ghost q0: map<(int, int), char>)
      returns (next: nat)
      requires Shaped() && line < lines && col < cols
      requires drawQueue == Replay(lastBuffer, q0, done + RowPuts(b, lines, cols, line, col))
      modifies buffer, this`drawQueue
      ensures Shaped() && next == NextCol(line, col, lines, cols) && col < next
      ensures forall y, x :: 0 <= y < lines && 0 <= x < cols ==>
        buffer[y, x] == if y == line && col <= x < next && BorderGlyph(b, lines, cols, y, x).Some?
          then BorderGlyph(b, lines, cols, y, x).value else old(buffer[y, x])
      ensures drawQueue == Replay(lastBuffer, q0, done + RowPuts(b, lines, cols, line, next))
    {
      BorderCell(b, line, col, done, q0);
      next := NextCol(line, col, lines, cols);
      NextColAdvances(b, line, col, lines, cols);
      RowPutsSkip(b, lines, cols, line, col + 1, next);
    }

    /** One cell of `drawBorder`'s inner loop: (line, col) gets its border character, if it has one. */
    method BorderCell(b: Border, line: nat, col: nat, ghost done: seq<Put>, ghost q0: map<(int, int), char>)
      requires Shaped() && line < lines && col < cols
      requires drawQueue == Replay(lastBuffer, q0, done + RowPuts(b, lines, cols, line, col))
      modifies buffer, this`drawQueue
      ensures Shaped()
      ensures forall y, x :: 0 <= y < lines && 0 <= x < cols ==>
        buffer[y, x] == if y == line && x == col && BorderGlyph(b, lines, cols, y, x).Some?
          then BorderGlyph(b, lines, cols, y, x).value else old(buffer[y, x])
      ensures drawQueue == Replay(lastBuffer, q0, done + RowPuts(b, lines, cols, line, col + 1))
    {
      var glyph := BorderGlyph(b, lines, cols, line, col);
      RowPutsStep(b, lines, cols, line, col, done);
      if glyph.Some? {
        PutChar(Put(line, col, glyph.value), done + RowPuts(b, lines, cols, line, col), q0);
      }
    }

    /**
     * `drawQueue($clear)` (the draw path in use). With `clear`, the queue
     * is rebuilt to blank every cell not last drawn as ' ', and nothing is
     * sent. Otherwise every queued cell is sent on (to the terminal at its
     * own position for the parentless screen, which then records it as
     * drawn; to the parent at its offset for a window) and the queue is
     * emptied. A destroyed window does nothing.
     */
    method DrawQueue(clear: bool) returns (sent: map<(int, int), char>)
      requires Valid()
      modifies this`drawQueue, lastBuffer
      ensures Valid()
      ensures old(destroyed) ==> sent == map[] && drawQueue == old(drawQueue) && unchanged(lastBuffer)
      ensures !destroyed && clear ==>
        sent == map[] && unchanged(lastBuffer) && drawQueue == ClearRows(lastBuffer, map[], lines, cols, lines)
      ensures !destroyed && !clear ==>
        && drawQueue == map[]
        && sent == Shift(old(drawQueue), if hasParent then topleft.1 else 0, if hasParent then topleft.0 else 0)
        && (hasParent ==> unchanged(lastBuffer))
        && (!hasParent ==> forall y, x :: 0 <= y < lines && 0 <= x < cols ==>
              lastBuffer[y, x] == if (y, x) in old(drawQueue) then Some(old(drawQueue)[(y, x)]) else old(lastBuffer[y, x]))
    {
      sent := map[];
      if destroyed {
        return;
      }
      if clear {
        QueueBlanks();
      } else {
        var dy, dx;
        var queued;
        queued, dy, dx := SendQueue();
        sent := Shift(queued, dy, dx);
      }
    }

    /** `drawQueue(true)`: queue ' ' for every cell not last drawn as ' '. */
    method QueueBlanks()
      requires Valid()
      modifies this`drawQueue
      ensures Valid() && drawQueue == ClearRows(lastBuffer, map[], lines, cols, lines)
    {
      var height, width, last := lines, cols, lastBuffer;
      drawQueue := map[];
      for line := 0 to height
        invariant drawQueue == ClearRows(last, map[], height, width, line)
        invariant forall p :: p in drawQueue ==> 0 <= p.0 < height && 0 <= p.1 < width
      {
        ClearRowInside(last, drawQueue, height, width, line, width);
        drawQueue := ClearRowLoop(last, drawQueue, height, width, line);
      }
    }

    /**
     * `drawQueue(false)`: every queued cell is sent on, at (line, col) plus
     * the offset (dy, dx) (none for the screen, the window's position for a
     * window, whose parent receives `setBufferChar` calls); the screen
     * records each as drawn. The queue is then emptied.
     */
    method SendQueue() returns (sent: map<(int, int), char>, dy: int, dx: int)
      requires Valid()
      modifies this`drawQueue, lastBuffer
      ensures Valid() && drawQueue == map[] && sent == old(drawQueue)
      ensures (dy, dx) == if hasParent then (topleft.1, topleft.0) else (0, 0)
      ensures hasParent ==> unchanged(lastBuffer)
      ensures !hasParent ==> forall y, x :: 0 <= y < lines && 0 <= x < cols ==>
        lastBuffer[y, x] == if (y, x) in sent then Some(sent[(y, x)]) else old(lastBuffer[y, x])
    {
      sent := drawQueue;
      dy, dx := if hasParent then topleft.1 else 0, if hasParent then topleft.0 else 0;
      if !hasParent {
        var height, width, last := lines, cols, lastBuffer;
        var todo := sent.Keys;
        while todo != {}
          modifies last
          invariant todo <= sent.Keys
          invariant forall y, x :: 0 <= y < height && 0 <= x < width ==>
            last[y, x] == if (y, x) in sent && (y, x) !in todo then Some(sent[(y, x)]) else old(last[y, x])
          decreases |todo|
        {
          var p :| p in todo;
          last[p.0, p.1] := Some(sent[p]);
          todo := todo - {p};
        }
      }
      drawQueue := map[];
    }

    /** The inner loop of `drawQueue(true)` on row `line`. */
    method ClearRowLoop(last: array2<Option<char>>, q: map<(int, int), char>, lines: nat, cols: nat, line: nat)
      returns (r: map<(int, int), char>)
      requires last.Length0 == lines && last.Length1 == cols && line < lines
      ensures r == ClearRow(last, q, line, cols)
    {
      r := q;
      for col := 0 to cols
        invariant r == ClearRow(last, q, line, col)
      {
        if last[line, col] != Some(' ') {
          r := r[(line, col) := ' '];
        }
      }
    }

    /**
     * `drawAll($clear)`, the full redraw, the parent's absolute position
     * given. Cell by cell in row-major order it sends ' ' (clearing) or the
     * buffered character to its absolute position: a window sends every
     * cell to its parent; the screen paints only the cells whose last drawn
     * character differs from the buffer, and records the buffer as drawn.
     * The queue is emptied. A destroyed window does nothing.
     */
    method DrawAll(clear: bool, parentAbsX: int, parentAbsY: int) returns (sent: seq<Put>)
      requires Valid()
      modifies this`drawQueue, lastBuffer
      ensures Valid()
      ensures old(destroyed) ==> sent == [] && drawQueue == old(drawQueue) && unchanged(lastBuffer)
      ensures !old(destroyed) ==>
        && drawQueue == map[]
        && sent == old(PaintRows(lastBuffer, buffer, hasParent, clear, parentAbsY + topleft.1, parentAbsX + topleft.0, lines))
        && (hasParent ==> unchanged(lastBuffer))
        && (!hasParent ==> forall y, x :: 0 <= y < lines && 0 <= x < cols ==> lastBuffer[y, x] == Some(buffer[y, x]))
    {
      sent := [];
      if destroyed {
        return;
      }
      var top, left, bottom, right := GetBounds(parentAbsX, parentAbsY);
      var height, width, last, buf := lines, cols, lastBuffer, buffer;
      for line := 0 to height
        modifies last
        invariant hasParent ==> unchanged(last)
        invariant forall y, x :: 0 <= y < height && 0 <= x < width ==>
          last[y, x] == if y < line && !hasParent then Some(buf[y, x]) else old(last[y, x])
        invariant sent == old(PaintRows(last, buf, hasParent, clear, top, left, line))
      {
        for col := 0 to width
          modifies last
          invariant hasParent ==> unchanged(last)
          invariant forall y, x :: 0 <= y < height && 0 <= x < width ==>
            last[y, x] == if (y < line || (y == line && x < col)) && !hasParent then Some(buf[y, x]) else old(last[y, x])
          invariant sent == old(PaintRows(last, buf, hasParent, clear, top, left, line) + PaintRow(last, buf, hasParent, clear, top, left, line, col))
        {
          var output := if clear then ' ' else buf[line, col];
          if !hasParent {
            if last[line, col] != Some(buf[line, col]) {
              sent := sent + [Put(top + line, left + col, output)];
              last[line, col] := Some(buf[line, col]);
            }
          } else {
            sent := sent + [Put(top + line, left + col, output)];
          }
        }
      }
      drawQueue := map[];
    }
  }

  /** Some i < n of `addString`'s characters lands inside: the row exists and [x, x + n) meets [0, cols). */
  predicate AnyWritten(lines: int, cols: int, x: int, y: int, n: int)
  {
    0 <= y < lines && 0 < n && 0 < x + n && x < cols && 0 < cols
  }

  /** How one more character moves `addString`'s cursor. */
  lemma CursorStep(lines: nat, cols: nat, x: int, y: int, i: nat)
    ensures 0 <= y < lines && 0 <= x + i < cols ==>
      AnyWritten(lines, cols, x, y, i + 1) && CursorAfter(x, i + 1, cols) == x + i + 1
    ensures !(0 <= y < lines && 0 <= x + i < cols) ==>
      && AnyWritten(lines, cols, x, y, i + 1) == AnyWritten(lines, cols, x, y, i)
      && (AnyWritten(lines, cols, x, y, i) ==> CursorAfter(x, i + 1, cols) == CursorAfter(x, i, cols))
  {
  }

  /** The puts `addString` makes with the first n characters of `text`. */
  function StringPuts(lines: int, cols: int, text: seq<char>, x: int, y: int, n: nat): seq<Put>
    requires n <= |text|
  {
    if n == 0 then []
    else (StringPuts(lines, cols, text, x, y, n - 1)
      + if 0 <= y < lines && 0 <= x + n - 1 < cols then [Put(y, x + n - 1, text[n - 1])] else [])
  }

  /** One more character adds its put exactly when it lands inside the window. */
  lemma StringPutsStep(lines: int, cols: int, text: seq<char>, x: int, y: int, i: nat)
    requires i < |text|
    ensures 0 <= y < lines && 0 <= x + i < cols ==>
      StringPuts(lines, cols, text, x, y, i + 1) == StringPuts(lines, cols, text, x, y, i) + [Put(y, x + i, text[i])]
    ensures !(0 <= y < lines && 0 <= x + i < cols) ==>
      StringPuts(lines, cols, text, x, y, i + 1) == StringPuts(lines, cols, text, x, y, i)
  {
  }

  /** `addString` puts each character at most once, on its own cell. */
  lemma {:induction false} StringPutsDistinct(lines: int, cols: int, text: seq<char>, x: int, y: int, n: nat)
    requires n <= |text|
    ensures DistinctCells(StringPuts(lines, cols, text, x, y, n))
    ensures forall i :: 0 <= i < |StringPuts(lines, cols, text, x, y, n)| ==>
      var w := StringPuts(lines, cols, text, x, y, n)[i];
      w.y == y && x <= w.x < x + n && 0 <= w.x < cols && w.c == text[w.x - x]
  {
    if n > 0 {
      StringPutsDistinct(lines, cols, text, x, y, n - 1);
      var init := StringPuts(lines, cols, text, x, y, n - 1);
      if 0 <= y < lines && 0 <= x + n - 1 < cols {
        var ws := init + [Put(y, x + n - 1, text[n - 1])];
        assert forall i :: 0 <= i < |init| ==> ws[i] == init[i];
      }
    }
  }

  /** The puts of `drawBorder`'s inner loop on row `line`, columns left of `col`. */
  function RowPuts(b: Border, lines: nat, cols: nat, line: int, col: nat): seq<Put>
  {
    if col == 0 then []
    else (RowPuts(b, lines, cols, line, col - 1)
      + if col - 1 < cols && BorderGlyph(b, lines, cols, line, col - 1).Some?
        then [Put(line, col - 1, BorderGlyph(b, lines, cols, line, col - 1).value)] else [])
  }

  /** The puts of `drawBorder` on the rows above `line`. */
  function BorderPuts(b: Border, lines: nat, cols: nat, line: nat): seq<Put>
  {
    if line == 0 then [] else BorderPuts(b, lines, cols, line - 1) + RowPuts(b, lines, cols, line - 1, cols)
  }

  /** One more column of the row puts its border character, if it has one. */
  lemma RowPutsStep(b: Border, lines: nat, cols: nat, line: int, col: nat, done: seq<Put>)
    requires col < cols
    ensures done + RowPuts(b, lines, cols, line, col + 1) ==
      if BorderGlyph(b, lines, cols, line, col).Some?
      then (done + RowPuts(b, lines, cols, line, col)) + [Put(line, col, BorderGlyph(b, lines, cols, line, col).value)]
      else done + RowPuts(b, lines, cols, line, col)
  {
  }

  /** Columns without a border cell, or past the row's end, put nothing. */
  lemma {:induction false} RowPutsSkip(b: Border, lines: nat, cols: nat, line: int, col: nat, next: nat)
    requires col <= next
    requires forall c :: col <= c < next && c < cols ==> BorderGlyph(b, lines, cols, line, c).None?
    ensures RowPuts(b, lines, cols, line, next) == RowPuts(b, lines, cols, line, col)
    decreases next
  {
    if col < next {
      RowPutsSkip(b, lines, cols, line, col, next - 1);
    }
  }

  /** The cells of `q` moved down by dy and right by dx. */
  function Shift(q: map<(int, int), char>, dy: int, dx: int): map<(int, int), char>
  {
    map p | p in q :: (p.0 + dy, p.1 + dx) := q[p]
  }

  /** A shifted queue holds each queued character at its moved position, and nothing else. */
  lemma ShiftMoves(q: map<(int, int), char>, dy: int, dx: int)
    ensures forall p :: p in q ==> (p.0 + dy, p.1 + dx) in Shift(q, dy, dx) && Shift(q, dy, dx)[(p.0 + dy, p.1 + dx)] == q[p]
    ensures forall p :: p in Shift(q, dy, dx) ==> (p.0 - dy, p.1 - dx) in q
  {
  }

  /** `q` after the inner loop of `drawQueue(true)` on row `line`, columns left of `col`. */
  function ClearRow(last: array2<Option<char>>, q: map<(int, int), char>, line: nat, col: nat): map<(int, int), char>
    reads last
    requires line < last.Length0 && col <= last.Length1
  {
    if col == 0 then q
    else if last[line, col - 1] != Some(' ') then ClearRow(last, q, line, col - 1)[(line, col - 1) := ' ']
    else ClearRow(last, q, line, col - 1)
  }

  /** The queue `drawQueue(true)` builds from `q` on the rows above `line`. */
  function ClearRows(last: array2<Option<char>>, q: map<(int, int), char>, lines: nat, cols: nat, line: nat): map<(int, int), char>
    reads last
    requires last.Length0 == lines && last.Length1 == cols && line <= lines
  {
    if line == 0 then q else ClearRow(last, ClearRows(last, q, lines, cols, line - 1), line - 1, cols)
  }

  /** The inner loop of `drawQueue(true)` adds only cells of its row. */
  lemma {:induction false} ClearRowInside(last: array2<Option<char>>, q: map<(int, int), char>, lines: nat, cols: nat, line: nat, col: nat)
    requires last.Length0 == lines && last.Length1 == cols && line < lines && col <= cols
    requires forall p :: p in q ==> 0 <= p.0 < lines && 0 <= p.1 < cols
    ensures forall p :: p in ClearRow(last, q, line, col) ==> 0 <= p.0 < lines && 0 <= p.1 < cols
  {
    if col > 0 {
      ClearRowInside(last, q, lines, cols, line, col - 1);
    }
  }

  /** Whether `drawAll` sends cell (y, x): always for a window, only when it changed for the screen. */
  predicate Shown(last: array2<Option<char>>, buf: array2<char>, hasParent: bool, y: nat, x: nat)
    reads last, buf
    requires y < last.Length0 && x < last.Length1 && y < buf.Length0 && x < buf.Length1
  {
    hasParent || last[y, x] != Some(buf[y, x])
  }

  /** What `drawAll` sends for row `line`, columns left of `col`. */
  function PaintRow(last: array2<Option<char>>, buf: array2<char>, hasParent: bool, clear: bool,
                    top: int, left: int, line: nat, col: nat): seq<Put>
    reads last, buf
    requires line < last.Length0 && col <= last.Length1 && last.Length0 == buf.Length0 && last.Length1 == buf.Length1
  {
    if col == 0 then []
    else (PaintRow(last, buf, hasParent, clear, top, left, line, col - 1)
      + if Shown(last, buf, hasParent, line, col - 1)
        then [Put(top + line, left + col - 1, if clear then ' ' else buf[line, col - 1])] else [])
  }

  /** What `drawAll` sends for the rows above `line`. */
  function PaintRows(last: array2<Option<char>>, buf: array2<char>, hasParent: bool, clear: bool,
                     top: int, left: int, line: nat): seq<Put>
    reads last, buf
    requires line <= last.Length0 && last.Length0 == buf.Length0 && last.Length1 == buf.Length1
  {
    if line == 0 then []
    else (PaintRows(last, buf, hasParent, clear, top, left, line - 1)
      + PaintRow(last, buf, hasParent, clear, top, left, line - 1, last.Length1))
  }

  /**
   * The clearing draw queues ' ' at exactly the cells whose last drawn
   * character is not ' ' (never drawn included), on top of `q`.
   */
  lemma {:induction false} ClearRowContents(last: array2<Option<char>>, q: map<(int, int), char>, line: nat, col: nat)
    requires line < last.Length0 && col <= last.Length1
    ensures forall p :: p in ClearRow(last, q, line, col) <==>
      p in q || (p.0 == line && 0 <= p.1 < col && last[line, p.1] != Some(' '))
    ensures forall p :: p in ClearRow(last, q, line, col) ==>
      ClearRow(last, q, line, col)[p] == if p.0 == line && 0 <= p.1 < col && last[line, p.1] != Some(' ') then ' ' else q[p]
  {
    if col > 0 {
      ClearRowContents(last, q, line, col - 1);
    }
  }

  lemma {:induction false} ClearRowsContents(last: array2<Option<char>>, lines: nat, cols: nat, line: nat)
    requires last.Length0 == lines && last.Length1 == cols && line <= lines
    ensures forall p :: p in ClearRows(last, map[], lines, cols, line) <==>
      0 <= p.0 < line && 0 <= p.1 < cols && last[p.0, p.1] != Some(' ')
    ensures forall p :: p in ClearRows(last, map[], lines, cols, line) ==> ClearRows(last, map[], lines, cols, line)[p] == ' '
  {
    if line > 0 {
      ClearRowsContents(last, lines, cols, line - 1);
      ClearRowContents(last, ClearRows(last, map[], lines, cols, line - 1), line - 1, cols);
    }
  }

  /** A window's redraw sends every cell of the row, left to right. */
  lemma {:induction false} WindowPaintsRow(last: array2<Option<char>>, buf: array2<char>, clear: bool,
                                           top: int, left: int, line: nat, col: nat)
    requires line < last.Length0 && col <= last.Length1 && last.Length0 == buf.Length0 && last.Length1 == buf.Length1
    ensures |PaintRow(last, buf, true, clear, top, left, line, col)| == col
    ensures forall i :: 0 <= i < col ==>
      PaintRow(last, buf, true, clear, top, left, line, col)[i] == Put(top + line, left + i, if clear then ' ' else buf[line, i])
  {
    if col > 0 {
      WindowPaintsRow(last, buf, clear, top, left, line, col - 1);
    }
  }

  /** Once the screen's last drawn grid equals its buffer, a row's redraw paints nothing. */
  lemma {:induction false} ScreenRowUpToDate(last: array2<Option<char>>, buf: array2<char>, clear: bool,
                                             top: int, left: int, line: nat, col: nat)
    requires line < last.Length0 && col <= last.Length1 && last.Length0 == buf.Length0 && last.Length1 == buf.Length1
    requires forall x :: 0 <= x < col ==> last[line, x] == Some(buf[line, x])
    ensures PaintRow(last, buf, false, clear, top, left, line, col) == []
  {
    if col > 0 {
      ScreenRowUpToDate(last, buf, clear, top, left, line, col - 1);
    }
  }

  /** Redrawing an up-to-date screen (as `drawAll` leaves it) paints nothing. */
  lemma {:induction false} ScreenUpToDate(last: array2<Option<char>>, buf: array2<char>, clear: bool,
                                          top: int, left: int, line: nat)
    requires line <= last.Length0 && last.Length0 == buf.Length0 && last.Length1 == buf.Length1
    requires forall y, x :: 0 <= y < line && 0 <= x < last.Length1 ==> last[y, x] == Some(buf[y, x])
    ensures PaintRows(last, buf, false, clear, top, left, line) == []
  {
    if line > 0 {
      ScreenUpToDate(last, buf, clear, top, left, line - 1);
      ScreenRowUpToDate(last, buf, clear, top, left, line - 1, last.Length1);
    }
  }
}
