/** The BIOS teletype in the text modes: 25 rows of character cells in a 16 KB
    display memory holding several pages, written and scrolled in place. */
module Teletype {
  import opened Common

  const VRAM_BYTES: nat := 0x4000
  const ROWS: nat := 25
  const LAST_ROW: nat := 24
  const BLANK: Byte := 32

  const BEL: Byte := 7
  const BS: Byte := 8
  const LF: Byte := 10
  const CR: Byte := 13

  datatype Cell = Cell(ch: Byte, attr: Byte)

  /** The rows with one element replaced. */
  function Put<T>(rows: seq<seq<T>>, r: nat, c: nat, x: T): (q: seq<seq<T>>)
    requires r < |rows| && c < |rows[r]|
    ensures |q| == |rows|
    ensures forall i :: 0 <= i < |rows| ==> |q[i]| == |rows[i]| && (i != r ==> q[i] == rows[i])
    ensures q[r][c] == x && forall j :: 0 <= j < |rows[r]| && j != c ==> q[r][j] == rows[r][j]
  {
    rows[r := rows[r][c := x]]
  }

  // ---------- what the guest sees ----------

  /** A text page and its cursor. */
  datatype Page = Page(rows: seq<seq<Cell>>, row: nat, col: nat)
  {
    ghost predicate Valid(cols: nat) {
      && |rows| == ROWS && row < ROWS && col < cols
      && forall r :: 0 <= r < ROWS ==> |rows[r]| == cols
    }
  }

  /** A page moved up one row, with a blank row of the given attribute below. */
  function ScrolledUp(rows: seq<seq<Cell>>, cols: nat, attr: Byte): (r: seq<seq<Cell>>)
    requires |rows| == ROWS
    ensures |r| == ROWS
  {
    rows[1..] + [seq(cols, _ => Cell(BLANK, attr))]
  }

  /** A cursor that may just have left the bottom row. */
  function Settle(rows: seq<seq<Cell>>, cols: nat, row: nat, col: nat): Page
    requires |rows| == ROWS && |rows[LAST_ROW]| == cols && col < cols && row <= ROWS
  {
    if row > LAST_ROW then Page(ScrolledUp(rows, cols, rows[LAST_ROW][col].attr), LAST_ROW, col)
    else Page(rows, row, col)
  }

  /** One character of teletype output. */
  function Typed(p: Page, cols: nat, ch: Byte, attr: Byte, withAttr: bool): (q: Page)
    requires p.Valid(cols)
    ensures q.Valid(cols)
  {
    if ch == BEL then p
    else if ch == BS then p.(col := if p.col > 0 then p.col - 1 else 0)
    else if ch == LF then Settle(p.rows, cols, p.row + 1, p.col)
    else if ch == CR then p.(col := 0)
    else
      var was := p.rows[p.row][p.col];
      var rows := Put(p.rows, p.row, p.col, Cell(ch, if withAttr then attr else was.attr));
      if p.col + 1 < cols then Settle(rows, cols, p.row, p.col + 1) else Settle(rows, cols, p.row + 1, 0)
  }

  function TypedAll(p: Page, cols: nat, text: seq<Byte>, attr: Byte, withAttr: bool): (q: Page)
    requires p.Valid(cols)
    ensures q.Valid(cols)
    decreases |text|
  {
    if text == [] then p else TypedAll(Typed(p, cols, text[0], attr, withAttr), cols, text[1..], attr, withAttr)
  }

  /** What the four control characters do, cell by cell: BEL nothing, BS a step back that
      stops at the left edge, CR the start of the row, and LF the row below, where from
      the bottom row all rows move up and blanks come in with the attribute found under
      the cursor. */
  lemma ControlsAre(p: Page, cols: nat, attr: Byte, withAttr: bool)
    requires p.Valid(cols)
    ensures Typed(p, cols, 7, attr, withAttr) == p
    ensures p.col > 0 ==> Typed(p, cols, 8, attr, withAttr) == Page(p.rows, p.row, p.col - 1)
    ensures p.col == 0 ==> Typed(p, cols, 8, attr, withAttr) == p
    ensures Typed(p, cols, 13, attr, withAttr) == Page(p.rows, p.row, 0)
    ensures p.row < 24 ==> Typed(p, cols, 10, attr, withAttr) == Page(p.rows, p.row + 1, p.col)
    ensures var q := Typed(p, cols, 10, attr, withAttr);
      p.row == 24 ==> q.row == 24 && q.col == p.col && MovedUp(p.rows, q.rows, cols, p.rows[24][p.col].attr)
  {
  }

  /** Every row but the last shows what the row below it showed; the last is blank. */
  ghost predicate MovedUp(before: seq<seq<Cell>>, after: seq<seq<Cell>>, cols: nat, attr: Byte) {
    && |before| == |after| == 25
    && (forall r :: 0 <= r < 24 ==> after[r] == before[r + 1])
    && after[24] == seq(cols, _ => Cell(32, attr))
  }

  /** Printing characters that fit on a row, with room for the cursor behind them, appear
      there from the cursor on. Their cells keep the attributes they had unless one is
      given, and nothing else on the page changes. */
  lemma {:induction false} LineAppears(p: Page, cols: nat, text: seq<Byte>, attr: Byte, withAttr: bool)
    requires p.Valid(cols) && p.col + |text| < cols
    requires forall i :: 0 <= i < |text| ==> text[i] !in {7, 8, 10, 13}
    ensures var q := TypedAll(p, cols, text, attr, withAttr);
      && q.row == p.row && q.col == p.col + |text|
      && forall r, c :: 0 <= r < 25 && 0 <= c < cols ==>
           q.rows[r][c] ==
             if r == p.row && p.col <= c < p.col + |text|
             then Cell(text[c - p.col], if withAttr then attr else p.rows[r][c].attr)
             else p.rows[r][c]
    decreases |text|
  {
    if text != [] {
      LineAppears(Typed(p, cols, text[0], attr, withAttr), cols, text[1..], attr, withAttr);
    }
  }

  /** A character in the last column takes the cursor to the start of the next row, and
      from the bottom row all rows move up. */
  lemma EdgeWraps(p: Page, cols: nat, ch: Byte, attr: Byte, withAttr: bool)
    requires p.Valid(cols) && p.col == cols - 1 && ch !in {7, 8, 10, 13}
    ensures var q := Typed(p, cols, ch, attr, withAttr);
      var drawn := p.rows[p.row := p.rows[p.row][p.col := Cell(ch, if withAttr then attr else p.rows[p.row][p.col].attr)]];
      && q.col == 0
      && (p.row < 24 ==> q.row == p.row + 1 && q.rows == drawn)
      && (p.row == 24 ==> q.row == 24 && MovedUp(drawn, q.rows, cols, drawn[24][0].attr))
  {
  }

  // ---------- the sheet an unscrolled terminal would fill ----------

  /** Lines of characters that only ever grow downwards, and a cursor. */
  datatype Sheet = Sheet(lines: seq<seq<Byte>>, row: nat, col: nat)
  {
    /** The number of lines that have left the screen at the top. */
    function Gone(): int {
      |lines| - ROWS
    }

    ghost predicate Valid(cols: nat) {
      && 0 <= Gone() <= row < |lines| && col < cols
      && forall i :: 0 <= i < |lines| ==> |lines[i]| == cols
    }

    /** The cursor moves to a line, which is added if it is not there yet. */
    function MoveTo(cols: nat, r: nat, c: nat): Sheet {
      if r == |lines| then Sheet(lines + [seq(cols, _ => BLANK)], r, c) else Sheet(lines, r, c)
    }

    function Typed(cols: nat, ch: Byte): (s: Sheet)
      requires Valid(cols)
      ensures s.Valid(cols)
    {
      if ch == BEL then this
      else if ch == BS then this.(col := if col > 0 then col - 1 else 0)
      else if ch == LF then MoveTo(cols, row + 1, col)
      else if ch == CR then this.(col := 0)
      else
        var written := this.(lines := Put(lines, row, col, ch));
        if col + 1 < cols then written.MoveTo(cols, row, col + 1) else written.MoveTo(cols, row + 1, 0)
    }

    function TypedAll(cols: nat, text: seq<Byte>): (s: Sheet)
      requires Valid(cols)
      ensures s.Valid(cols)
      decreases |text|
    {
      if text == [] then this else Typed(cols, text[0]).TypedAll(cols, text[1..])
    }
  }

  function CharsOf(row: seq<Cell>): (chars: seq<Byte>)
    ensures |chars| == |row|
  {
    seq(|row|, i requires 0 <= i < |row| => row[i].ch)
  }

  /** The page shows the last 25 lines of the sheet. */
  ghost predicate Shows(p: Page, s: Sheet, cols: nat) {
    && p.Valid(cols) && s.Valid(cols)
    && p.row == s.row - s.Gone() && p.col == s.col
    && forall r :: 0 <= r < ROWS ==> CharsOf(p.rows[r]) == s.lines[s.Gone() + r]
  }

  lemma ShowsSettled(p: Page, s: Sheet, cols: nat, row: nat, col: nat)
    requires Shows(p, s, cols) && row <= ROWS && col < cols
    ensures Shows(Settle(p.rows, cols, row, col), s.MoveTo(cols, s.Gone() + row, col), cols)
  {
    var q, t := Settle(p.rows, cols, row, col), s.MoveTo(cols, s.Gone() + row, col);
    if row > LAST_ROW {
      forall r | 0 <= r < ROWS ensures CharsOf(q.rows[r]) == t.lines[t.Gone() + r] {
        if r < LAST_ROW { assert q.rows[r] == p.rows[r + 1]; }
      }
    }
  }

  lemma ShowsPut(p: Page, s: Sheet, cols: nat, cell: Cell)
    requires Shows(p, s, cols)
    ensures Shows(p.(rows := Put(p.rows, p.row, p.col, cell)), s.(lines := Put(s.lines, s.row, s.col, cell.ch)), cols)
  {
    var p1 := p.(rows := Put(p.rows, p.row, p.col, cell));
    var s1 := s.(lines := Put(s.lines, s.row, s.col, cell.ch));
    forall r | 0 <= r < ROWS ensures CharsOf(p1.rows[r]) == s1.lines[s1.Gone() + r] {
      if r == p.row {
        assert CharsOf(p.rows[r]) == s.lines[s.row];
        assert forall j :: 0 <= j < cols ==> CharsOf(p1.rows[r])[j] == s1.lines[s.row][j];
      }
    }
  }

  /** One character keeps the page a window on the sheet. */
  lemma TypedShows(p: Page, s: Sheet, cols: nat, ch: Byte, attr: Byte, withAttr: bool)
    requires Shows(p, s, cols)
    ensures Shows(Typed(p, cols, ch, attr, withAttr), s.Typed(cols, ch), cols)
  {
    if ch == LF {
      hide Settle, Sheet.MoveTo;
      ShowsSettled(p, s, cols, p.row + 1, p.col);
    } else if ch != BEL && ch != BS && ch != CR {
      PrintedShows(p, s, cols, ch, attr, withAttr);
    }
  }

  /** The same for a character that is drawn. */
  lemma PrintedShows(p: Page, s: Sheet, cols: nat, ch: Byte, attr: Byte, withAttr: bool)
    requires Shows(p, s, cols) && ch != BEL && ch != BS && ch != CR && ch != LF
    ensures Shows(Typed(p, cols, ch, attr, withAttr), s.Typed(cols, ch), cols)
  {
    hide Settle, Sheet.MoveTo, Put;
    var cell := Cell(ch, if withAttr then attr else p.rows[p.row][p.col].attr);
    ShowsPut(p, s, cols, cell);
    var p1 := p.(rows := Put(p.rows, p.row, p.col, cell));
    var s1 := s.(lines := Put(s.lines, s.row, s.col, ch));
    if p.col + 1 < cols {
      ShowsSettled(p1, s1, cols, p.row, p.col + 1);
    } else {
      ShowsSettled(p1, s1, cols, p.row + 1, 0);
    }
  }

  /** After any text the page shows the last 25 lines of the sheet that text fills. */
  lemma {:induction false} TypedAllShows(p: Page, s: Sheet, cols: nat, text: seq<Byte>, attr: Byte, withAttr: bool)
    requires Shows(p, s, cols)
    ensures Shows(TypedAll(p, cols, text, attr, withAttr), s.TypedAll(cols, text), cols)
    decreases |text|
  {
    if text != [] {
      TypedShows(p, s, cols, text[0], attr, withAttr);
      TypedAllShows(Typed(p, cols, text[0], attr, withAttr), s.Typed(cols, text[0]), cols, text[1..], attr, withAttr);
    }
  }

  /** A line that has left the screen never changes again. */
  lemma {:induction false} GoneLinesStay(s: Sheet, cols: nat, text: seq<Byte>)
    requires s.Valid(cols)
    ensures s.Gone() <= s.TypedAll(cols, text).Gone()
    ensures s.TypedAll(cols, text).lines[..s.Gone()] == s.lines[..s.Gone()]
    decreases |text|
  {
    if text != [] {
      var t := s.Typed(cols, text[0]);
      assert t.lines[..s.Gone()] == s.lines[..s.Gone()];
      GoneLinesStay(t, cols, text[1..]);
      var u := t.TypedAll(cols, text[1..]);
      assert u.lines[..s.Gone()] == u.lines[..t.Gone()][..s.Gone()];
      assert t.lines[..s.Gone()] == t.lines[..t.Gone()][..s.Gone()];
    }
  }

  // ---------- the display memory ----------

  /** The text modes give 40 columns with 2 KB pages or 80 columns with 4 KB pages. */
  predicate Geometry(cols: nat, pageSize: nat) {
    (cols == 40 && pageSize == 0x800) || (cols == 80 && pageSize == 0x1000)
  }

  /** The address of a cell, wrapping round the 16 KB of display memory. */
  function TextAddr(page: nat, cols: nat, pageSize: nat, row: nat, col: nat): (a: nat)
    ensures a < VRAM_BYTES
  {
    (page * pageSize + (row * cols + col) * 2) % VRAM_BYTES
  }

  /** Where a page starts. Pages 4 to 7 of the 80-column modes are pages 0 to 3. */
  function PageBase(page: nat, pageSize: nat): nat {
    (page * pageSize) % VRAM_BYTES
  }

  /** A page lies in one piece, so its cells do not overlap one another. */
  lemma CellsAreInOrder(page: nat, cols: nat, pageSize: nat, row: nat, col: nat)
    requires Geometry(cols, pageSize) && page < 8 && row < ROWS && col < cols
    ensures TextAddr(page, cols, pageSize, row, col) == PageBase(page, pageSize) + 2 * (row * cols + col)
    ensures PageBase(page, pageSize) + 50 * cols <= VRAM_BYTES
    ensures row * cols + col < ROWS * cols
  {
    assert row * cols <= LAST_ROW * cols;
    assert row * cols == if cols == 40 then row * 40 else row * 80;
    assert page * pageSize == if cols == 40 then page * 0x800 else page * 0x1000;
  }

  lemma CellsAreDistinct(cols: nat, r1: nat, c1: nat, r2: nat, c2: nat)
    requires c1 < cols && c2 < cols && (r1 != r2 || c1 != c2)
    ensures r1 * cols + c1 != r2 * cols + c2
  {
    if r1 < r2 {
      assert (r1 + 1) * cols <= r2 * cols;
    } else if r2 < r1 {
      assert (r2 + 1) * cols <= r1 * cols;
    }
  }

  /** A rectangle of cells, all four edges included. */
  datatype Window = Window(top: nat, left: nat, bottom: nat, right: nat)
  {
    predicate Has(r: nat, c: nat) {
      top <= r <= bottom && left <= c <= right
    }

    /** The number of rows a request to scroll moves; zero asks for a clear. */
    function Lines(lines: nat): nat {
      if top <= bottom && (lines == 0 || lines > bottom - top + 1) then bottom - top + 1 else lines
    }
  }

  function ClampedWindow(top: nat, left: nat, bottom: nat, right: nat, cols: nat): (w: Window)
    requires cols > 0
    ensures w.bottom < ROWS && w.right < cols
  {
    Window(top, left, if bottom > LAST_ROW then LAST_ROW else bottom, if right >= cols then cols - 1 else right)
  }

  class Display {
    const vram: array<Byte>
    var cols: nat
    var pageSize: nat
    var page: nat
    var row: nat  // the active page's cursor
    var col: nat

    ghost predicate Valid()
      reads this
    {
      && vram.Length == VRAM_BYTES
      && Geometry(cols, pageSize) && page < 8
      && row < ROWS && col < cols
    }

    function Addr(r: nat, c: nat): (a: nat)
      reads this
      ensures a < VRAM_BYTES
    {
      TextAddr(page, cols, pageSize, r, c)
    }

    /** The cell at a place on the active page. An address is even, so its second
        byte never wraps. */
    function At(r: nat, c: nat): Cell
      reads this, vram
      requires Valid() && r < ROWS && c < cols
    {
      CellsAreInOrder(page, cols, pageSize, r, c);
      Cell(vram[Addr(r, c)], vram[Addr(r, c) + 1])
    }

    /** Whether a byte of display memory lies outside the cells of the active page. */
    ghost predicate OffPage(a: nat)
      reads this
    {
      a < PageBase(page, pageSize) || a >= PageBase(page, pageSize) + 50 * cols
    }

    ghost function Row(r: nat): (cells: seq<Cell>)
      reads this, vram
      requires Valid() && r < ROWS
      ensures |cells| == cols
    {
      seq(cols, c requires Valid() && r < ROWS && 0 <= c < cols reads this, vram => At(r, c))
    }

    ghost function View(): (p: Page)
      reads this, vram
      requires Valid()
      ensures p.Valid(cols)
    {
      Page(seq(ROWS, r requires Valid() && 0 <= r < ROWS reads this, vram => Row(r)), row, col)
    }

    /** Overwrites one cell of the active page and nothing else. */
    method PutCell(r: nat, c: nat, ch: Byte, attr: Byte, withAttr: bool)
      requires Valid() && r < ROWS && c < cols
      modifies vram
      ensures At(r, c) == Cell(ch, if withAttr then attr else old(At(r, c).attr))
      ensures forall i, j :: 0 <= i < ROWS && 0 <= j < cols && (i != r || j != c) ==> At(i, j) == old(At(i, j))
      ensures forall a :: 0 <= a < VRAM_BYTES && OffPage(a) ==> vram[a] == old(vram[a])
    {
      var a := Addr(r, c);
      CellsAreInOrder(page, cols, pageSize, r, c);
      vram[a] := ch;
      if withAttr { vram[a + 1] := attr; }
      forall i, j | 0 <= i < ROWS && 0 <= j < cols && (i != r || j != c) ensures At(i, j) == old(At(i, j)) {
        CellsAreInOrder(page, cols, pageSize, i, j);
        CellsAreDistinct(cols, i, j, r, c);
      }
    }

    /** The page is determined cell by cell. */
    lemma ViewIs(p: Page)
      requires Valid() && p.Valid(cols) && p.row == row && p.col == col
      requires forall r, c :: 0 <= r < ROWS && 0 <= c < cols ==> At(r, c) == p.rows[r][c]
      ensures View() == p
    {
      forall r | 0 <= r < ROWS ensures View().rows[r] == p.rows[r] {
        assert forall c :: 0 <= c < cols ==> View().rows[r][c] == At(r, c);
      }
    }

    // ---------- scrolling ----------

    /** Where a cell of a window scrolled by n rows comes from: another cell of the
        window, or blank; cells outside the window stay. */
    ghost function ScrolledAt(w: Window, up: bool, n: nat, attr: Byte, r: nat, c: nat): Cell
      reads this, vram
      requires Valid() && r < ROWS && c < cols && w.bottom < ROWS
    {
      if !w.Has(r, c) then At(r, c)
      else if up && r + n <= w.bottom then At(r + n, c)
      else if !up && r >= w.top + n then At(r - n, c)
      else Cell(BLANK, attr)
    }

    /** The same with the edges of the window as they were asked for: rows below 24 and
        columns past the right edge are left out, and no lines, or more than the window
        has, blank all of it. */
    lemma ScrolledIs(top: nat, left: nat, bottom: nat, right: nat, up: bool, lines: nat, attr: Byte, r: nat, c: nat)
      requires Valid() && r < 25 && c < cols
      ensures var w := ClampedWindow(top, left, bottom, right, cols);
        var last := if bottom > 24 then 24 else bottom;
        ScrolledAt(w, up, w.Lines(lines), attr, r, c) ==
          if r < top || r > bottom || c < left || c > right then At(r, c)
          else if lines > 0 && up && r + lines <= last then At(r + lines, c)
          else if lines > 0 && !up && r >= top + lines then At(r - lines, c)
          else Cell(32, attr)
    {
      hide TextAddr;
    }

    /** One row of a scroll: copies the cells of row src to row dst, or blanks them. */
    method ScrollRow(dst: nat, src: nat, clear: bool, left: nat, right: nat, attr: Byte)
      requires Valid() && dst < ROWS && left <= right < cols
      requires !clear ==> src < ROWS && src != dst
      modifies vram
      ensures forall r, c :: 0 <= r < ROWS && 0 <= c < cols && (r != dst || !(left <= c <= right)) ==> At(r, c) == old(At(r, c))
      ensures forall c :: left <= c <= right ==> At(dst, c) == if clear then Cell(BLANK, attr) else old(At(src, c))
      ensures forall a :: 0 <= a < VRAM_BYTES && OffPage(a) ==> vram[a] == old(vram[a])
    {
      for c := left to right + 1
        invariant forall r, k :: 0 <= r < ROWS && 0 <= k < cols && (r != dst || !(left <= k < c)) ==> At(r, k) == old(At(r, k))
        invariant forall k :: left <= k < c ==> At(dst, k) == if clear then Cell(BLANK, attr) else old(At(src, k))
        invariant forall a :: 0 <= a < VRAM_BYTES && OffPage(a) ==> vram[a] == old(vram[a])
      {
        if clear {
          PutCell(dst, c, BLANK, attr, true);
        } else {
          var from := At(src, c);
          PutCell(dst, c, from.ch, from.attr, true);
        }
      }
    }

    /** Scrolls a window of the active page in place; the order of the rows makes
        that the same as moving them all at once. */
    method Scroll(up: bool, lines: nat, attr: Byte, top: nat, left: nat, bottom: nat, right: nat)
      requires Valid()
      modifies vram
      ensures var w := ClampedWindow(top, left, bottom, right, cols);
        forall r, c :: 0 <= r < ROWS && 0 <= c < cols ==>
          At(r, c) == old(ScrolledAt(w, up, w.Lines(lines), attr, r, c))
      // scrolling by no lines, or by more than there are, clears the window
      ensures var w := ClampedWindow(top, left, bottom, right, cols);
        lines == 0 || lines > LAST_ROW ==>
          forall r, c :: 0 <= r < ROWS && 0 <= c < cols && w.Has(r, c) ==> At(r, c) == Cell(BLANK, attr)
      ensures forall a :: 0 <= a < VRAM_BYTES && OffPage(a) ==> vram[a] == old(vram[a])
    {
      var w := ClampedWindow(top, left, bottom, right, cols);
      if w.top > w.bottom || w.left > w.right { return; }
      var h := w.bottom - w.top + 1;
      var n := w.Lines(lines);
      for k := 0 to h
        invariant forall r, c :: 0 <= r < ROWS && 0 <= c < cols ==>
          At(r, c) == if w.Has(r, c) && (if up then r < w.top + k else r > w.bottom - k)
                      then old(ScrolledAt(w, up, n, attr, r, c)) else old(At(r, c))
        invariant forall a :: 0 <= a < VRAM_BYTES && OffPage(a) ==> vram[a] == old(vram[a])
      {
        var dst := if up then w.top + k else w.bottom - k;
        var clear := k >= h - n;
        var src := if clear then 0 else if up then dst + n else dst - n;
        ScrollRow(dst, src, clear, w.left, w.right, attr);
      }
    }

    // ---------- teletype output ----------

    /** Scrolls the whole page up one row, as output below the bottom row does. */
    method NewRow(attr: Byte)
      requires Valid()
      modifies vram
      ensures View().rows == ScrolledUp(old(View()).rows, cols, attr)
      ensures forall a :: 0 <= a < VRAM_BYTES && OffPage(a) ==> vram[a] == old(vram[a])
    {
      ghost var before := View();
      ghost var after := Page(ScrolledUp(before.rows, cols, attr), row, col);
      assert forall i, j :: 0 <= i < ROWS && 0 <= j < cols ==> before.rows[i][j] == At(i, j);
      Scroll(true, 1, attr, 0, 0, LAST_ROW, cols - 1);
      forall i, j | 0 <= i < ROWS && 0 <= j < cols ensures At(i, j) == after.rows[i][j] {
        assert ClampedWindow(0, 0, LAST_ROW, cols - 1, cols).Has(i, j);
        if i < LAST_ROW {
          assert after.rows[i] == before.rows[i + 1];
        }
      }
      ViewIs(after);
    }

    /** Puts the cursor at a place that may be just below the page, scrolling then. */
    method SettleCursor(r: nat, c: nat)
      requires Valid() && r <= ROWS && c < cols
      modifies this`row, this`col, vram
      ensures Valid() && View() == Settle(old(View()).rows, cols, r, c)
      ensures forall a :: 0 <= a < VRAM_BYTES && OffPage(a) ==> vram[a] == old(vram[a])
    {
      hide TextAddr, ScrolledUp;
      ghost var rows := View().rows;
      assert At(LAST_ROW, c) == rows[LAST_ROW][c];
      var bottom := r;
      if r > LAST_ROW {
        var fill := At(LAST_ROW, c).attr;
        NewRow(fill);
        rows := ScrolledUp(rows, cols, fill);
        bottom := LAST_ROW;
      }
      ghost var after := Page(rows, bottom, c);
      assert forall i, j :: 0 <= i < ROWS && 0 <= j < cols ==> At(i, j) == View().rows[i][j];
      row, col := bottom, c;
      ViewIs(after);
    }

    /** Overwrites the cell under the cursor. */
    method Draw(ch: Byte, attr: Byte, withAttr: bool)
      requires Valid()
      modifies vram
      ensures View() == old(View()).(rows := Put(old(View()).rows, row, col,
                          Cell(ch, if withAttr then attr else old(View()).rows[row][col].attr)))
      ensures forall a :: 0 <= a < VRAM_BYTES && OffPage(a) ==> vram[a] == old(vram[a])
    {
      ghost var before := View();
      assert forall i, j :: 0 <= i < ROWS && 0 <= j < cols ==> before.rows[i][j] == At(i, j);
      PutCell(row, col, ch, attr, withAttr);
      ViewIs(before.(rows := Put(before.rows, row, col, Cell(ch, if withAttr then attr else before.rows[row][col].attr))));
    }

    /** One character, as printed by INT 10h and by the DOS console. */
    method TypeChar(ch: Byte, attr: Byte, withAttr: bool)
      requires Valid()
      modifies this`row, this`col, vram
      ensures Valid() && View() == Typed(old(View()), cols, ch, attr, withAttr)
      ensures forall a :: 0 <= a < VRAM_BYTES && OffPage(a) ==> vram[a] == old(vram[a])
    {
      var r, c := row, col;
      match ch {
        case 7 => return;
        case 8 => if c > 0 { c := c - 1; }
        case 10 => r := r + 1;
        case 13 => c := 0;
        case _ =>
          Draw(ch, attr, withAttr);
          c := c + 1;
          if c >= cols { c, r := 0, r + 1; }
      }
      SettleCursor(r, c);
    }

    /** A run of characters, as a DOS write to the console prints it. */
    method TypeText(text: seq<Byte>, attr: Byte, withAttr: bool)
      requires Valid()
      modifies this`row, this`col, vram
      ensures Valid() && View() == TypedAll(old(View()), cols, text, attr, withAttr)
      ensures forall a :: 0 <= a < VRAM_BYTES && OffPage(a) ==> vram[a] == old(vram[a])
    {
      assert text[0..] == text;
      for i := 0 to |text|
        invariant Valid()
        invariant TypedAll(View(), cols, text[i..], attr, withAttr) == TypedAll(old(View()), cols, text, attr, withAttr)
        invariant forall a :: 0 <= a < VRAM_BYTES && OffPage(a) ==> vram[a] == old(vram[a])
      {
        assert text[i..][0] == text[i] && text[i..][1..] == text[i + 1..];
        TypeChar(text[i], attr, withAttr);
      }
    }

    /** Fills display memory with blanks of attribute 7. */
    method ClearMemory()
      requires vram.Length == VRAM_BYTES
      modifies vram
      ensures forall a :: 0 <= a < VRAM_BYTES ==> vram[a] == if a % 2 == 0 then BLANK else 7
    {
      var i := 0;
      while i < VRAM_BYTES
        invariant 0 <= i <= VRAM_BYTES && i % 2 == 0
        invariant forall a :: 0 <= a < i ==> vram[a] == if a % 2 == 0 then BLANK else 7
      {
        vram[i], vram[i + 1] := BLANK, 7;
        i := i + 2;
      }
    }

    /** Clears display memory for a graphics mode. */
    method ZeroMemory()
      requires vram.Length == VRAM_BYTES
      modifies vram
      ensures forall a :: 0 <= a < VRAM_BYTES ==> vram[a] == 0
    {
      for i := 0 to VRAM_BYTES
        invariant forall a :: 0 <= a < i ==> vram[a] == 0
      {
        vram[i] := 0;
      }
    }

    /** Switches to the mode an INT 10h request asks for: its low seven bits name the mode,
        those above 6 stand for 3, and the top bit keeps the screen; otherwise all of
        display memory is cleared. In a graphics mode this is no text display. */
    method SetMode(request: Byte)
      requires vram.Length == VRAM_BYTES
      modifies this`cols, this`pageSize, this`page, this`row, this`col, vram
      ensures row == 0 && col == 0 && page == 0
      ensures cols == (if request % 128 in {0, 1, 4, 5} then 40 else 80)
      ensures Valid() <==> request % 128 !in {4, 5, 6}
      ensures request >= 128 ==> vram[..] == old(vram[..])
      ensures request < 128 && request !in {4, 5, 6} ==>
        View() == BlankPage(cols) && forall r, c :: 0 <= r < 25 && 0 <= c < cols ==> At(r, c) == Cell(32, 7)
      ensures request in {4, 5, 6} ==> forall a :: 0 <= a < VRAM_BYTES ==> vram[a] == 0
    {
      var mode := request % 128;
      if mode > 6 { mode := 3; }
      cols := if mode == 0 || mode == 1 || mode == 4 || mode == 5 then 40 else 80;
      pageSize := if mode <= 1 then 0x800 else if mode <= 3 then 0x1000 else 0x4000;
      page, row, col := 0, 0, 0;
      if request < 128 {
        if mode <= 3 { ClearText(); } else { ZeroMemory(); }
      }
    }

    /** Leaves the text page blank. */
    method ClearText()
      requires Valid() && page == 0 && row == 0 && col == 0
      modifies vram
      ensures View() == BlankPage(cols)
      ensures forall r, c :: 0 <= r < 25 && 0 <= c < cols ==> At(r, c) == Cell(32, 7)
    {
      ClearMemory();
      forall r, c | 0 <= r < ROWS && 0 <= c < cols ensures At(r, c) == BlankPage(cols).rows[r][c] {
        CellsAreInOrder(page, cols, pageSize, r, c);
      }
      ViewIs(BlankPage(cols));
    }
  }

  // ---------- from a cleared screen ----------

  function BlankPage(cols: nat): (p: Page)
    ensures cols > 0 ==> p.Valid(cols)
  {
    Page(seq(ROWS, _ => seq(cols, _ => Cell(BLANK, 7))), 0, 0)
  }

  function BlankSheet(cols: nat): Sheet {
    Sheet(seq(ROWS, _ => seq(cols, _ => BLANK)), 0, 0)
  }

  /** From a cleared screen, after any bytes at all, the 25 rows shown are the last
      25 lines of the sheet an unscrolled terminal would have filled. */
  lemma ScreenIsWindowOnSheet(cols: nat, text: seq<Byte>, attr: Byte, withAttr: bool)
    requires cols > 0
    ensures Shows(TypedAll(BlankPage(cols), cols, text, attr, withAttr), BlankSheet(cols).TypedAll(cols, text), cols)
  {
    var p, s := BlankPage(cols), BlankSheet(cols);
    forall r | 0 <= r < ROWS ensures CharsOf(p.rows[r]) == s.lines[r] {
    }
    TypedAllShows(p, s, cols, text, attr, withAttr);
  }
}
