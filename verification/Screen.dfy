/** The 80x25 text console of student-distrib/lib.c, proved against an unbounded log of cells. */
module Screens {
  import opened Bytes

  const COLS := 80
  const ROWS := 25
  const CELLS := 2000
  const ATTRIB: Byte := 7

  datatype Cell = Cell(ch: Byte, attr: Byte)

  predicate IsNewline(c: Byte) {
    c == 10 || c == 13
  }

  function Blanks(n: nat): seq<Byte> {
    seq(n, _ => BLANK)
  }

  /** Fill the current row; a cursor at a row start skips a whole row. */
  function PadRow(cells: seq<Byte>): seq<Byte> {
    cells + Blanks(COLS - |cells| % COLS)
  }

  function Extend(cells: seq<Byte>, c: Byte): seq<Byte> {
    if IsNewline(c) then PadRow(cells) else cells + [c]
  }

  /** Everything printed, row after row from the first one, up to the cursor; the first `top` rows
      have scrolled off. Rows that have gone never come back, so `top` is not a function of `cells`. */
  datatype Log = Log(cells: seq<Byte>, top: nat) {
    function Cursor(): int {
      |cells| - COLS * top
    }

    predicate Ok() {
      0 <= Cursor() < CELLS
    }

    /** The character at position `i` of the screen. */
    function At(i: nat): Byte {
      if COLS * top + i < |cells| then cells[COLS * top + i] else BLANK
    }

    function Put(c: Byte): (l: Log)
      requires Ok()
      ensures l.Ok()
    {
      var more := Extend(cells, c);
      Log(more, if |more| - COLS * top >= CELLS then top + 1 else top)
    }

    /** Backspace stops at the top left corner of the screen. */
    function Rub(): (l: Log)
      requires Ok()
      ensures l.Ok()
    {
      if Cursor() == 0 then this else Log(cells[..|cells| - 1], top)
    }

    function PutAll(text: seq<Byte>): (l: Log)
      requires Ok()
      ensures l.Ok()
      decreases |text|
    {
      if text == [] then this else PutAll(text[..|text| - 1]).Put(text[|text| - 1])
    }
  }

  const CLEARED := Log([], 0)

  /** The video memory `v` and the cursor (`x`, `y`) show the log. */
  ghost predicate Shows(v: seq<Cell>, x: int, y: int, log: Log) {
    && |v| == CELLS && log.Ok()
    && 0 <= x < COLS && COLS * y + x == log.Cursor()
    && ShowsCells(v, log)
  }

  ghost predicate ShowsCells(v: seq<Cell>, log: Log) {
    |v| == CELLS && forall i {:trigger v[i]} :: 0 <= i < CELLS ==> v[i] == Cell(log.At(i), ATTRIB)
  }

  lemma TypedCell(v: seq<Cell>, log: Log, c: Byte)
    requires ShowsCells(v, log) && log.Ok()
    ensures ShowsCells(v[log.Cursor() := Cell(c, ATTRIB)], Log(log.cells + [c], log.top))
  {}

  lemma PaddedCells(v: seq<Cell>, log: Log)
    requires ShowsCells(v, log)
    ensures ShowsCells(v, Log(PadRow(log.cells), log.top))
  {}

  lemma ScrolledCells(v: seq<Cell>, w: seq<Cell>, log: Log)
    requires ShowsCells(v, log) && |w| == CELLS && log.Cursor() <= CELLS
    requires forall i {:trigger w[i]} :: 0 <= i < CELLS ==>
      w[i] == if i < CELLS - COLS then v[i + COLS] else Cell(BLANK, ATTRIB)
    ensures ShowsCells(w, Log(log.cells, log.top + 1))
  {}

  class Screen {
    const video: array<Cell>
    var x: int
    var y: int
    ghost var log: Log

    ghost predicate Valid()
      reads this, video
    {
      Shows(video[..], x, y, log)
    }

    constructor ()
      ensures Valid() && fresh(video) && log == CLEARED
    {
      video := new Cell[CELLS](_ => Cell(BLANK, ATTRIB));
      x, y, log := 0, 0, CLEARED;
    }

    /** clear() */
    method Clear()
      requires video.Length == CELLS
      modifies this, video
      ensures Valid() && log == CLEARED
    {
      var i := 0;
      while i < ROWS * COLS
        invariant 0 <= i <= CELLS
        invariant forall k :: 0 <= k < i ==> video[k] == Cell(BLANK, ATTRIB)
      {
        video[i] := Cell(BLANK, ATTRIB);
        i := i + 1;
      }
      x, y, log := 0, 0, CLEARED;
    }

    /** terminal_scroll_down(): every row moves up by one and the last one becomes blank. */
    method ScrollDown()
      requires video.Length == CELLS
      modifies this`y, video
      ensures forall i :: 0 <= i < CELLS ==>
        video[i] == if i < CELLS - COLS then old(video[i + COLS]) else Cell(BLANK, ATTRIB)
      ensures y == if old(y) > 0 then old(y) - 1 else old(y)
    {
      var i := 0;
      while i < (ROWS - 1) * COLS
        invariant 0 <= i <= CELLS - COLS
        invariant y == old(y)
        invariant forall k :: 0 <= k < i ==> video[k] == old(video[k + COLS])
        invariant forall k :: i <= k < CELLS ==> video[k] == old(video[k])
      {
        video[i] := video[i + COLS];
        i := i + 1;
      }
      i := 0;
      while i < COLS
        invariant 0 <= i <= COLS && y == old(y)
        invariant forall k :: 0 <= k < CELLS - COLS ==> video[k] == old(video[k + COLS])
        invariant forall k :: CELLS - COLS <= k < CELLS - COLS + i ==> video[k] == Cell(BLANK, ATTRIB)
      {
        video[(ROWS - 1) * COLS + i] := Cell(BLANK, ATTRIB);
        i := i + 1;
      }
      if y > 0 {
        y := y - 1;
      }
    }

    method Putc(c: Byte)
      requires Valid()
      modifies this, video
      ensures Valid() && log == old(log).Put(c)
    {
      hide ShowsCells;
      ghost var was, more := video[..], Log(Extend(log.cells, c), log.top);
      if c == 10 || c == 13 {
        PaddedCells(was, log);
        y := y + 1;
        x := 0;
      } else {
        TypedCell(was, log, c);
        video[COLS * y + x] := Cell(c, ATTRIB);
        x := x + 1;
        y := y + x / COLS;
        x := x % COLS;
      }
      ghost var mid := video[..];
      assert ShowsCells(mid, more);
      if y >= ROWS {
        ScrollDown();
        ScrolledCells(mid, video[..], more);
      }
      log := log.Put(c);
    }

    /** back_space() */
    method BackSpace()
      requires Valid()
      modifies this, video
      ensures Valid() && log == old(log).Rub()
    {
      if x == 0 {
        if y == 0 {
          return;
        } else {
          y := y - 1;
          x := COLS - 1;
        }
      } else {
        x := x - 1;
      }
      video[COLS * y + x] := Cell(BLANK, ATTRIB);
      log := log.Rub();
    }

    /** puts: one character after the other. */
    method Puts(text: seq<Byte>)
      requires Valid()
      modifies this, video
      ensures Valid() && log == old(log).PutAll(text)
    {
      var i := 0;
      while i < |text|
        invariant 0 <= i <= |text| && Valid() && log == old(log).PutAll(text[..i])
      {
        Putc(text[i]);
        i := i + 1;
        assert text[..i][..i - 1] == text[..i - 1];
      }
      assert text[..i] == text;
    }
  }

  // ---- What the stream looks like on paper of unbounded length ----

  /** The position of the first newline, or the length when there is none. */
  function LineEnd(s: seq<Byte>): (i: nat)
    ensures i <= |s| && (forall k :: 0 <= k < i ==> !IsNewline(s[k]))
    ensures i < |s| ==> IsNewline(s[i])
  {
    if s == [] || IsNewline(s[0]) then 0 else 1 + LineEnd(s[1..])
  }

  /** Line by line: a finished line takes up whole rows, the last line exactly its characters. */
  function Layout(s: seq<Byte>): seq<Byte>
    decreases |s|
  {
    var i := LineEnd(s);
    if i == |s| then s else PadRow(s[..i]) + Layout(s[i + 1..])
  }

  lemma LineEndIs(s: seq<Byte>, i: nat)
    requires i <= |s| && (forall k :: 0 <= k < i ==> !IsNewline(s[k]))
    requires i < |s| ==> IsNewline(s[i])
    ensures LineEnd(s) == i
  {}

  lemma WholeRows(cells: seq<Byte>)
    ensures |PadRow(cells)| % COLS == 0
  {}

  lemma ExtendAfterRows(rows: seq<Byte>, cells: seq<Byte>, c: Byte)
    requires |rows| % COLS == 0
    ensures Extend(rows + cells, c) == rows + Extend(cells, c)
  {
    assert |rows + cells| % COLS == |cells| % COLS;
  }

  /** The cell-by-cell and the line-by-line view agree. */
  lemma {:induction false} LayoutGrows(s: seq<Byte>, c: Byte)
    ensures Layout(s + [c]) == Extend(Layout(s), c)
    decreases |s|
  {
    var i := LineEnd(s);
    LineEndIs(s + [c], if i == |s| && !IsNewline(c) then i + 1 else i);
    if i == |s| {
      if IsNewline(c) {
        assert (s + [c])[..i] == s && (s + [c])[i + 1..] == [];
        assert Layout([]) == [];
      }
    } else {
      assert (s + [c])[..i] == s[..i] && (s + [c])[i + 1..] == s[i + 1..] + [c];
      LayoutGrows(s[i + 1..], c);
      WholeRows(s[..i]);
      hide PadRow;
      ExtendAfterRows(PadRow(s[..i]), Layout(s[i + 1..]), c);
    }
  }

  /** The rows of `n` cells that have scrolled off when nothing was rubbed out. */
  function RowsGone(n: nat): nat {
    if n / COLS < ROWS then 0 else n / COLS - (ROWS - 1)
  }

  /** The last 25 rows of a layout, the cursor's row included, as the 2000 characters of a screen. */
  function LastRows(cells: seq<Byte>): seq<Byte> {
    var first := RowsGone(|cells|);
    cells[COLS * first..] + Blanks(CELLS - (|cells| - COLS * first))
  }

  lemma EmptyLayout()
    ensures Layout([]) == []
  {}

  lemma PutScrolls(log: Log, c: Byte)
    requires log.Ok() && log.top == RowsGone(|log.cells|)
    ensures log.Put(c).top == RowsGone(|log.Put(c).cells|)
  {}

  lemma {:induction false} LogOfStream(text: seq<Byte>)
    ensures CLEARED.PutAll(text) == Log(Layout(text), RowsGone(|Layout(text)|))
    decreases |text|
  {
    hide Layout, Extend;
    if text == [] {
      EmptyLayout();
    } else {
      hide RowsGone;
      var init, c := text[..|text| - 1], text[|text| - 1];
      LogOfStream(init);
      LayoutGrows(init, c);
      assert init + [c] == text;
      PutScrolls(CLEARED.PutAll(init), c);
    }
  }

  /** After any stream printed on a cleared screen, the video memory holds the last 25 rows of the
      stream's layout, and every cell from the cursor on is blank. */
  lemma ScreenIsTailOfStream(v: seq<Cell>, x: int, y: int, text: seq<Byte>)
    requires Shows(v, x, y, CLEARED.PutAll(text))
    ensures |v| == 2000 && forall i :: 0 <= i < 2000 ==> v[i] == Cell(LastRows(Layout(text))[i], 7)
    ensures 0 <= x < 80 && 0 <= y < 25
    ensures forall i :: 80 * y + x <= i < 2000 ==> v[i] == Cell(32, 7)
  {
    LogOfStream(text);
  }

  /** Newline and carriage return fill the row with blanks up to its 80th cell, a whole row from its start;
      every other character takes one cell. */
  lemma CellsOfPut(log: Log, c: Byte)
    requires log.Ok()
    ensures log.Put(c).cells
         == log.cells + if c == 10 || c == 13 then seq(80 - |log.cells| % 80, _ => 32) else [c]
  {}
}
