/** The 24x80 character-cell screen, seen as a ring of 1920 cells. */
module Screen5250 {
  import opened Bytes

  const ROWS: int := 24
  const COLS: int := 80
  const CELLS: int := 1920
  const PLAIN: byte := 0x20

  datatype Cell = Cell(ch: char, attr: byte)

  const BLANK_CELL := Cell(' ', PLAIN)

  datatype Screen = Screen(cells: seq<Cell>, row: int, col: int, inputRow: int, inputCol: int)
  {
    ghost predicate Valid()
    {
      && |cells| == CELLS
      && 0 <= row < ROWS && 0 <= col < COLS
      && 0 <= inputRow < ROWS && 0 <= inputCol < COLS
    }

    /** The ring position of the write cursor. */
    function Pos(): int
    {
      row * COLS + col
    }
  }

  function Clamp(x: int, hi: int): int
  {
    if x < 0 then 0 else if x > hi then hi else x
  }

  function Cleared(): Screen
  {
    Screen(seq(CELLS, _ => BLANK_CELL), 0, 0, 0, 0)
  }

  function SetCursor(s: Screen, row: int, col: int): Screen
  {
    s.(row := Clamp(row, ROWS - 1), col := Clamp(col, COLS - 1))
  }

  function SetInputCursor(s: Screen, row: int, col: int): Screen
  {
    s.(inputRow := Clamp(row, ROWS - 1), inputCol := Clamp(col, COLS - 1))
  }

  function Advance(s: Screen): Screen
  {
    if s.col + 1 < COLS then s.(col := s.col + 1)
    else if s.row + 1 < ROWS then s.(row := s.row + 1, col := 0)
    else s.(row := 0, col := 0)
  }

  function PutChar(s: Screen, c: char): Screen
    requires s.Valid()
  {
    Advance(s.(cells := s.cells[s.Pos() := Cell(c, PLAIN)]))
  }

  /** Each address byte carries six bits. */
  function DecodeSba(b0: byte, b1: byte): (r: (int, int))
    ensures 0 <= r.0 < 64 && 0 <= r.1 < 64
  {
    (b0 % 64, b1 % 64)
  }

  /** Walking forward around the ring from `from`, is `p` met strictly before `to`? */
  predicate InArc(p: int, from: int, to: int)
  {
    (p - from) % CELLS < (to - from) % CELLS
  }

  function FilledCells(s: Screen, target: int, c: char): seq<Cell>
    requires s.Valid()
  {
    seq(CELLS, p requires 0 <= p < CELLS => if InArc(p, s.Pos(), target) then Cell(c, PLAIN) else s.cells[p])
  }

  /** Filling up to an address overwrites the arc before it and stops on it. */
  function FillTo(s: Screen, target: int, c: char): Screen
    requires s.Valid() && 0 <= target < CELLS
  {
    Screen(FilledCells(s, target, c), target / COLS, target % COLS, s.inputRow, s.inputCol)
  }

  /** The cursor moves one cell around the ring; nothing else changes. */
  lemma AdvanceIsRing(s: Screen)
    requires s.Valid()
    ensures Advance(s).Valid()
    ensures Advance(s).Pos() == (s.Pos() + 1) % CELLS
    ensures Advance(s) == s.(row := Advance(s).row, col := Advance(s).col)
  {
  }

  function Distance(a: int, b: int): nat
  {
    if a < b then b - a else a - b
  }

  /** A place off the screen is replaced by the nearest one on it; one on the screen is not. The
      two cursors do not affect each other, and no cell changes. */
  lemma CursorsGoToNearest(s: Screen, row: int, col: int, r: int, c: int)
    requires 0 <= r < ROWS && 0 <= c < COLS
    ensures var m := SetCursor(s, row, col);
      && m == s.(row := m.row, col := m.col) && 0 <= m.row < ROWS && 0 <= m.col < COLS
      && Distance(m.row, row) <= Distance(r, row) && Distance(m.col, col) <= Distance(c, col)
    ensures var m := SetInputCursor(s, row, col);
      && m == s.(inputRow := m.inputRow, inputCol := m.inputCol) && 0 <= m.inputRow < ROWS && 0 <= m.inputCol < COLS
      && Distance(m.inputRow, row) <= Distance(r, row) && Distance(m.inputCol, col) <= Distance(c, col)
  {
  }

  /** Where the cursor stands after `k` single-cell advances. */
  function PosAfter(s: Screen, k: nat): int
    requires s.Valid()
    decreases k
  {
    if k == 0 then s.Pos() else AdvanceIsRing(s); PosAfter(Advance(s), k - 1)
  }

  lemma {:induction false} PosAfterIsRing(s: Screen, k: nat)
    requires s.Valid()
    ensures PosAfter(s, k) == (s.Pos() + k) % CELLS
    decreases k
  {
    if k > 0 {
      AdvanceIsRing(s);
      PosAfterIsRing(Advance(s), k - 1);
    }
  }

  /** Advancing often enough brings the cursor to `target`. */
  ghost predicate Meets(s: Screen, target: int)
    requires s.Valid()
  {
    exists k: nat :: PosAfter(s, k) == target
  }

  /** The fill loop leaves only when the cursor stands on the target. A target outside the
      ring is never met, so the loop ends exactly for the targets inside it. */
  lemma FillEndsIff(s: Screen, target: int)
    requires s.Valid()
    ensures Meets(s, target) <==> 0 <= target < CELLS
  {
    if 0 <= target < CELLS {
      var k: nat := (target - s.Pos()) % CELLS;
      PosAfterIsRing(s, k);
      assert PosAfter(s, k) == target;
    } else {
      forall k: nat
        ensures PosAfter(s, k) != target
      {
        PosAfterIsRing(s, k);
      }
    }
  }

  /** An address lies inside the ring exactly when its row lies on the screen. */
  lemma AddressInRingIff(row: int, col: int)
    requires 0 <= row && 0 <= col < COLS
    ensures 0 <= row * COLS + col < CELLS <==> row < ROWS
  {
  }

  class ScreenModel {
    const cells: array<Cell>
    var cursorRow: int
    var cursorCol: int
    var inputRow: int
    var inputCol: int

    ghost function View(): Screen
      reads this, cells
    {
      Screen(cells[..], cursorRow, cursorCol, inputRow, inputCol)
    }

    ghost predicate Valid()
      reads this, cells
    {
      View().Valid()
    }

    constructor ()
      ensures Valid() && fresh(cells) && View() == Cleared()
    {
      cells := new Cell[CELLS](_ => BLANK_CELL);
      cursorRow, cursorCol, inputRow, inputCol := 0, 0, 0, 0;
    }

    method Clear()
      requires Valid()
      modifies this, cells
      ensures Valid() && View() == Cleared()
    {
      for i := 0 to CELLS
        invariant cells.Length == CELLS
        invariant forall p :: 0 <= p < i ==> cells[p] == BLANK_CELL
      {
        cells[i] := BLANK_CELL;
      }
      cursorRow, cursorCol, inputRow, inputCol := 0, 0, 0, 0;
    }

    method MoveTo(row: int, col: int)
      requires Valid()
      modifies this
      ensures Valid() && View() == SetCursor(old(View()), row, col)
    {
      cursorRow := Clamp(row, ROWS - 1);
      cursorCol := Clamp(col, COLS - 1);
    }

    method MoveInput(row: int, col: int)
      requires Valid()
      modifies this
      ensures Valid() && View() == SetInputCursor(old(View()), row, col)
    {
      inputRow := Clamp(row, ROWS - 1);
      inputCol := Clamp(col, COLS - 1);
    }

    method StepCursor()
      requires Valid()
      modifies this`cursorRow, this`cursorCol
      ensures Valid() && View() == Advance(old(View()))
    {
      cursorCol := cursorCol + 1;
      if cursorCol >= COLS {
        cursorCol := 0;
        cursorRow := cursorRow + 1;
        if cursorRow >= ROWS {
          cursorRow := 0;
        }
      }
    }

    method Put(c: char)
      requires Valid()
      modifies this`cursorRow, this`cursorCol, cells
      ensures Valid() && View() == PutChar(old(View()), c)
    {
      cells[cursorRow * COLS + cursorCol] := Cell(c, PLAIN);
      StepCursor();
    }

    /** Only targets inside the ring let the loop end (`FillEndsIff`). */
    method RepeatToAddress(toRow: int, toCol: int, c: char)
      requires Valid()
      requires 0 <= toRow * COLS + toCol < CELLS
      modifies this`cursorRow, this`cursorCol, cells
      ensures Valid() && View() == FillTo(old(View()), toRow * COLS + toCol, c)
    {
      var target := toRow * COLS + toCol;
      ghost var start := View();
      ghost var from := start.Pos();
      while cursorRow * COLS + cursorCol != target
        invariant Valid()
        invariant inputRow == start.inputRow && inputCol == start.inputCol
        invariant (View().Pos() - from) % CELLS <= (target - from) % CELLS
        invariant Filled(start, cells[..], View().Pos(), c)
        decreases (target - View().Pos()) % CELLS
      {
        ghost var pos := View().Pos();
        ghost var before := cells[..];
        ArcGrows(from, pos, target);
        cells[cursorRow * COLS + cursorCol] := Cell(c, PLAIN);
        AdvanceIsRing(View());
        StepCursor();
        assert View().Pos() == Next(pos);
        assert cells[..] == before[pos := Cell(c, PLAIN)];
        FillGrows(start, before, pos, c);
      }
    }
  }

  function Next(pos: int): int
  {
    if pos + 1 < CELLS then pos + 1 else 0
  }

  /** The covered arc grows by one cell, and the remaining distance shrinks by one. */
  lemma ArcGrows(from: int, pos: int, target: int)
    requires 0 <= from < CELLS && 0 <= pos < CELLS && 0 <= target < CELLS
    requires pos != target
    requires (pos - from) % CELLS <= (target - from) % CELLS
    ensures (Next(pos) - from) % CELLS == (pos - from) % CELLS + 1 <= (target - from) % CELLS
    ensures (target - Next(pos)) % CELLS == (target - pos) % CELLS - 1
  {
    RingDistance(from, pos);
    RingDistance(from, Next(pos));
    RingDistance(from, target);
    RingDistance(pos, target);
    RingDistance(Next(pos), target);
  }

  /** The arc from the cursor of `start` up to `pos` shows `c`, and the rest is as in `start`. */
  ghost predicate Filled(start: Screen, cells: seq<Cell>, pos: int, c: char)
    requires start.Valid()
  {
    && |cells| == CELLS
    && forall p :: 0 <= p < CELLS ==>
         cells[p] == if InArc(p, start.Pos(), pos) then Cell(c, PLAIN) else start.cells[p]
  }

  lemma FillGrows(start: Screen, cells: seq<Cell>, pos: int, c: char)
    requires start.Valid() && Filled(start, cells, pos, c) && 0 <= pos < CELLS
    requires (Next(pos) - start.Pos()) % CELLS == (pos - start.Pos()) % CELLS + 1
    ensures Filled(start, cells[pos := Cell(c, PLAIN)], Next(pos), c)
  {
    forall p | 0 <= p < CELLS
      ensures cells[pos := Cell(c, PLAIN)][p] ==
        if InArc(p, start.Pos(), Next(pos)) then Cell(c, PLAIN) else start.cells[p]
    {
      ArcCell(p, start.Pos(), pos);
    }
  }

  lemma ArcCell(p: int, from: int, pos: int)
    requires 0 <= p < CELLS && 0 <= from < CELLS && 0 <= pos < CELLS
    requires (Next(pos) - from) % CELLS == (pos - from) % CELLS + 1
    ensures InArc(p, from, Next(pos)) <==> InArc(p, from, pos) || p == pos
  {
    RingDistance(from, p);
    RingDistance(from, pos);
  }

  lemma RingDistance(from: int, to: int)
    requires 0 <= from < CELLS && 0 <= to < CELLS
    ensures (to - from) % CELLS == if from <= to then to - from else to - from + CELLS
  {
    if to < from {
      assert (to - from + CELLS) % CELLS == to - from + CELLS;
    }
  }
}
