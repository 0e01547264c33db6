/** The 5250 order parser: a record is tokenised into orders, which act on the screen. */
module Parser5250 {
  import opened Bytes
  import opened Ebcdic
  import opened Screen5250

  const CLEAR_UNIT: byte := 0x40
  const WRITE_TO_DISPLAY: byte := 0x11
  const WRITE_STRUCTURED_FIELD: byte := 0xF3

  const SBA: byte := 0x11
  const IC: byte := 0x13
  const SF: byte := 0x1D
  const MF: byte := 0x2B
  const RA: byte := 0x3C
  const EA: byte := 0x3F

  datatype Order =
    | SetAddress(row: int, col: int)
    | InsertCursor
    | Fill(row: int, col: int, c: char)
    | Text(c: char)

  function SetAddressOf(d: bytes): Order
    requires |d| >= 2
  {
    var (row, col) := DecodeSba(d[0], d[1]);
    SetAddress(row, col)
  }

  function FillOf(d: bytes, c: char): Order
    requires |d| >= 2
  {
    var (row, col) := DecodeSba(d[0], d[1]);
    Fill(row, col, c)
  }

  /** The orders of a stream. An incomplete address at the end drops the rest of the record. */
  function Orders(t: Table, d: bytes): seq<Order>
    decreases |d|
  {
    if d == [] then [] else
    var b, r := d[0], d[1..];
    if b == SBA then
      if |r| < 2 then [] else [SetAddressOf(r)] + Orders(t, r[2..])
    else if b == IC then
      [InsertCursor] + Orders(t, r)
    else if b == SF || b == MF then
      if r == [] then [] else Orders(t, r[1..])
    else if b == RA then
      if |r| < 3 then [] else [FillOf(r, ToAscii(t, r[2]))] + Orders(t, r[3..])
    else if b == EA then
      if |r| < 2 then [] else [FillOf(r, ' ')] + Orders(t, r[2..])
    else if b == 0 then
      Orders(t, r)
    else
      [Text(ToAscii(t, b))] + Orders(t, r)
  }

  /** The first byte of a record is a command; an unknown one is taken as part of the stream. */
  function RecordOrders(t: Table, data: bytes): seq<Order>
  {
    if data == [] || data[0] == CLEAR_UNIT || data[0] == WRITE_STRUCTURED_FIELD then []
    else if data[0] == WRITE_TO_DISPLAY then Orders(t, data[1..])
    else Orders(t, data)
  }

  /** A fill with its target on the screen. */
  predicate OnScreen(o: Order)
  {
    o.Fill? ==> 0 <= o.row < ROWS && 0 <= o.col < COLS
  }

  predicate AllOnScreen(os: seq<Order>)
  {
    forall i :: 0 <= i < |os| ==> OnScreen(os[i])
  }

  function Apply(s: Screen, o: Order): (r: Screen)
    requires s.Valid() && OnScreen(o)
    ensures r.Valid()
  {
    match o
    case SetAddress(row, col) => SetCursor(s, row, col)
    case InsertCursor => SetInputCursor(s, s.row, s.col)
    case Fill(row, col, c) => FillTo(s, row * COLS + col, c)
    case Text(c) => PutChar(s, c)
  }

  function ApplyAll(s: Screen, os: seq<Order>): (r: Screen)
    requires s.Valid() && AllOnScreen(os)
    ensures r.Valid()
    decreases |os|
  {
    if os == [] then s else ApplyAll(Apply(s, os[0]), os[1..])
  }

  /** No fill order of the record aims below the screen. */
  predicate Fits(t: Table, data: bytes)
  {
    AllOnScreen(RecordOrders(t, data))
  }

  /** What one record does to the screen. */
  function Processed(t: Table, data: bytes, s: Screen): (r: Screen)
    requires s.Valid() && Fits(t, data)
    ensures r.Valid()
  {
    if data != [] && data[0] == CLEAR_UNIT then Cleared() else ApplyAll(s, RecordOrders(t, data))
  }

  /** Every fill the parser gets to, having finished the orders before it, meets its target. */
  ghost predicate Halts(s: Screen, os: seq<Order>)
    requires s.Valid()
  {
    forall i :: 0 <= i < |os| && AllOnScreen(os[..i]) && os[i].Fill? ==>
      Meets(ApplyAll(s, os[..i]), os[i].row * COLS + os[i].col)
  }

  /** The addresses the tokeniser produces have six-bit rows and columns. */
  lemma {:induction false} OrdersSixBit(t: Table, d: bytes)
    ensures forall i :: 0 <= i < |Orders(t, d)| && Orders(t, d)[i].Fill? ==>
      0 <= Orders(t, d)[i].row < 64 && 0 <= Orders(t, d)[i].col < 64
    decreases |d|
  {
    if d != [] {
      var r := d[1..];
      OrdersSixBit(t, r);
      if |r| >= 1 { OrdersSixBit(t, r[1..]); }
      if |r| >= 2 { OrdersSixBit(t, r[2..]); }
      if |r| >= 3 { OrdersSixBit(t, r[3..]); }
    }
  }

  /** Whatever the screen shows, processing a stream ends exactly when none of its fill
      orders names a row below the screen. */
  lemma HaltsIff(s: Screen, t: Table, d: bytes)
    requires s.Valid()
    ensures Halts(s, Orders(t, d)) <==> AllOnScreen(Orders(t, d))
  {
    var os := Orders(t, d);
    OrdersSixBit(t, d);
    if AllOnScreen(os) {
      forall i | 0 <= i < |os| && AllOnScreen(os[..i]) && os[i].Fill?
        ensures Meets(ApplyAll(s, os[..i]), os[i].row * COLS + os[i].col)
      {
        FillEndsIff(ApplyAll(s, os[..i]), os[i].row * COLS + os[i].col);
      }
    }
    if Halts(s, os) {
      PrefixOnScreen(s, os, |os|);
      assert os[..|os|] == os;
    }
  }

  /** A record that repeats a blank up to row 24, one below the last, never ends. */
  lemma RowBelowScreenHangs(s: Screen, t: Table)
    requires s.Valid()
    ensures !Halts(s, RecordOrders(t, [WRITE_TO_DISPLAY, RA, 24, 0, 0x40]))
  {
    var data: bytes := [WRITE_TO_DISPLAY, RA, 24, 0, 0x40];
    var d := data[1..];
    assert d == [RA, 24, 0, 0x40] && d[1..] == [24, 0, 0x40];
    assert Orders(t, d)[0] == FillOf(d[1..], ToAscii(t, 0x40));
    assert !OnScreen(Orders(t, d)[0]);
    HaltsIff(s, t, d);
  }

  lemma {:induction false} PrefixOnScreen(s: Screen, os: seq<Order>, n: nat)
    requires s.Valid() && n <= |os| && Halts(s, os)
    requires forall i :: 0 <= i < |os| && os[i].Fill? ==> 0 <= os[i].row && 0 <= os[i].col < COLS
    ensures AllOnScreen(os[..n])
    decreases n
  {
    if n > 0 {
      PrefixOnScreen(s, os, n - 1);
      var o := os[n - 1];
      if o.Fill? {
        assert Meets(ApplyAll(s, os[..n - 1]), o.row * COLS + o.col);
        FillEndsIff(ApplyAll(s, os[..n - 1]), o.row * COLS + o.col);
        AddressInRingIff(o.row, o.col);
      }
      assert OnScreen(o);
      assert os[..n] == os[..n - 1] + [o];
    }
  }

  lemma {:induction false} ApplyAllAppend(s: Screen, xs: seq<Order>, ys: seq<Order>)
    requires s.Valid() && AllOnScreen(xs) && AllOnScreen(ys)
    ensures AllOnScreen(xs + ys)
    ensures ApplyAll(s, xs + ys) == ApplyAll(ApplyAll(s, xs), ys)
    decreases |xs|
  {
    if xs == [] {
      assert xs + ys == ys;
    } else {
      assert (xs + ys)[1..] == xs[1..] + ys;
      ApplyAllAppend(Apply(s, xs[0]), xs[1..], ys);
    }
  }

  lemma Slices(data: bytes, i: nat, k: nat)
    requires i + 1 + k <= |data|
    ensures data[i..] == [data[i]] + data[i + 1..]
    ensures data[i..][1..] == data[i + 1..]
    ensures data[i + 1..][k..] == data[i + 1 + k..]
  {
  }

  /** Carrying out the first order leaves the others to be carried out. */
  ghost predicate Remains(before: Screen, os: seq<Order>, after: Screen, rest: seq<Order>)
    requires before.Valid() && after.Valid() && AllOnScreen(os)
  {
    AllOnScreen(rest) && ApplyAll(after, rest) == ApplyAll(before, os)
  }

  lemma FirstApplied(s: Screen, o: Order, rest: seq<Order>)
    requires s.Valid() && AllOnScreen([o] + rest)
    ensures OnScreen(o) && Remains(s, [o] + rest, Apply(s, o), rest)
  {
    var os := [o] + rest;
    assert OnScreen(os[0]);
    assert os[1..] == rest;
    assert forall i :: 0 <= i < |rest| ==> rest[i] == os[i + 1];
  }

  /** An address operand and the fill up to it. */
  method FillOrder(screen: ScreenModel, b0: byte, b1: byte, c: char, ghost rest: seq<Order>)
    requires screen.Valid() && AllOnScreen([FillOf([b0, b1], c)] + rest)
    modifies screen, screen.cells
    ensures screen.Valid()
    ensures Remains(old(screen.View()), [FillOf([b0, b1], c)] + rest, screen.View(), rest)
  {
    var (row, col) := DecodeSba(b0, b1);
    FirstApplied(screen.View(), FillOf([b0, b1], c), rest);
    screen.RepeatToAddress(row, col, c);
  }

  /** One turn of the parser's loop, starting at `i`; an incomplete order ends the record. */
  method ProcessOrder(t: Table, data: bytes, i: nat, screen: ScreenModel) returns (j: nat)
    requires i < |data| && screen.Valid()
    requires AllOnScreen(Orders(t, data[i..]))
    modifies screen, screen.cells
    ensures i < j <= |data| && screen.Valid()
    ensures Remains(old(screen.View()), Orders(t, data[i..]), screen.View(), Orders(t, data[j..]))
  {
    var n, b := |data|, data[i];
    j := i + 1;
    Slices(data, i, 0);
    if b == SBA {
      if j + 1 >= n {
        return n;
      }
      Slices(data, i, 2);
      var (row, col) := DecodeSba(data[j], data[j + 1]);
      j := j + 2;
      FirstApplied(screen.View(), SetAddress(row, col), Orders(t, data[j..]));
      screen.MoveTo(row, col);
    } else if b == IC {
      FirstApplied(screen.View(), InsertCursor, Orders(t, data[j..]));
      screen.MoveInput(screen.cursorRow, screen.cursorCol);
    } else if b == SF || b == MF {
      if j < n {
        Slices(data, i, 1);
        j := j + 1;
      }
    } else if b == RA {
      if j + 2 >= n {
        return n;
      }
      Slices(data, i, 3);
      var c := ToAscii(t, data[j + 2]);
      FillOrder(screen, data[j], data[j + 1], c, Orders(t, data[j + 3..]));
      j := j + 3;
    } else if b == EA {
      if j + 1 >= n {
        return n;
      }
      Slices(data, i, 2);
      FillOrder(screen, data[j], data[j + 1], ' ', Orders(t, data[j + 2..]));
      j := j + 2;
    } else if b != 0 {
      FirstApplied(screen.View(), Text(ToAscii(t, b)), Orders(t, data[j..]));
      screen.Put(ToAscii(t, b));
    }
  }

  /** `Stream5250Parser::process`. A payload outside the precondition makes the source loop
      for ever (`HaltsIff`). */
  method Process(t: Table, data: bytes, screen: ScreenModel)
    requires screen.Valid()
    requires Fits(t, data)
    modifies screen, screen.cells
    ensures screen.Valid()
    ensures screen.View() == Processed(t, data, old(screen.View()))
  {
    var i, n := 0, |data|;
    if n == 0 {
      return;
    }
    var cmd := data[i];
    i := i + 1;
    if cmd == CLEAR_UNIT {
      screen.Clear();
      return;
    } else if cmd == WRITE_STRUCTURED_FIELD {
      return;
    } else if cmd != WRITE_TO_DISPLAY {
      i := i - 1;
    }
    assert data[0..] == data;
    ghost var os := RecordOrders(t, data);
    while i < n
      invariant 0 <= i <= n && screen.Valid()
      invariant Remains(old(screen.View()), os, screen.View(), Orders(t, data[i..]))
    {
      i := ProcessOrder(t, data, i, screen);
    }
  }
}
