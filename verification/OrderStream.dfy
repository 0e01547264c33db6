/** Writing 5250 order streams, and what a terminal makes of what is written. */
module OrderStream {
  import opened Bytes
  import opened Ebcdic
  import opened Screen5250
  import opened Parser5250

  /** Everything an order stream can consist of, with its operands as they are sent. */
  datatype Item =
    | Address(row: byte, col: byte)
    | Cursor
    | StartField(attribute: byte)
    | ModifyField(attribute: byte)
    | Repeat(row: byte, col: byte, code: byte)
    | EraseTo(row: byte, col: byte)
    | Padding
    | Character(code: byte)

  /** A character must not look like an order or padding. */
  predicate Plain(code: byte)
  {
    code !in {0x00, 0x11, 0x13, 0x1D, 0x2B, 0x3C, 0x3F}
  }

  predicate WellFormed(items: seq<Item>)
  {
    forall i :: 0 <= i < |items| && items[i].Character? ==> Plain(items[i].code)
  }

  function Print(item: Item): bytes
  {
    match item
    case Address(row, col) => [0x11, row, col]
    case Cursor => [0x13]
    case StartField(attribute) => [0x1D, attribute]
    case ModifyField(attribute) => [0x2B, attribute]
    case Repeat(row, col, code) => [0x3C, row, col, code]
    case EraseTo(row, col) => [0x3F, row, col]
    case Padding => [0x00]
    case Character(code) => [code]
  }

  function PrintAll(items: seq<Item>): bytes
  {
    if items == [] then [] else Print(items[0]) + PrintAll(items[1..])
  }

  /** What an item stands for: addresses lose their two upper bits, field attributes and padding
      stand for nothing, and erasing is repeating a blank. */
  function Meaning(t: Table, item: Item): seq<Order>
  {
    match item
    case Address(row, col) => [SetAddress(row % 64, col % 64)]
    case Cursor => [InsertCursor]
    case StartField(_) => []
    case ModifyField(_) => []
    case Repeat(row, col, code) => [Fill(row % 64, col % 64, ToAscii(t, code))]
    case EraseTo(row, col) => [Fill(row % 64, col % 64, ' ')]
    case Padding => []
    case Character(code) => [Text(ToAscii(t, code))]
  }

  function MeaningAll(t: Table, items: seq<Item>): seq<Order>
  {
    if items == [] then [] else Meaning(t, items[0]) + MeaningAll(t, items[1..])
  }

  /** The beginning of an order whose operands are missing. */
  predicate Cut(tail: bytes)
  {
    || tail == []
    || (tail[0] in {0x11, 0x3F} && |tail| < 3)
    || (tail[0] == 0x3C && |tail| < 4)
    || (tail[0] in {0x1D, 0x2B} && |tail| == 1)
  }

  lemma PrintedParses(t: Table, item: Item, rest: bytes)
    requires item.Character? ==> Plain(item.code)
    ensures Orders(t, Print(item) + rest) == Meaning(t, item) + Orders(t, rest)
  {
    var d := Print(item) + rest;
    match item
    case Address(row, col) =>
      assert d[1..] == [row, col] + rest && d[1..][2..] == rest;
    case Repeat(row, col, code) =>
      assert d[1..] == [row, col, code] + rest && d[1..][3..] == rest;
    case EraseTo(row, col) =>
      assert d[1..] == [row, col] + rest && d[1..][2..] == rest;
    case StartField(attribute) =>
      assert d[1..] == [attribute] + rest && d[1..][1..] == rest;
    case ModifyField(attribute) =>
      assert d[1..] == [attribute] + rest && d[1..][1..] == rest;
    case Cursor =>
      assert d[1..] == rest;
    case Padding =>
      assert d[1..] == rest;
    case Character(code) =>
      assert d[1..] == rest;
  }

  lemma CutMeansNothing(t: Table, tail: bytes)
    requires Cut(tail)
    ensures Orders(t, tail) == []
  {
  }

  /** The parser reads back exactly what was written, whatever it is, and ignores an order that
      is cut off at the end of the record. */
  lemma {:induction false} StreamParses(t: Table, items: seq<Item>, tail: bytes)
    requires WellFormed(items) && Cut(tail)
    ensures Orders(t, PrintAll(items) + tail) == MeaningAll(t, items)
    decreases |items|
  {
    if items == [] {
      assert PrintAll(items) + tail == tail;
      CutMeansNothing(t, tail);
    } else {
      var rest := PrintAll(items[1..]) + tail;
      assert PrintAll(items) + tail == Print(items[0]) + rest;
      PrintedParses(t, items[0], rest);
      StreamParses(t, items[1..], tail);
    }
  }

  /** The same of a whole record. The command byte may be missing if the stream does not begin
      with something that looks like one; a structured field is skipped whatever it holds. */
  lemma RecordParses(t: Table, items: seq<Item>, tail: bytes)
    requires WellFormed(items) && Cut(tail)
    ensures RecordOrders(t, [0x11] + PrintAll(items) + tail) == MeaningAll(t, items)
    ensures RecordOrders(t, [0xF3] + PrintAll(items) + tail) == []
    ensures items != [] && Print(items[0])[0] !in {0x11, 0x40, 0xF3} ==>
      RecordOrders(t, PrintAll(items) + tail) == MeaningAll(t, items)
  {
    var d := [0x11] + PrintAll(items) + tail;
    assert d[1..] == PrintAll(items) + tail;
    StreamParses(t, items, tail);
    if items != [] {
      assert (PrintAll(items) + tail)[0] == Print(items[0])[0];
    }
  }

  // ---- What filling shows ----

  /** A record that goes to one address and fills up to another. */
  function FillRecord(row: byte, col: byte, to: Item): bytes
  {
    [0x11] + PrintAll([Address(row, col), to])
  }

  lemma FillOrders(t: Table, row: byte, col: byte, to: Item)
    requires to.Repeat? || to.EraseTo?
    ensures RecordOrders(t, FillRecord(row, col, to)) ==
      [SetAddress(row % 64, col % 64),
       Fill(to.row % 64, to.col % 64, if to.Repeat? then ToAscii(t, to.code) else ' ')]
  {
    var items := [Address(row, col), to];
    RecordParses(t, items, []);
    assert [0x11] + PrintAll(items) + [] == FillRecord(row, col, to);
    assert items[1..] == [to] && [to][1..] == [];
    assert MeaningAll(t, [to]) == Meaning(t, to);
  }

  /** Repeating a character, or erasing, from one place on the screen to another: exactly the
      cells on the way show the character, or a blank; all others are as before; and the cursor
      stands on the place behind the last of them. */
  lemma FillShows(t: Table, s: Screen, row: byte, col: byte, to: Item)
    requires s.Valid() && (to.Repeat? || to.EraseTo?)
    requires row < ROWS && col < 64 && to.row < ROWS && to.col < 64
    ensures Fits(t, FillRecord(row, col, to))
    ensures var r := Processed(t, FillRecord(row, col, to), s);
      var c := if to.Repeat? then ToAscii(t, to.code) else ' ';
      && r.row == to.row && r.col == to.col && r.inputRow == s.inputRow && r.inputCol == s.inputCol
      && forall p :: 0 <= p < CELLS ==>
           r.cells[p] == if InArc(p, row * COLS + col, to.row * COLS + to.col) then Cell(c, PLAIN) else s.cells[p]
  {
    FillOrders(t, row, col, to);
    var c := if to.Repeat? then ToAscii(t, to.code) else ' ';
    var first, second := SetAddress(row, col), Fill(to.row, to.col, c);
    var os := [first, second];
    assert os[1..] == [second] && [second][1..] == [];
    assert RecordOrders(t, FillRecord(row, col, to)) == os;
    var at := SetCursor(s, row, col);
    assert at.Pos() == row * COLS + col;
    assert ApplyAll(at, [second]) == Apply(at, second);
    FillRows(to.row, to.col);
  }

  lemma FillRows(row: int, col: int)
    requires 0 <= row && 0 <= col < COLS
    ensures (row * COLS + col) / COLS == row && (row * COLS + col) % COLS == col
  {
  }
}
