/** The displays the emulator prints, and what a terminal makes of them. */
module Display {
  import opened Bytes
  import opened Ebcdic
  import opened Screen5250
  import opened Parser5250
  import opened Emulator

  /** A text and the place on the screen it is meant for. */
  datatype Label = Label(row: byte, col: byte, text: string)

  /** The fixed texts of the two panels. */
  datatype Captions = Captions(
    title: string, subtitle: string, signOn: string, user: string, password: string,
    signOnHelp: string, signOnKeys: string,
    menu: string, profiles: string, jobs: string, systemStatus: string, selection: string,
    menuHelp: string, menuKeys: string)
  {
    /** Every caption fits into its row, and the prompts end before the input column. */
    predicate Fit()
    {
      && |title| <= 80 && |subtitle| <= 80 && |signOn| <= 80 && |signOnHelp| <= 80 && |signOnKeys| <= 80
      && |menu| <= 80 && |menuHelp| <= 80 && |menuKeys| <= 80
      && |profiles| <= 72 && |jobs| <= 72 && |systemStatus| <= 72
      && |user| <= 48 && |password| <= 48 && |selection| <= 48
    }
  }

  function ConsoleCaptions(): Captions
  {
    Captions(
      "IBM i DUMMY CONSOLE                         SYSTEM: TESTIBMI",
      "5250 emulator source for ibmi_console_client testing",
      "                         Sign On",
      "User . . . . . . . . . . . . . . . . . . . .:",
      "Password . . . . . . . . . . . . . . . . . .:",
      "Enter=Next/Sign on   Up/Down=Change field",
      "F3=Exit   F12=Clear fields",
      "                        Main Menu",
      "1. Work with user profiles",
      "2. Work with jobs",
      "3. Display system status",
      "Selection . . . . . . . . . . . . . . . . . .:",
      "Type 1, 2, or 3 and press Enter.",
      "F3=Exit   F12=Sign off")
  }

  lemma ConsoleCaptionsFit()
    ensures ConsoleCaptions().Fit()
  {
  }

  function SignOnLabels(k: Captions, c: Console): seq<Label>
  {
    [ Label(1, 0, k.title),
      Label(2, 0, k.subtitle),
      Label(4, 0, k.signOn),
      Label(7, 8, k.user),
      Label(7, 56, c.user),
      Label(9, 8, k.password),
      Label(9, 56, Stars(|c.password|)),
      Label(13, 0, c.status),
      Label(20, 0, k.signOnHelp),
      Label(22, 0, k.signOnKeys) ]
  }

  function MenuLabels(k: Captions, c: Console): seq<Label>
  {
    [ Label(1, 0, k.title),
      Label(4, 0, k.menu),
      Label(7, 8, k.profiles),
      Label(9, 8, k.jobs),
      Label(11, 8, k.systemStatus),
      Label(14, 8, k.selection),
      Label(14, 56, c.selection),
      Label(17, 0, c.status),
      Label(20, 0, k.menuHelp),
      Label(22, 0, k.menuKeys) ]
  }

  function Stars(n: nat): string
  {
    seq(n, _ => '*')
  }

  function Labels(k: Captions, c: Console): seq<Label>
  {
    if c.panel.SignOn? then SignOnLabels(k, c) else MenuLabels(k, c)
  }

  function InputRow(c: Console): byte
  {
    if c.panel.Menu? then 14 else if c.field.User? then 7 else 9
  }

  /** The column operand is a byte. */
  function InputColumnOperand(c: Console): byte
  {
    (56 + c.cursor) % 256
  }

  /** What a display consists of: nothing, or texts and the place of the input cursor. */
  datatype Layout = Closed | Open(labels: seq<Label>, row: byte, col: byte)

  ghost predicate Placeable(ls: seq<Label>)
  {
    forall i :: 0 <= i < |ls| ==> ls[i].row < ROWS && ls[i].col < 64
  }

  /** Its texts and its input cursor start on the screen. */
  type Form = f: Layout | f.Open? ==> Placeable(f.labels) && f.row < ROWS witness Closed

  function FormOf(k: Captions, c: Console): Form
  {
    if c.closed then Closed else Open(Labels(k, c), InputRow(c), InputColumnOperand(c))
  }

  // ---- Printing ----

  function EncodeText(t: Table, text: string): bytes
  {
    if text == [] then [] else EncodeText(t, text[..|text| - 1]) + [ToEbcdic(t, text[|text| - 1])]
  }

  function PrintLabel(t: Table, l: Label): bytes
  {
    [SBA, l.row, l.col] + EncodeText(t, l.text)
  }

  function PrintLabels(t: Table, ls: seq<Label>): bytes
  {
    if ls == [] then [] else PrintLabels(t, ls[..|ls| - 1]) + PrintLabel(t, ls[|ls| - 1])
  }

  function PrintCursor(row: byte, col: byte): bytes
  {
    [SBA, row, col, SF, 0x20, IC]
  }

  /** A write-to-display record: the labels, then the place of the input cursor. */
  function PrintRecord(t: Table, ls: seq<Label>, row: byte, col: byte): bytes
  {
    [WRITE_TO_DISPLAY] + PrintLabels(t, ls) + PrintCursor(row, col)
  }

  /** `makeDisplay`: a clear record, then the display record unless the session is closed. */
  function Records(t: Table, f: Form): seq<bytes>
  {
    if f.Closed? then [[CLEAR_UNIT]] else [[CLEAR_UNIT], PrintRecord(t, f.labels, f.row, f.col)]
  }

  // ---- The intended screen ----

  /** The last character of `text` that lands on ring cell `q` when `text` is written from
      cell `start` on. */
  function Landing(text: string, start: int, q: int): seq<char>
  {
    if text == [] then []
    else if (start + |text| - 1) % CELLS == q then [text[|text| - 1]]
    else Landing(text[..|text| - 1], start, q)
  }

  /** What cell `q` should show: the last label covering it wins, and the rest is blank. */
  function Shown(t: Table, ls: seq<Label>, q: int): char
  {
    if ls == [] then ' '
    else
      var l := ls[|ls| - 1];
      var hit := Landing(l.text, l.row * COLS + l.col, q);
      if hit != [] then Displayed(t, hit[0]) else Shown(t, ls[..|ls| - 1], q)
  }

  function ShownCells(t: Table, ls: seq<Label>): seq<Cell>
  {
    seq(CELLS, q => Cell(Shown(t, ls, q), PLAIN))
  }

  /** The screen a form asks for. Only six bits of the input column reach it. */
  function Intended(t: Table, f: Form): (s: Screen)
    ensures s.Valid()
  {
    if f.Closed? then Cleared() else Screen(ShownCells(t, f.labels), f.row, f.col % 64, f.row, f.col % 64)
  }

  // ---- The parser reads the printed orders back ----

  function TextOrders(t: Table, text: string): seq<Order>
  {
    if text == [] then [] else TextOrders(t, text[..|text| - 1]) + [Text(Displayed(t, text[|text| - 1]))]
  }

  function LabelOrders(t: Table, l: Label): seq<Order>
  {
    [SetAddress(l.row % 64, l.col % 64)] + TextOrders(t, l.text)
  }

  function LabelsOrders(t: Table, ls: seq<Label>): seq<Order>
  {
    if ls == [] then [] else LabelsOrders(t, ls[..|ls| - 1]) + LabelOrders(t, ls[|ls| - 1])
  }

  lemma CharacterToken(t: Table, c: char, rest: bytes)
    ensures Orders(t, [ToEbcdic(t, c)] + rest) == [Text(Displayed(t, c))] + Orders(t, rest)
  {
    ToEbcdicRoundTrip(t, c);
    assert ([ToEbcdic(t, c)] + rest)[1..] == rest;
  }

  lemma {:induction false} TextTokens(t: Table, text: string, rest: bytes)
    ensures Orders(t, EncodeText(t, text) + rest) == TextOrders(t, text) + Orders(t, rest)
    decreases |text|
  {
    if text == [] {
      assert EncodeText(t, text) + rest == rest;
    } else {
      var init, c := text[..|text| - 1], text[|text| - 1];
      var b := ToEbcdic(t, c);
      assert EncodeText(t, text) + rest == EncodeText(t, init) + ([b] + rest);
      TextTokens(t, init, [b] + rest);
      CharacterToken(t, c, rest);
    }
  }

  lemma LabelTokens(t: Table, l: Label, rest: bytes)
    ensures Orders(t, PrintLabel(t, l) + rest) == LabelOrders(t, l) + Orders(t, rest)
  {
    var tail := EncodeText(t, l.text) + rest;
    var d := PrintLabel(t, l) + rest;
    assert d[1..] == [l.row, l.col] + tail;
    assert d[1..][2..] == tail;
    TextTokens(t, l.text, rest);
  }

  lemma {:induction false} LabelsTokens(t: Table, ls: seq<Label>, rest: bytes)
    ensures Orders(t, PrintLabels(t, ls) + rest) == LabelsOrders(t, ls) + Orders(t, rest)
    decreases |ls|
  {
    if ls == [] {
      assert PrintLabels(t, ls) + rest == rest;
    } else {
      var init, l := ls[..|ls| - 1], ls[|ls| - 1];
      assert PrintLabels(t, ls) + rest == PrintLabels(t, init) + (PrintLabel(t, l) + rest);
      LabelsTokens(t, init, PrintLabel(t, l) + rest);
      LabelTokens(t, l, rest);
    }
  }

  lemma CursorTokens(t: Table, row: byte, col: byte)
    ensures Orders(t, PrintCursor(row, col)) == [SetAddress(row % 64, col % 64), InsertCursor]
  {
    var d := PrintCursor(row, col);
    assert d[1..][2..] == [SF, 0x20, IC];
    assert [SF, 0x20, IC][1..][1..] == [IC];
    assert [IC][1..] == [];
    assert Orders(t, [IC]) == [InsertCursor];
    assert Orders(t, [SF, 0x20, IC]) == [InsertCursor];
  }

  /** Parsing is the inverse of printing. */
  lemma RecordTokens(t: Table, ls: seq<Label>, row: byte, col: byte)
    ensures RecordOrders(t, PrintRecord(t, ls, row, col)) ==
      LabelsOrders(t, ls) + [SetAddress(row % 64, col % 64), InsertCursor]
  {
    assert PrintRecord(t, ls, row, col)[1..] == PrintLabels(t, ls) + PrintCursor(row, col);
    LabelsTokens(t, ls, PrintCursor(row, col));
    CursorTokens(t, row, col);
  }

  // ---- The orders paint the intended screen ----

  ghost predicate NoFill(os: seq<Order>)
  {
    forall i :: 0 <= i < |os| ==> !os[i].Fill?
  }

  lemma {:induction false} TextNoFill(t: Table, text: string)
    ensures NoFill(TextOrders(t, text))
    decreases |text|
  {
    if text != [] {
      TextNoFill(t, text[..|text| - 1]);
    }
  }

  lemma {:induction false} LabelsNoFill(t: Table, ls: seq<Label>)
    ensures NoFill(LabelsOrders(t, ls))
    decreases |ls|
  {
    if ls != [] {
      LabelsNoFill(t, ls[..|ls| - 1]);
      TextNoFill(t, ls[|ls| - 1].text);
    }
  }

  /** Writing a text moves the cursor by its length and changes exactly the cells it lands on. */
  lemma {:induction false} TextPaints(t: Table, s: Screen, text: string)
    requires s.Valid()
    ensures NoFill(TextOrders(t, text))
    ensures var r := ApplyAll(s, TextOrders(t, text));
      && r.Pos() == (s.Pos() + |text|) % CELLS
      && r.inputRow == s.inputRow && r.inputCol == s.inputCol
      && forall q :: 0 <= q < CELLS ==> r.cells[q] == Painted(t, text, s, q)
    decreases |text|
  {
    TextNoFill(t, text);
    if text != [] {
      var init, ch := text[..|text| - 1], text[|text| - 1];
      TextPaints(t, s, init);
      var m := ApplyAll(s, TextOrders(t, init));
      var o := Text(Displayed(t, ch));
      ApplyAllAppend(s, TextOrders(t, init), [o]);
      assert [o][1..] == [];
      AdvanceIsRing(m.(cells := m.cells[m.Pos() := Cell(Displayed(t, ch), PLAIN)]));
      RingSucc(s.Pos(), |init|);
    }
  }

  lemma RingSucc(a: int, n: nat)
    ensures ((a + n) % CELLS + 1) % CELLS == (a + n + 1) % CELLS
  {
  }

  function Painted(t: Table, text: string, s: Screen, q: int): Cell
    requires s.Valid() && 0 <= q < CELLS
  {
    var hit := Landing(text, s.Pos(), q);
    if hit == [] then s.cells[q] else Cell(Displayed(t, hit[0]), PLAIN)
  }

  lemma LabelPaints(t: Table, s: Screen, l: Label)
    requires s.Valid() && l.row < ROWS && l.col < 64
    ensures NoFill(LabelOrders(t, l))
    ensures var r := ApplyAll(s, LabelOrders(t, l));
      var at := SetCursor(s, l.row, l.col);
      at.Valid() && at.Pos() == l.row * COLS + l.col &&
      r.inputRow == s.inputRow && r.inputCol == s.inputCol &&
      forall q :: 0 <= q < CELLS ==> r.cells[q] == Painted(t, l.text, at, q)
  {
    var o := SetAddress(l.row % 64, l.col % 64);
    TextNoFill(t, l.text);
    ApplyAllAppend(s, [o], TextOrders(t, l.text));
    assert [o][1..] == [];
    TextPaints(t, SetCursor(s, l.row, l.col), l.text);
  }

  lemma {:induction false} LabelsPaint(t: Table, ls: seq<Label>)
    requires Placeable(ls)
    ensures NoFill(LabelsOrders(t, ls))
    ensures var r := ApplyAll(Cleared(), LabelsOrders(t, ls));
      r.cells == ShownCells(t, ls) && r.inputRow == 0 && r.inputCol == 0
    decreases |ls|
  {
    LabelsNoFill(t, ls);
    if ls != [] {
      var init, l := ls[..|ls| - 1], ls[|ls| - 1];
      assert l == ls[|ls| - 1];
      LabelsPaint(t, init);
      LabelPaints(t, ApplyAll(Cleared(), LabelsOrders(t, init)), l);
      ApplyAllAppend(Cleared(), LabelsOrders(t, init), LabelOrders(t, l));
    }
  }

  lemma LabelsThenCursor(t: Table, ls: seq<Label>, row: int, col: int)
    requires Placeable(ls) && 0 <= row < ROWS && 0 <= col < 64
    ensures var os := LabelsOrders(t, ls) + [SetAddress(row, col), InsertCursor];
      NoFill(os) && ApplyAll(Cleared(), os) == Screen(ShownCells(t, ls), row, col, row, col)
  {
    LabelsPaint(t, ls);
    var r := ApplyAll(Cleared(), LabelsOrders(t, ls));
    var tail := [SetAddress(row, col), InsertCursor];
    ApplyAllAppend(Cleared(), LabelsOrders(t, ls), tail);
    assert tail[1..] == [InsertCursor] && [InsertCursor][1..] == [];
    var moved := Apply(r, tail[0]);
    assert ApplyAll(r, tail) == ApplyAll(moved, [InsertCursor]) == Apply(moved, InsertCursor);
  }

  /** Any labels on the screen, printed and parsed onto a cleared screen, show as intended. */
  lemma RecordPaints(t: Table, ls: seq<Label>, row: byte, col: byte)
    requires Placeable(ls) && row < ROWS
    ensures Fits(t, PrintRecord(t, ls, row, col))
    ensures Processed(t, PrintRecord(t, ls, row, col), Cleared()) ==
      Screen(ShownCells(t, ls), row, col % 64, row, col % 64)
  {
    RecordTokens(t, ls, row, col);
    LabelsThenCursor(t, ls, row, col % 64);
  }
}
