/** Emulator and terminal joined by the wire: printer, framer, parser and screen together. */
module Terminal {
  import opened Bytes
  import opened Ebcdic
  import opened Screen5250
  import opened Parser5250
  import opened Emulator
  import opened Display
  import opened Keyboard

  type GoodScreen = s: Screen | s.Valid() witness Cleared()

  /** What the terminal presents. A record with a fill below the screen hangs the parser. */
  datatype Picture = Shows(screen: GoodScreen) | Hangs

  function Handler(t: Table): (Picture, bytes) -> Picture
  {
    (p: Picture, frame: bytes) =>
      if p.Shows? && Fits(t, frame) then Shows(Processed(t, frame, p.screen)) else Hangs
  }

  /** Everything the emulator sends when it displays the given forms. */
  function Sent(t: Table, forms: seq<Form>): seq<bytes>
  {
    if forms == [] then [] else Sent(t, forms[..|forms| - 1]) + Records(t, forms[|forms| - 1])
  }

  /** The forms of the states the dialogue goes through. */
  function Forms(k: Captions, states: seq<Console>): (forms: seq<Form>)
    ensures |forms| == |states|
  {
    seq(|states|, i requires 0 <= i < |states| => FormOf(k, states[i]))
  }

  lemma {:induction false} SentNonEmpty(t: Table, forms: seq<Form>)
    ensures forall i :: 0 <= i < |Sent(t, forms)| ==> Sent(t, forms)[i] != []
    decreases |forms|
  {
    if forms != [] {
      SentNonEmpty(t, forms[..|forms| - 1]);
    }
  }

  lemma ClearPaints(t: Table, s: GoodScreen)
    ensures Handler(t)(Shows(s), [CLEAR_UNIT]) == Shows(Cleared())
  {
    assert RecordOrders(t, [CLEAR_UNIT]) == [];
    assert Fits(t, [CLEAR_UNIT]) && Processed(t, [CLEAR_UNIT], s) == Cleared();
  }

  lemma RecordsPaint(t: Table, f: Form, s: GoodScreen)
    ensures Fold(Handler(t), Shows(s), Records(t, f)) == Shows(Intended(t, f))
  {
    ClearPaints(t, s);
    if f.Closed? {
      FoldOne(Handler(t), Shows(s), [CLEAR_UNIT]);
    } else {
      FoldTwo(Handler(t), Shows(s), [CLEAR_UNIT], PrintRecord(t, f.labels, f.row, f.col));
      RecordPaints(t, f.labels, f.row, f.col);
    }
  }

  lemma {:induction false} SentPaints(t: Table, forms: seq<Form>, s: GoodScreen)
    requires forms != []
    ensures Fold(Handler(t), Shows(s), Sent(t, forms)) == Shows(Intended(t, forms[|forms| - 1]))
    decreases |forms|
  {
    var init, f := forms[..|forms| - 1], forms[|forms| - 1];
    FoldAppend(Handler(t), Shows(s), Sent(t, init), Records(t, f));
    if init == [] {
      assert Sent(t, init) == [];
      RecordsPaint(t, f, s);
    } else {
      SentPaints(t, init, s);
      RecordsPaint(t, f, Intended(t, init[|init| - 1]));
    }
  }

  lemma {:induction false} HungStaysHung(t: Table, frames: seq<bytes>)
    ensures Fold(Handler(t), Hangs, frames) == Hangs
    decreases |frames|
  {
    if frames != [] {
      HungStaysHung(t, frames[1..]);
    }
  }

  lemma {:induction false} SentAppend(t: Table, xs: seq<Form>, ys: seq<Form>)
    ensures Sent(t, xs + ys) == Sent(t, xs) + Sent(t, ys)
    decreases |ys|
  {
    if ys == [] {
      assert xs + ys == xs;
    } else {
      var init, f := ys[..|ys| - 1], ys[|ys| - 1];
      assert (xs + ys)[..|xs + ys| - 1] == xs + init;
      SentAppend(t, xs, init);
    }
  }

  lemma SentOne(t: Table, f: Form)
    ensures Sent(t, [f]) == Records(t, f)
  {
    assert [f][..0] == [];
  }

  /** The frame that a receiver in state `f` makes of the bytes that came before the displays:
      in the middle of an escape it swallows the delimiter and takes the clear record with it. */
  function Stale(f: Vslip.Framer): bytes
  {
    if f.escaping then f.buf + [CLEAR_UNIT] else f.buf
  }

  lemma StaleThen(t: Table, stale: bytes, rest: seq<bytes>, s: GoodScreen)
    ensures Fold(Handler(t), Shows(s), [stale] + rest) ==
      if Fits(t, stale) then Fold(Handler(t), Shows(Processed(t, stale, s)), rest) else Hangs
  {
    assert ([stale] + rest)[1..] == rest;
    HungStaysHung(t, rest);
  }

  /** A receiver at rest or in the middle of a frame. */
  lemma PaintsBehindFrame(t: Table, forms: seq<Form>, f: Vslip.Framer, s: GoodScreen)
    requires !f.escaping && forms != []
    ensures Sent(t, forms) != []
    ensures Fold(Handler(t), Shows(s), Vslip.Received(f, Sent(t, forms))) ==
      if Fits(t, Stale(f)) then Shows(Intended(t, forms[|forms| - 1])) else Hangs
  {
    var sent := Sent(t, forms);
    SentNonEmpty(t, forms);
    Vslip.NonEmptyAppend([f.buf], sent);
    Vslip.NonEmptyOne(f.buf);
    Vslip.NonEmptyId(sent);
    if f.buf == [] {
      assert [] + sent == sent;
      SentPaints(t, forms, s);
    } else {
      StaleThen(t, f.buf, sent, s);
      if Fits(t, f.buf) {
        SentPaints(t, forms, Processed(t, f.buf, s));
      }
    }
  }

  /** The display record that follows a swallowed clear record shows something. */
  lemma FirstWithoutClear(t: Table, form: Form, s: GoodScreen)
    ensures Fold(Handler(t), Shows(s), Records(t, form)[1..]).Shows?
  {
    if form.Open? {
      RecordPaints(t, form.labels, form.row, form.col);
      FoldOne(Handler(t), Shows(s), PrintRecord(t, form.labels, form.row, form.col));
    }
  }

  /** A receiver in the middle of an escape. */
  lemma PaintsBehindEscape(t: Table, forms: seq<Form>, f: Vslip.Framer, s: GoodScreen)
    requires f.escaping && |forms| >= 2
    ensures Sent(t, forms) != []
    ensures Fold(Handler(t), Shows(s), Vslip.Received(f, Sent(t, forms))) ==
      if Fits(t, Stale(f)) then Shows(Intended(t, forms[|forms| - 1])) else Hangs
  {
    var sent, first, later := Sent(t, forms), Records(t, forms[0]), Sent(t, forms[1..]);
    assert sent == first + later by {
      SentOne(t, forms[0]);
      SentAppend(t, [forms[0]], forms[1..]);
      assert [forms[0]] + forms[1..] == forms;
    }
    var rest := first[1..] + later;
    assert sent[1..] == rest && sent[0] == [CLEAR_UNIT];
    assert Vslip.Received(f, sent) == [Stale(f)] + rest by {
      SentNonEmpty(t, forms);
      assert forall i :: 0 <= i < |rest| ==> rest[i] == sent[i + 1];
      Vslip.NonEmptyId([Stale(f)] + rest);
    }
    StaleThen(t, Stale(f), rest, s);
    if Fits(t, Stale(f)) {
      var shown := Shows(Processed(t, Stale(f), s));
      FoldAppend(Handler(t), shown, first[1..], later);
      FirstWithoutClear(t, forms[0], shown.screen);
      SentPaints(t, forms[1..], Fold(Handler(t), shown, first[1..]).screen);
    }
  }

  /** Whatever the terminal's framer held when the first display came: unless these bytes make
      a record that hangs the parser, the last display is shown and the framer is at rest. Only
      if the framer was in the middle of an escape does this take a second display. */
  lemma FormsArrive(t: Table, forms: seq<Form>, f: Vslip.Framer, chunks: seq<bytes>, s: GoodScreen)
    requires forms != [] && (f.escaping ==> |forms| >= 2) && f.out == []
    requires Flatten(chunks) == Vslip.EncodeAll(Sent(t, forms))
    ensures Vslip.ReadEach(Handler(t), f, Shows(s), chunks) ==
      (Vslip.FRESH, if Fits(t, Stale(f)) then Shows(Intended(t, forms[|forms| - 1])) else Hangs)
  {
    Vslip.ChunkingIrrelevant(Handler(t), f, Shows(s), chunks);
    if f.escaping {
      PaintsBehindEscape(t, forms, f, s);
    } else {
      PaintsBehindFrame(t, forms, f, s);
    }
    Vslip.AllDecode(f, Sent(t, forms));
    assert [] + Vslip.Received(f, Sent(t, forms)) == Vslip.Received(f, Sent(t, forms));
  }

  /** End to end: whatever states the dialogue went through, however the encoded displays were
      cut into reads and whatever the terminal showed before, it ends up showing exactly the
      screen the last state asks for, with its framer at rest. */
  lemma EndToEnd(t: Table, k: Captions, states: seq<Console>, chunks: seq<bytes>, s: GoodScreen)
    requires states != []
    requires Flatten(chunks) == Vslip.EncodeAll(Sent(t, Forms(k, states)))
    ensures Vslip.ReadEach(Handler(t), Vslip.FRESH, Shows(s), chunks) ==
      (Vslip.FRESH, Shows(Intended(t, FormOf(k, states[|states| - 1]))))
  {
    assert Fits(t, []);
    FormsArrive(t, Forms(k, states), Vslip.FRESH, chunks, s);
  }

  /** A closed session leaves the terminal blank. */
  lemma ClosedIsBlank(t: Table, k: Captions, states: seq<Console>, chunks: seq<bytes>, s: GoodScreen, p: int)
    requires states != [] && states[|states| - 1].closed && 0 <= p < CELLS
    requires Flatten(chunks) == Vslip.EncodeAll(Sent(t, Forms(k, states)))
    ensures var shown := Vslip.ReadEach(Handler(t), Vslip.FRESH, Shows(s), chunks).1;
      shown.Shows? && shown.screen.cells[p] == Cell(' ', 0x20) && shown.screen.row == 0 == shown.screen.col
  {
    EndToEnd(t, k, states, chunks, s);
  }

  /** The terminal's input cursor stands where the dialogue wants it exactly as long as the
      column fits the six bits of the address; from the eighth character on it does not. */
  lemma InputCursorIff(t: Table, k: Captions, states: seq<Console>, chunks: seq<bytes>, s: GoodScreen)
    requires states != [] && !states[|states| - 1].closed
    requires Flatten(chunks) == Vslip.EncodeAll(Sent(t, Forms(k, states)))
    ensures var c := states[|states| - 1];
      var shown := Vslip.ReadEach(Handler(t), Vslip.FRESH, Shows(s), chunks).1;
      && shown.Shows? && shown.screen.inputRow == InputRow(c)
      && (shown.screen.inputCol == 56 + c.cursor <==> c.cursor <= 7)
  {
    FormsCursor(t, Forms(k, states), chunks, s);
    SixBits(states[|states| - 1].cursor);
  }

  lemma FormsCursor(t: Table, forms: seq<Form>, chunks: seq<bytes>, s: GoodScreen)
    requires forms != [] && forms[|forms| - 1].Open?
    requires Flatten(chunks) == Vslip.EncodeAll(Sent(t, forms))
    ensures var f := forms[|forms| - 1];
      var shown := Vslip.ReadEach(Handler(t), Vslip.FRESH, Shows(s), chunks).1;
      shown.Shows? && shown.screen.inputRow == f.row && shown.screen.inputCol == f.col % 64
  {
    assert Fits(t, []);
    FormsArrive(t, forms, Vslip.FRESH, chunks, s);
  }

  lemma SixBits(n: nat)
    ensures (56 + n) % 256 % 64 == 56 + n <==> n <= 7
  {
  }

  /** Any eight characters typed into the user field, in any reads: the terminal puts the input
      cursor at the start of the row. */
  lemma CursorMisplaced(t: Table, k: Captions, user: string, inputs: seq<bytes>, chunks: seq<bytes>, s: GoodScreen)
    requires Typeable(t, user) && |user| == 8 && Flatten(inputs) == Vslip.Encode(EncodeText(t, user))
    requires Flatten(chunks) ==
      Vslip.EncodeAll(Sent(t, Forms(k, [After(t, Vslip.FRESH, INITIAL, inputs).1])))
    ensures var shown := Vslip.ReadEach(Handler(t), Vslip.FRESH, Shows(s), chunks).1;
      shown.Shows? && shown.screen.inputRow == 7 && shown.screen.inputCol == 0
  {
    TypesUser(t, user, inputs);
    var c := After(t, Vslip.FRESH, INITIAL, inputs).1;
    FormAtEight(k, c);
    FormsCursor(t, Forms(k, [c]), chunks, s);
  }

  lemma FormAtEight(k: Captions, c: Console)
    requires !c.closed && c.panel.SignOn? && c.field.User? && c.cursor == 8
    ensures Forms(k, [c])[0] == FormOf(k, c) && FormOf(k, c).Open?
    ensures FormOf(k, c).row == 7 && FormOf(k, c).col == 64
  {
  }

  // ---- Nothing on the screen is overwritten ----

  /** A text that fits on the ring: each character has a cell of its own. */
  lemma {:induction false} LandingAt(text: string, start: int, q: int)
    requires 0 <= start && start + |text| <= CELLS && 0 <= q < CELLS
    ensures Landing(text, start, q) == if start <= q < start + |text| then [text[q - start]] else []
    decreases |text|
  {
    if text != [] {
      LandingAt(text[..|text| - 1], start, q);
    }
  }

  /** Each label fits into its row and keeps clear of the later labels. */
  ghost predicate Disjoint(ls: seq<Label>)
  {
    && (forall i :: 0 <= i < |ls| ==> ls[i].row < ROWS && ls[i].col + |ls[i].text| <= COLS)
    && (forall i, j :: 0 <= i < j < |ls| && ls[i].row == ls[j].row ==> ls[i].col + |ls[i].text| <= ls[j].col)
  }

  lemma {:induction false} ShownOf(t: Table, ls: seq<Label>, i: nat, k: nat)
    requires Disjoint(ls) && i < |ls| && k < |ls[i].text|
    ensures Shown(t, ls, ls[i].row * COLS + ls[i].col + k) == Displayed(t, ls[i].text[k])
    decreases |ls|
  {
    var init, l := ls[..|ls| - 1], ls[|ls| - 1];
    var q := ls[i].row * COLS + ls[i].col + k;
    LandingAt(l.text, l.row * COLS + l.col, q);
    if i < |init| {
      RowsApart(ls[i], l, k);
      assert init[i] == ls[i];
      ShownOf(t, init, i, k);
    }
  }

  lemma RowsApart(a: Label, b: Label, k: nat)
    requires a.row < ROWS && b.row < ROWS && k < |a.text|
    requires a.col + |a.text| <= COLS && b.col + |b.text| <= COLS
    requires a.row == b.row ==> a.col + |a.text| <= b.col
    ensures var start := b.row * COLS + b.col;
      !(start <= a.row * COLS + a.col + k < start + |b.text|)
  {
    if a.row < b.row {
      assert a.row * COLS + COLS <= b.row * COLS;
    } else if b.row < a.row {
      assert b.row * COLS + COLS <= a.row * COLS;
    }
  }

  lemma LabelsDisjoint(k: Captions, c: Console)
    requires k.Fit() && c.Safe()
    ensures Disjoint(Labels(k, c))
  {
    if c.panel.SignOn? {
      SignOnDisjoint(k, c);
    } else {
      MenuDisjoint(k, c);
    }
  }

  lemma SignOnDisjoint(k: Captions, c: Console)
    requires k.Fit() && c.Safe()
    ensures Disjoint(SignOnLabels(k, c))
  {
  }

  lemma MenuDisjoint(k: Captions, c: Console)
    requires k.Fit() && c.Safe()
    ensures Disjoint(MenuLabels(k, c))
  {
  }

  lemma LabelVisible(t: Table, f: Form, i: nat, n: nat)
    requires f.Open? && Disjoint(f.labels) && i < |f.labels| && n < |f.labels[i].text|
    ensures var l := f.labels[i];
      l.row < ROWS && l.col + n < COLS &&
      Intended(t, f).cells[l.row * COLS + l.col + n] == Cell(Displayed(t, l.text[n]), PLAIN)
  {
    ShownOf(t, f.labels, i, n);
  }

  /** Whatever was typed: once the terminal has received the displays up to that of the state
      reached, each character of each text stands in its own cell of the terminal's screen. */
  lemma EveryLabelVisible(t: Table, k: Captions, inputs: seq<bytes>, states: seq<Console>, chunks: seq<bytes>,
                          s: GoodScreen, i: nat, n: nat)
    requires k.Fit()
    requires states != [] && states[|states| - 1] == After(t, Vslip.FRESH, INITIAL, inputs).1
    requires Flatten(chunks) == Vslip.EncodeAll(Sent(t, Forms(k, states)))
    requires var f := FormOf(k, states[|states| - 1]);
      f.Open? && i < |f.labels| && n < |f.labels[i].text|
    ensures var shown := Vslip.ReadEach(Handler(t), Vslip.FRESH, Shows(s), chunks).1;
      var l := FormOf(k, states[|states| - 1]).labels[i];
      && shown.Shows? && l.row < ROWS && l.col + n < COLS
      && shown.screen.cells[l.row * COLS + l.col + n] == Cell(Displayed(t, l.text[n]), PLAIN)
  {
    var c := states[|states| - 1];
    SafeForAllInput(t, inputs, []);
    LabelsDisjoint(k, c);
    LabelVisible(t, FormOf(k, c), i, n);
    EndToEnd(t, k, states, chunks, s);
  }
}
