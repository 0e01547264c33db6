/** The panels as a person reads them, line by line, and what they keep to themselves. */
module Panels {
  import opened Bytes
  import opened Ebcdic
  import opened Screen5250
  import opened Emulator
  import opened Display
  import opened Keyboard
  import Terminal

  // ---- Lines of text ----

  function Blanks(n: nat): string
  {
    seq(n, _ => ' ')
  }

  function Indent(n: nat, s: string): string
  {
    Blanks(n) + s
  }

  function Pad(s: string, n: nat): string
  {
    if |s| >= n then s else s + Blanks(n - |s|)
  }

  /** A line goes on in blanks behind its text. */
  function CharAt(s: string, col: nat): char
  {
    if col < |s| then s[col] else ' '
  }

  /** A prompt and the input behind it. */
  function Prompt(caption: string, input: string): string
  {
    Pad(Indent(8, caption), 56) + input
  }

  /** The lines of the panel a console shows. */
  function Line(k: Captions, c: Dialogue, row: nat): string
  {
    match c.panel
    case SignOn =>
      if row == 1 then k.title
      else if row == 2 then k.subtitle
      else if row == 4 then k.signOn
      else if row == 7 then Prompt(k.user, c.user)
      else if row == 9 then Prompt(k.password, seq(|c.password|, _ => '*'))
      else if row == 13 then c.status
      else if row == 20 then k.signOnHelp
      else if row == 22 then k.signOnKeys
      else ""
    case Menu =>
      if row == 1 then k.title
      else if row == 4 then k.menu
      else if row == 7 then Indent(8, k.profiles)
      else if row == 9 then Indent(8, k.jobs)
      else if row == 11 then Indent(8, k.systemStatus)
      else if row == 14 then Prompt(k.selection, c.selection)
      else if row == 17 then c.status
      else if row == 20 then k.menuHelp
      else if row == 22 then k.menuKeys
      else ""
  }

  // ---- Labels and lines ----

  ghost predicate Covers(l: Label, row: nat, col: nat)
  {
    l.row == row && l.col <= col < l.col + |l.text|
  }

  lemma {:induction false} UncoveredIsBlank(t: Table, ls: seq<Label>, row: nat, col: nat)
    requires Terminal.Disjoint(ls) && row < ROWS && col < COLS
    requires forall i :: 0 <= i < |ls| ==> !Covers(ls[i], row, col)
    ensures Shown(t, ls, row * COLS + col) == ' '
    decreases |ls|
  {
    if ls != [] {
      var l := ls[|ls| - 1];
      Terminal.LandingAt(l.text, l.row * COLS + l.col, row * COLS + col);
      OtherCell(l, row, col);
      UncoveredIsBlank(t, ls[..|ls| - 1], row, col);
    }
  }

  lemma OtherCell(l: Label, row: nat, col: nat)
    requires l.row < ROWS && l.col + |l.text| <= COLS && row < ROWS && col < COLS && !Covers(l, row, col)
    ensures !(l.row * COLS + l.col <= row * COLS + col < l.row * COLS + l.col + |l.text|)
  {
    if l.row < row {
      assert l.row * COLS + COLS <= row * COLS;
    } else if row < l.row {
      assert row * COLS + COLS <= l.row * COLS;
    }
  }

  /** A label that has its row to itself. */
  lemma AloneInRow(t: Table, ls: seq<Label>, i: nat, col: nat)
    requires Terminal.Disjoint(ls) && i < |ls| && col < COLS
    requires forall j :: 0 <= j < |ls| && j != i ==> ls[j].row != ls[i].row
    ensures Shown(t, ls, ls[i].row * COLS + col) == Displayed(t, CharAt(Indent(ls[i].col, ls[i].text), col))
  {
    var l := ls[i];
    if l.col <= col < l.col + |l.text| {
      Terminal.ShownOf(t, ls, i, col - l.col);
    } else {
      UncoveredIsBlank(t, ls, l.row, col);
    }
  }

  /** Two labels that share a row. */
  lemma PairInRow(t: Table, ls: seq<Label>, i: nat, j: nat, col: nat)
    requires Terminal.Disjoint(ls) && i < j < |ls| && col < COLS && ls[i].row == ls[j].row
    requires forall n :: 0 <= n < |ls| && n != i && n != j ==> ls[n].row != ls[i].row
    ensures Shown(t, ls, ls[i].row * COLS + col) ==
      Displayed(t, CharAt(Pad(Indent(ls[i].col, ls[i].text), ls[j].col) + ls[j].text, col))
  {
    var l, m := ls[i], ls[j];
    if l.col <= col < l.col + |l.text| {
      Terminal.ShownOf(t, ls, i, col - l.col);
    } else if m.col <= col < m.col + |m.text| {
      Terminal.ShownOf(t, ls, j, col - m.col);
    } else {
      UncoveredIsBlank(t, ls, l.row, col);
    }
  }

  lemma NoIndent(s: string)
    ensures Indent(0, s) == s
  {
  }

  lemma SignOnRows(k: Captions, c: Console)
    ensures var ls := SignOnLabels(k, c);
      |ls| == 10 && forall i :: 0 <= i < 10 ==> ls[i].row == [1, 2, 4, 7, 7, 9, 9, 13, 20, 22][i]
  {
  }

  lemma SignOnPrompts(t: Table, k: Captions, c: Console, row: nat, col: nat)
    requires k.Fit() && c.Safe() && c.panel.SignOn? && col < COLS && row in {7, 9}
    ensures Shown(t, SignOnLabels(k, c), row * COLS + col) == Displayed(t, CharAt(Line(k, c, row), col))
  {
    Terminal.SignOnDisjoint(k, c);
    SignOnRows(k, c);
    if row == 7 {
      PairInRow(t, SignOnLabels(k, c), 3, 4, col);
    } else {
      PairInRow(t, SignOnLabels(k, c), 5, 6, col);
      assert Stars(|c.password|) == seq(|c.password|, _ => '*');
    }
  }

  lemma SignOnTexts(t: Table, k: Captions, c: Console, i: nat, col: nat)
    requires k.Fit() && c.Safe() && c.panel.SignOn? && col < COLS && i in {0, 1, 2, 7, 8, 9}
    ensures var l := SignOnLabels(k, c)[i];
      Shown(t, SignOnLabels(k, c), l.row * COLS + col) == Displayed(t, CharAt(Line(k, c, l.row), col))
  {
    Terminal.SignOnDisjoint(k, c);
    SignOnRows(k, c);
    AloneInRow(t, SignOnLabels(k, c), i, col);
    NoIndent(SignOnLabels(k, c)[i].text);
  }

  lemma SignOnLine(t: Table, k: Captions, c: Console, row: nat, col: nat)
    requires k.Fit() && c.Safe() && c.panel.SignOn? && row < ROWS && col < COLS
    ensures Shown(t, SignOnLabels(k, c), row * COLS + col) == Displayed(t, CharAt(Line(k, c, row), col))
  {
    SignOnRows(k, c);
    if row in {7, 9} {
      SignOnPrompts(t, k, c, row, col);
    } else if i :| i in {0, 1, 2, 7, 8, 9} && [1, 2, 4, 7, 7, 9, 9, 13, 20, 22][i] == row {
      SignOnTexts(t, k, c, i, col);
    } else {
      Terminal.SignOnDisjoint(k, c);
      SignOnElsewhere(k, c, row);
      UncoveredIsBlank(t, SignOnLabels(k, c), row, col);
    }
  }

  lemma SignOnElsewhere(k: Captions, c: Console, row: nat)
    requires c.panel.SignOn? && row !in [1, 2, 4, 7, 7, 9, 9, 13, 20, 22]
    ensures Line(k, c, row) == "" && forall i :: 0 <= i < 10 ==> SignOnLabels(k, c)[i].row != row
  {
    SignOnRows(k, c);
  }

  lemma MenuRows(k: Captions, c: Console)
    ensures var ls := MenuLabels(k, c);
      |ls| == 10 && forall i :: 0 <= i < 10 ==> ls[i].row == [1, 4, 7, 9, 11, 14, 14, 17, 20, 22][i]
  {
  }

  lemma MenuPrompts(t: Table, k: Captions, c: Console, row: nat, col: nat)
    requires k.Fit() && c.Safe() && c.panel.Menu? && col < COLS && row in {14}
    ensures Shown(t, MenuLabels(k, c), row * COLS + col) == Displayed(t, CharAt(Line(k, c, row), col))
  {
    Terminal.MenuDisjoint(k, c);
    MenuRows(k, c);
    PairInRow(t, MenuLabels(k, c), 5, 6, col);
  }

  lemma MenuTexts(t: Table, k: Captions, c: Console, i: nat, col: nat)
    requires k.Fit() && c.Safe() && c.panel.Menu? && col < COLS && i in {0, 1, 2, 3, 4, 7, 8, 9}
    ensures var l := MenuLabels(k, c)[i];
      Shown(t, MenuLabels(k, c), l.row * COLS + col) == Displayed(t, CharAt(Line(k, c, l.row), col))
  {
    Terminal.MenuDisjoint(k, c);
    MenuRows(k, c);
    AloneInRow(t, MenuLabels(k, c), i, col);
    NoIndent(MenuLabels(k, c)[i].text);
  }

  lemma MenuLine(t: Table, k: Captions, c: Console, row: nat, col: nat)
    requires k.Fit() && c.Safe() && c.panel.Menu? && row < ROWS && col < COLS
    ensures Shown(t, MenuLabels(k, c), row * COLS + col) == Displayed(t, CharAt(Line(k, c, row), col))
  {
    MenuRows(k, c);
    if row in {14} {
      MenuPrompts(t, k, c, row, col);
    } else if i :| i in {0, 1, 2, 3, 4, 7, 8, 9} && [1, 4, 7, 9, 11, 14, 14, 17, 20, 22][i] == row {
      MenuTexts(t, k, c, i, col);
    } else {
      Terminal.MenuDisjoint(k, c);
      MenuElsewhere(k, c, row);
      UncoveredIsBlank(t, MenuLabels(k, c), row, col);
    }
  }

  lemma MenuElsewhere(k: Captions, c: Console, row: nat)
    requires c.panel.Menu? && row !in [1, 4, 7, 9, 11, 14, 14, 17, 20, 22]
    ensures Line(k, c, row) == "" && forall i :: 0 <= i < 10 ==> MenuLabels(k, c)[i].row != row
  {
    MenuRows(k, c);
  }

  // ---- On the terminal ----

  /** Whatever displays went before, and however they were cut into reads: every cell of the
      terminal shows what the line of its row has in its column, as the code page allows. */
  lemma TerminalReads(t: Table, k: Captions, states: seq<Console>, chunks: seq<bytes>, s: Terminal.GoodScreen,
                      row: nat, col: nat)
    requires k.Fit() && states != [] && row < ROWS && col < COLS
    requires var c := states[|states| - 1]; c.Safe() && !c.closed
    requires Flatten(chunks) == Vslip.EncodeAll(Terminal.Sent(t, Terminal.Forms(k, states)))
    ensures var shown := Vslip.ReadEach(Terminal.Handler(t), Vslip.FRESH, Terminal.Shows(s), chunks).1;
      && shown.Shows?
      && shown.screen.cells[row * COLS + col] ==
           Cell(Displayed(t, CharAt(Line(k, states[|states| - 1], row), col)), PLAIN)
  {
    var c := states[|states| - 1];
    Terminal.EndToEnd(t, k, states, chunks, s);
    if c.panel.SignOn? {
      SignOnLine(t, k, c, row, col);
    } else {
      MenuLine(t, k, c, row, col);
    }
  }

  lemma PromptShows(caption: string, input: string, n: nat)
    requires |caption| <= 48
    ensures CharAt(Prompt(caption, input), 56 + n) == CharAt(input, n)
  {
  }

  /** Behind the prompts stand the user, one asterisk per character of the password, and the
      selection; the message has a row of its own. The row of the input cursor is the one whose
      prompt shows the text being edited. */
  lemma FieldsShown(k: Captions, c: Console, n: nat)
    requires k.Fit() && c.Safe()
    ensures c.panel.SignOn? ==>
      && CharAt(Line(k, c, 7), 56 + n) == CharAt(c.user, n)
      && CharAt(Line(k, c, 9), 56 + n) == (if n < |c.password| then '*' else ' ')
      && CharAt(Line(k, c, 13), n) == CharAt(c.status, n)
    ensures c.panel.Menu? ==>
      && CharAt(Line(k, c, 14), 56 + n) == CharAt(c.selection, n)
      && CharAt(Line(k, c, 17), n) == CharAt(c.status, n)
    ensures CharAt(Line(k, c, InputRow(c)), 56 + n) ==
      if c.field.Password? then (if n < |c.Input()| then '*' else ' ') else CharAt(c.Input(), n)
  {
    if c.panel.SignOn? {
      PromptShows(k.user, c.user, n);
      PromptShows(k.password, seq(|c.password|, _ => '*'), n);
    } else {
      PromptShows(k.selection, c.selection, n);
    }
  }

  // ---- What the terminal does not learn ----

  /** The same dialogue with passwords of the same length. */
  ghost predicate Alike(c: Dialogue, d: Dialogue)
  {
    d == c.(password := d.password) && |c.password| == |d.password|
  }

  /** Displays of such dialogues are the same bytes. */
  lemma PasswordNotSent(t: Table, k: Captions, c: Console, d: Console)
    requires Alike(c, d)
    ensures FormOf(k, c) == FormOf(k, d)
    ensures Records(t, FormOf(k, c)) == Records(t, FormOf(k, d))
  {
    assert Stars(|c.password|) == Stars(|d.password|);
  }

  /** Enter would accept the password. */
  predicate Accepts(c: Dialogue)
  {
    c.panel.SignOn? && c.field.Password? && c.user == VALID_USER && c.password == VALID_PASSWORD
  }

  lemma AlikeInserted(c: Console, d: Console, s: string)
    requires Alike(c, d)
    ensures Alike(Inserted(c, s), Inserted(d, s)) && |c.Input()| == |d.Input()|
  {
  }

  lemma AlikeErased(c: Console, d: Console)
    requires Alike(c, d)
    ensures Alike(Erase(c), Erase(d))
  {
  }

  lemma AlikeEntered(c: Console, d: Console)
    requires Alike(c, d) && Accepts(c) == Accepts(d) && c.Safe()
    ensures Alike(Enter(c), Enter(d))
  {
  }

  /** Every frame keeps two such dialogues alike, unless it is an Enter on which the passwords
      get different verdicts. */
  lemma AlikeKept(t: Table, c: Console, d: Console, frame: bytes)
    requires Alike(c, d) && c.Safe() && frame != []
    requires frame[0] == ENTER ==> Accepts(c) == Accepts(d)
    ensures Alike(OnFrame(t, c, frame), OnFrame(t, d, frame))
  {
    var key := frame[0];
    if key == ENTER {
      AlikeEntered(c, d);
    } else if key == BACKSPACE {
      AlikeErased(c, d);
    } else if key in KEYS {
      AlikeMoved(t, c, d, frame);
    } else {
      AlikeTyped(t, c, d, frame);
    }
  }

  lemma AlikeMoved(t: Table, c: Console, d: Console, frame: bytes)
    requires Alike(c, d) && frame != [] && frame[0] in {F3, F12, RIGHT, LEFT, UP, DOWN}
    ensures Alike(OnFrame(t, c, frame), OnFrame(t, d, frame))
  {
    assert |c.Input()| == |d.Input()|;
  }

  lemma AlikeTyped(t: Table, c: Console, d: Console, frame: bytes)
    requires Alike(c, d)
    ensures Alike(TypeAll(t, c, frame), TypeAll(t, d, frame))
  {
    var s := Letters(t, frame);
    AlikeInserted(c, d, Fitting(c, s));
    assert Fitting(c, s) == Fitting(d, s);
    TypingInserts(t, c, frame);
    TypingInserts(t, d, frame);
  }

  lemma {:induction false} FramesAlike(t: Table, c: Console, d: Console, frames: seq<bytes>)
    requires Alike(c, d) && c.Safe()
    requires forall i :: 0 <= i < |frames| && frames[i] != [] ==> frames[i][0] != ENTER
    ensures Alike(Fold<Console, bytes>(Handler(t), c, frames), Fold<Console, bytes>(Handler(t), d, frames))
    decreases |frames|
  {
    if frames != [] {
      if frames[0] != [] {
        AlikeKept(t, c, d, frames[0]);
        FrameSafe(t, c, frames[0]);
      }
      FramesAlike(t, Handler(t)(c, frames[0]), Handler(t)(d, frames[0]), frames[1..]);
    }
  }

  /** Two passwords of the same length, typed at the same place: whatever follows, as long as it
      is not Enter, the displays stay the same. So the only thing a display can give away is the
      verdict. */
  lemma OnlyTheVerdictShows(t: Table, k: Captions, c: Console, f: bytes, g: bytes, frames: seq<bytes>)
    requires c.Safe() && c.panel.SignOn? && c.field.Password?
    requires |Letters(t, f)| == |Letters(t, g)|
    requires forall i :: 0 <= i < |frames| && frames[i] != [] ==> frames[i][0] != ENTER
    ensures FormOf(k, Fold<Console, bytes>(Handler(t), TypeAll(t, c, f), frames)) ==
      FormOf(k, Fold<Console, bytes>(Handler(t), TypeAll(t, c, g), frames))
  {
    TypingInserts(t, c, f);
    TypingInserts(t, c, g);
    TypeAllSafe(t, c, f);
    var x, y := TypeAll(t, c, f), TypeAll(t, c, g);
    assert Alike(x, y);
    FramesAlike(t, x, y, frames);
    PasswordNotSent(t, k, Fold<Console, bytes>(Handler(t), x, frames), Fold<Console, bytes>(Handler(t), y, frames));
  }
}
