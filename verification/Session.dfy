/** A whole session: the emulator serves a client until it is closed or the client is gone. */
module Session {
  import opened Bytes
  import opened Ebcdic
  import opened Emulator
  import opened Display
  import opened EmulatorDevice
  import Terminal
  import opened Panels

  /** The states whose displays a session sends: the initial one and one per read. */
  function Progress(t: Table, inputs: seq<bytes>): seq<Console>
  {
    [INITIAL] + States(t, Vslip.FRESH, INITIAL, inputs)
  }

  lemma ProgressSnoc(t: Table, inputs: seq<bytes>, input: bytes)
    ensures Progress(t, inputs + [input]) ==
      Progress(t, inputs) + [After(t, Vslip.FRESH, INITIAL, inputs + [input]).1]
  {
    assert (inputs + [input])[..|inputs|] == inputs;
  }

  lemma LastProgress(t: Table, inputs: seq<bytes>)
    ensures Progress(t, inputs)[|Progress(t, inputs)| - 1] == After(t, Vslip.FRESH, INITIAL, inputs).1
  {
  }

  /** Everything a session sends. */
  function Output(t: Table, k: Captions, inputs: seq<bytes>): bytes
  {
    Vslip.EncodeAll(Terminal.Sent(t, Terminal.Forms(k, Progress(t, inputs))))
  }

  /** One more read adds the display of the state it leads to. */
  lemma OutputGrows(t: Table, k: Captions, inputs: seq<bytes>, input: bytes)
    ensures Output(t, k, inputs + [input]) ==
      Output(t, k, inputs) + Vslip.EncodeAll(Records(t, FormOf(k, After(t, Vslip.FRESH, INITIAL, inputs + [input]).1)))
  {
    var c := After(t, Vslip.FRESH, INITIAL, inputs + [input]).1;
    var before, form := Terminal.Forms(k, Progress(t, inputs)), FormOf(k, c);
    ProgressSnoc(t, inputs, input);
    assert Terminal.Forms(k, Progress(t, inputs + [input])) == before + [form];
    Terminal.SentAppend(t, before, [form]);
    Terminal.SentOne(t, form);
    Vslip.EncodeAllAppend(Terminal.Sent(t, before), Records(t, form));
  }

  lemma OutputStarts(t: Table, k: Captions)
    ensures Output(t, k, []) == Vslip.EncodeAll(Records(t, FormOf(k, INITIAL)))
  {
    assert Progress(t, []) == [INITIAL];
    assert Terminal.Forms(k, [INITIAL]) == [FormOf(k, INITIAL)];
    Terminal.SentOne(t, FormOf(k, INITIAL));
  }

  /** The state a session is in after its reads. */
  function StateAfter(t: Table, inputs: seq<bytes>): Console
  {
    After(t, Vslip.FRESH, INITIAL, inputs).1
  }

  /** None of the first `n` inputs found the session closed. */
  predicate OpenBefore(t: Table, inputs: seq<bytes>, n: nat)
    requires n <= |inputs|
  {
    forall i :: 0 <= i < n ==> !StateAfter(t, inputs[..i]).closed
  }

  lemma OpenExtends(t: Table, inputs: seq<bytes>, n: nat)
    requires n < |inputs| && OpenBefore(t, inputs, n) && !StateAfter(t, inputs[..n]).closed
    ensures OpenBefore(t, inputs, n + 1)
  {
  }

  /** Where a new emulator is after the first `taken` inputs, and what it has sent. */
  ghost predicate Served(emulator: IbmiEmulator, inputs: seq<bytes>, taken: nat, output: bytes)
    reads emulator, emulator.framer
    requires taken <= |inputs|
  {
    && emulator.Valid()
    && (emulator.framer.View([]), emulator.View()) == After(emulator.table, Vslip.FRESH, INITIAL, inputs[..taken])
    && output == Output(emulator.table, emulator.captions, inputs[..taken])
  }

  lemma ClosedOrNot(emulator: IbmiEmulator, inputs: seq<bytes>, taken: nat, output: bytes)
    requires taken <= |inputs| && Served(emulator, inputs, taken, output)
    ensures StateAfter(emulator.table, inputs[..taken]).closed == emulator.closed
    ensures output == Output(emulator.table, emulator.captions, inputs[..taken])
  {
    assert emulator.View().closed == emulator.closed;
  }

  /** The display sent before anything is read. */
  method ServeInitial(emulator: IbmiEmulator, ghost inputs: seq<bytes>) returns (output: bytes)
    requires emulator.Valid() && emulator.View() == INITIAL && emulator.framer.View([]) == Vslip.FRESH
    ensures Served(emulator, inputs, 0, output)
  {
    output := emulator.MakeDisplay();
    OutputStarts(emulator.table, emulator.captions);
    assert inputs[..0] == [];
  }

  /** One read and the display sent in answer to it. */
  method ServeRead(emulator: IbmiEmulator, inputs: seq<bytes>, taken: nat, output: bytes) returns (more: bytes)
    requires taken < |inputs| && Served(emulator, inputs, taken, output)
    modifies emulator, emulator.framer
    ensures Served(emulator, inputs, taken + 1, more)
  {
    assert inputs[..taken + 1] == inputs[..taken] + [inputs[taken]];
    AfterSnoc(emulator.table, Vslip.FRESH, INITIAL, inputs[..taken], inputs[taken]);
    OutputGrows(emulator.table, emulator.captions, inputs[..taken], inputs[taken]);
    var display := emulator.Process(inputs[taken]);
    more := output + display;
  }

  /** `serveClient`: `inputs` is what the client sends, and the end of it an error. The session
      takes inputs up to the first one that closes it. */
  method ServeClient(emulator: IbmiEmulator, inputs: seq<bytes>) returns (output: bytes, taken: nat)
    requires emulator.Valid() && emulator.View() == INITIAL && emulator.framer.View([]) == Vslip.FRESH
    modifies emulator, emulator.framer
    ensures taken <= |inputs| && output == Output(emulator.table, emulator.captions, inputs[..taken])
    ensures OpenBefore(emulator.table, inputs, taken)
    ensures taken == |inputs| || StateAfter(emulator.table, inputs[..taken]).closed
  {
    output := ServeInitial(emulator, inputs);
    taken := 0;
    while taken < |inputs| && !emulator.closed
      invariant taken <= |inputs| && Served(emulator, inputs, taken, output)
      invariant OpenBefore(emulator.table, inputs, taken)
      decreases |inputs| - taken
    {
      ClosedOrNot(emulator, inputs, taken, output);
      OpenExtends(emulator.table, inputs, taken);
      output := ServeRead(emulator, inputs, taken, output);
      taken := taken + 1;
    }
    ClosedOrNot(emulator, inputs, taken, output);
  }

  /** A whole session, end to end: whatever the client sends and however the session's output is
      cut into reads on its way back, the terminal shows the screen of the state reached. */
  lemma SessionShown(t: Table, k: Captions, inputs: seq<bytes>, chunks: seq<bytes>, s: Terminal.GoodScreen)
    requires Flatten(chunks) == Output(t, k, inputs)
    ensures Vslip.ReadEach(Terminal.Handler(t), Vslip.FRESH, Terminal.Shows(s), chunks) ==
      (Vslip.FRESH, Terminal.Shows(Intended(t, FormOf(k, StateAfter(t, inputs)))))
  {
    LastProgress(t, inputs);
    Terminal.EndToEnd(t, k, Progress(t, inputs), chunks, s);
  }

  /** ... and every character of its texts is visible there. */
  lemma SessionVisible(t: Table, k: Captions, inputs: seq<bytes>, chunks: seq<bytes>, s: Terminal.GoodScreen,
                       i: nat, n: nat)
    requires k.Fit() && Flatten(chunks) == Output(t, k, inputs)
    requires var f := FormOf(k, StateAfter(t, inputs)); f.Open? && i < |f.labels| && n < |f.labels[i].text|
    ensures var shown := Vslip.ReadEach(Terminal.Handler(t), Vslip.FRESH, Terminal.Shows(s), chunks).1;
      var l := FormOf(k, StateAfter(t, inputs)).labels[i];
      && shown.Shows? && l.row < Screen5250.ROWS && l.col + n < Screen5250.COLS
      && shown.screen.cells[l.row * Screen5250.COLS + l.col + n] ==
           Screen5250.Cell(Displayed(t, l.text[n]), Screen5250.PLAIN)
  {
    LastProgress(t, inputs);
    Terminal.EveryLabelVisible(t, k, inputs, Progress(t, inputs), chunks, s, i, n);
  }

  /** After every session the terminal can be read line by line. */
  lemma SessionReads(t: Table, k: Captions, inputs: seq<bytes>, chunks: seq<bytes>, s: Terminal.GoodScreen,
                     row: nat, col: nat)
    requires k.Fit() && Flatten(chunks) == Output(t, k, inputs) && !StateAfter(t, inputs).closed
    requires row < Screen5250.ROWS && col < Screen5250.COLS
    ensures var shown := Vslip.ReadEach(Terminal.Handler(t), Vslip.FRESH, Terminal.Shows(s), chunks).1;
      && shown.Shows?
      && shown.screen.cells[row * Screen5250.COLS + col] ==
           Screen5250.Cell(Displayed(t, CharAt(Line(k, StateAfter(t, inputs), row), col)), Screen5250.PLAIN)
  {
    LastProgress(t, inputs);
    SafeForAllInput(t, inputs, []);
    TerminalReads(t, k, Progress(t, inputs), chunks, s, row, col);
  }
}
