/** The emulator as an object updated in place, and the terminal's receive step. */
module EmulatorDevice {
  import opened Bytes
  import opened Ebcdic
  import opened Emulator
  import opened Display
  import opened Screen5250
  import opened Parser5250
  import Terminal

  /** `writeText`: the display vector comes back extended. */
  method WriteText(t: Table, display: bytes, row: byte, col: byte, text: string) returns (r: bytes)
    ensures r == display + PrintLabel(t, Label(row, col, text))
  {
    r := display + [SBA, row, col];
    for i := 0 to |text|
      invariant r == display + [SBA, row, col] + EncodeText(t, text[..i])
    {
      var b := AsciiToEbcdic(t, text[i]);
      assert text[..i + 1][..i] == text[..i];
      r := r + [b];
    }
    assert text[..|text|] == text;
  }

  method WriteLabels(t: Table, labels: seq<Label>) returns (display: bytes)
    ensures display == [WRITE_TO_DISPLAY] + PrintLabels(t, labels)
  {
    display := [WRITE_TO_DISPLAY];
    for i := 0 to |labels|
      invariant display == [WRITE_TO_DISPLAY] + PrintLabels(t, labels[..i])
    {
      assert labels[..i + 1][..i] == labels[..i];
      display := WriteText(t, display, labels[i].row, labels[i].col, labels[i].text);
    }
    assert labels[..|labels|] == labels;
  }

  class IbmiEmulator {
    const table: Table
    const captions: Captions
    const framer: Vslip.VSlipFramer
    var panel: Panel
    var field: Field
    var user: string
    var password: string
    var selection: string
    var status: string
    var cursor: nat
    var closed: bool

    ghost function View(): Dialogue
      reads this
    {
      Dialogue(panel, field, user, password, selection, status, cursor, closed)
    }

    ghost predicate Valid()
      reads this
    {
      cursor <= |View().Input()|
    }

    constructor (t: Table)
      ensures Valid() && fresh(framer) && table == t && captions == ConsoleCaptions()
      ensures View() == INITIAL && framer.View([]) == Vslip.FRESH
    {
      table, captions := t, ConsoleCaptions();
      framer := new Vslip.VSlipFramer();
      panel, field := SignOn, User;
      user, password, selection := "", "", "";
      status := "Enter DEMO and PASSWORD to sign on.";
      cursor, closed := 0, false;
    }

    method SetInput(s: string)
      modifies this`user, this`password, this`selection
      ensures View() == old(View()).WithInput(s)
    {
      if panel.Menu? {
        selection := s;
      } else if field.User? {
        user := s;
      } else {
        password := s;
      }
    }

    method InputText() returns (s: string)
      ensures s == View().Input()
    {
      s := if panel.Menu? then selection else if field.User? then user else password;
    }

    method PressEnter()
      requires Valid()
      modifies this
      ensures Valid() && View() == Enter(old(View()))
    {
      if panel.SignOn? && field.User? {
        field := Password;
        cursor := |password|;
        status := "Enter password, then press Enter.";
      } else if panel.SignOn? {
        if user == VALID_USER && password == VALID_PASSWORD {
          panel, field := Menu, Selection;
          cursor := 0;
          status := "Sign on successful. Select an option.";
        } else {
          password := "";
          cursor := 0;
          status := "Sign on failed. Use DEMO / PASSWORD.";
        }
      } else if selection == "1" || selection == "2" || selection == "3" {
        status := "Option " + selection + " selected.";
        selection := "";
        cursor := 0;
      } else {
        status := "Enter 1, 2, or 3.";
      }
    }

    method PressCancel()
      requires Valid()
      modifies this
      ensures Valid() && View() == Cancel(old(View()))
    {
      if panel.Menu? {
        panel, field := SignOn, User;
        user, password, selection := "", "", "";
        status := "Signed off. Enter DEMO and PASSWORD.";
      } else {
        user, password := "", "";
        field := User;
        status := "Fields cleared.";
      }
      cursor := 0;
    }

    method TypeByte(b: byte)
      requires Valid()
      modifies this
      ensures Valid() && View() == Type(table, old(View()), b)
    {
      var ch := ToAscii(table, b);
      var text := InputText();
      if ch != ' ' && |text| < MAX_INPUT {
        SetInput(text[..cursor] + [ch] + text[cursor..]);
        cursor := cursor + 1;
      }
    }

    method TypeFrame(frame: bytes)
      requires Valid()
      modifies this
      ensures Valid() && View() == TypeAll(table, old(View()), frame)
    {
      for i := 0 to |frame|
        invariant Valid() && View() == TypeAll(table, old(View()), frame[..i])
      {
        assert frame[..i + 1][..i] == frame[..i];
        TypeByte(frame[i]);
      }
      assert frame[..|frame|] == frame;
    }

    method EraseLeft()
      requires Valid()
      modifies this
      ensures Valid() && View() == Erase(old(View()))
    {
      if cursor > 0 {
        cursor := cursor - 1;
        var text := InputText();
        SetInput(text[..cursor] + text[cursor + 1..]);
      }
    }

    method ProcessFrame(frame: bytes)
      requires Valid() && frame != []
      modifies this
      ensures Valid() && View() == OnFrame(table, old(View()), frame)
    {
      var key := frame[0];
      if key == ENTER {
        PressEnter();
      } else if key == F3 {
        closed := true;
      } else if key == F12 {
        PressCancel();
      } else if key == BACKSPACE {
        EraseLeft();
      } else if key == RIGHT {
        var text := InputText();
        if cursor < |text| {
          cursor := cursor + 1;
        }
      } else if key == LEFT {
        if cursor > 0 {
          cursor := cursor - 1;
        }
      } else if key == UP || key == DOWN {
        if panel.SignOn? {
          field := if field.User? then Password else User;
          cursor := if field.User? then |user| else |password|;
        }
      } else {
        TypeFrame(frame);
      }
    }

    method MakeDisplay() returns (output: bytes)
      requires Valid()
      ensures output == Vslip.EncodeAll(Records(table, FormOf(captions, View())))
    {
      output := Vslip.EncodeFrame([CLEAR_UNIT]);
      if closed {
        Vslip.EncodeAllOne([CLEAR_UNIT]);
        return;
      }
      var c := Dialogue(panel, field, user, password, selection, status, cursor, closed);
      var display := WriteLabels(table, Labels(captions, c));
      display := display + PrintCursor(InputRow(c), InputColumnOperand(c));
      assert display == PrintRecord(table, Labels(captions, c), InputRow(c), InputColumnOperand(c));
      var displayFrame := Vslip.EncodeFrame(display);
      Vslip.EncodeAllTwo([CLEAR_UNIT], display);
      output := output + displayFrame;
    }

    method ProcessFrames(frames: seq<bytes>)
      requires Valid()
      modifies this
      ensures Valid()
      ensures View() == Fold<Console, bytes>(Emulator.Handler(table), old(View()), frames)
    {
      ghost var start: Console := View();
      ghost var handle := Emulator.Handler(table);
      for i := 0 to |frames|
        invariant Valid()
        invariant View() == Fold<Console, bytes>(handle, start, frames[..i])
      {
        assert frames[..i + 1] == frames[..i] + [frames[i]];
        FoldSnoc<Console, bytes>(handle, start, frames[..i], frames[i]);
        if frames[i] != [] {
          ProcessFrame(frames[i]);
        }
      }
      assert frames[..|frames|] == frames;
    }

    method Process(input: bytes) returns (output: bytes)
      requires Valid()
      modifies this, framer
      ensures Valid()
      ensures (framer.View([]), View()) ==
        Vslip.Read<Console>(Emulator.Handler(table), old(framer.View([])), old(View()), input)
      ensures output == Vslip.EncodeAll(Records(table, FormOf(captions, View())))
    {
      var frames, _ := framer.Feed(input, []);
      ProcessFrames(frames);
      output := MakeDisplay();
    }
  }

  /** The terminal's receive step: feed one read, then apply its frames to the screen. The
      precondition is that the read does not hang the parser. */
  method Receive(t: Table, framer: Vslip.VSlipFramer, screen: ScreenModel, input: bytes)
    requires screen.Valid()
    requires Vslip.Read(Terminal.Handler(t), framer.View([]), Terminal.Shows(screen.View()), input).1.Shows?
    modifies framer, screen, screen.cells
    ensures screen.Valid()
    ensures (framer.View([]), Terminal.Shows(screen.View())) ==
      old(Vslip.Read(Terminal.Handler(t), framer.View([]), Terminal.Shows(screen.View()), input))
  {
    var frames, _ := framer.Feed(input, []);
    ghost var handle := Terminal.Handler(t);
    ghost var start: Terminal.Picture := Terminal.Shows(screen.View());
    ghost var final := Fold(handle, start, frames);
    ghost var fed := framer.View([]);
    for i := 0 to |frames|
      invariant screen.Valid() && framer.View([]) == fed
      invariant Fold(handle, Terminal.Shows(screen.View()), frames[i..]) == final
    {
      assert frames[i..][1..] == frames[i + 1..];
      if !Fits(t, frames[i]) {
        Terminal.HungStaysHung(t, frames[i + 1..]);
        assert false;
      }
      Process(t, frames[i], screen);
    }
  }
}
