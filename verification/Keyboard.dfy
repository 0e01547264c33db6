/** What the keys of the console do: where typed characters go, what undoes what, and exactly
    which input signs on. */
module Keyboard {
  import opened Bytes
  import opened Ebcdic
  import opened Emulator
  import opened Display
  import Vslip

  // ---- Typing ----

  /** The characters of a frame, without the codes that stand for nothing. */
  function Letters(t: Table, frame: bytes): string
  {
    if frame == [] then ""
    else
      var ch := ToAscii(t, frame[|frame| - 1]);
      Letters(t, frame[..|frame| - 1]) + if ch == ' ' then "" else [ch]
  }

  function Room(c: Console): nat
  {
    if |c.Input()| < MAX_INPUT then MAX_INPUT - |c.Input()| else 0
  }

  /** As much of `s` as the field has room for. */
  function Fitting(c: Console, s: string): string
  {
    if |s| <= Room(c) then s else s[..Room(c)]
  }

  /** The field with `s` at the cursor, and the cursor behind it. */
  function Inserted(c: Console, s: string): Console
  {
    c.WithInput(c.Input()[..c.cursor] + s + c.Input()[c.cursor..]).(cursor := c.cursor + |s|)
  }

  lemma InsertMore(c: Console, s: string, ch: char)
    ensures var m := Inserted(c, s);
      Inserted(m, [ch]) == Inserted(c, s + [ch]) && |m.Input()| == |c.Input()| + |s|
  {
    var m, a, b := Inserted(c, s), c.Input()[..c.cursor], c.Input()[c.cursor..];
    assert m.Input() == a + s + b;
    assert m.Input()[..m.cursor] == a + s && m.Input()[m.cursor..] == b;
    assert a + s + [ch] + b == a + (s + [ch]) + b;
  }

  lemma InsertNothing(c: Console)
    ensures Inserted(c, "") == c
  {
    assert c.Input()[..c.cursor] + "" + c.Input()[c.cursor..] == c.Input();
  }

  /** Typing a frame inserts its characters, in order, at the cursor, as far as there is room;
      what stood before and behind the cursor stays, and the cursor ends up behind the last of
      them. This is so for every console and every frame. */
  lemma {:induction false} TypingInserts(t: Table, c: Console, frame: bytes)
    ensures TypeAll(t, c, frame) == Inserted(c, Fitting(c, Letters(t, frame)))
    decreases |frame|
  {
    if frame == [] {
      InsertNothing(c);
    } else {
      var init, ch := frame[..|frame| - 1], ToAscii(t, frame[|frame| - 1]);
      var s := Letters(t, init);
      TypingInserts(t, c, init);
      if ch != ' ' {
        InsertMore(c, Fitting(c, s), ch);
        assert |s| < Room(c) ==> Fitting(c, s + [ch]) == s + [ch];
        assert |s| >= Room(c) ==> Fitting(c, s + [ch]) == Fitting(c, s);
      } else {
        assert s + "" == s;
      }
    }
  }

  // ---- Undoing ----

  function EraseTimes(c: Console, n: nat): Console
    decreases n
  {
    if n == 0 then c else EraseTimes(Erase(c), n - 1)
  }

  lemma EraseAt(c: Dialogue, x: string, n: nat)
    requires 0 < n <= |x|
    ensures Erase(c.WithInput(x).(cursor := n)) == c.WithInput(x[..n - 1] + x[n..]).(cursor := n - 1)
  {
  }

  lemma CutOut(a: string, s: string, ch: char, b: string)
    ensures var x, n := a + (s + [ch]) + b, |a| + |s| + 1;
      x[..n - 1] + x[n..] == a + s + b
  {
    var x, n := a + (s + [ch]) + b, |a| + |s| + 1;
    assert x == (a + s) + ([ch] + b);
    assert x[..n - 1] == a + s;
    assert x[n..] == b;
  }

  lemma EraseLast(c: Console, s: string, ch: char)
    ensures Erase(Inserted(c, s + [ch])) == Inserted(c, s)
  {
    var a, b := c.Input()[..c.cursor], c.Input()[c.cursor..];
    var x, n := a + (s + [ch]) + b, |a| + |s| + 1;
    assert Inserted(c, s + [ch]) == c.WithInput(x).(cursor := n);
    EraseAt(c, x, n);
    var y := x[..n - 1] + x[n..];
    assert y == a + s + b by {
      CutOut(a, s, ch, b);
    }
    assert Inserted(c, s) == c.WithInput(y).(cursor := n - 1);
  }

  lemma {:induction false} EraseInserted(c: Console, s: string)
    ensures EraseTimes(Inserted(c, s), |s|) == c
    decreases |s|
  {
    if s == "" {
      InsertNothing(c);
    } else {
      assert s[..|s| - 1] + [s[|s| - 1]] == s;
      EraseLast(c, s[..|s| - 1], s[|s| - 1]);
      EraseInserted(c, s[..|s| - 1]);
    }
  }

  /** One backspace per typed character restores the dialogue completely. */
  lemma BackspaceUndoesTyping(t: Table, c: Console, frame: bytes)
    ensures EraseTimes(TypeAll(t, c, frame), |Fitting(c, Letters(t, frame))|) == c
  {
    TypingInserts(t, c, frame);
    EraseInserted(c, Fitting(c, Letters(t, frame)));
  }

  /** A backspace with nothing before the cursor does nothing; each key is what its code says. */
  lemma KeysDispatch(t: Table, c: Console, rest: bytes)
    ensures OnFrame(t, c, [BACKSPACE] + rest) == Erase(c)
    ensures c.cursor == 0 ==> OnFrame(t, c, [BACKSPACE] + rest) == c
    ensures OnFrame(t, c, [F3] + rest) == c.(closed := true)
    ensures OnFrame(t, c, [UP] + rest) == OnFrame(t, c, [DOWN] + rest)
  {
  }

  /** Left and right undo each other inside the text and stop at its ends; a character typed
      after a step to the left stands before the last one. */
  lemma ArrowsMove(t: Table, c: Console)
    ensures c.cursor > 0 ==> OnFrame(t, OnFrame(t, c, [LEFT]), [RIGHT]) == c
    ensures c.cursor < |c.Input()| ==> OnFrame(t, OnFrame(t, c, [RIGHT]), [LEFT]) == c
    ensures c.cursor == 0 ==> OnFrame(t, c, [LEFT]) == c
    ensures c.cursor == |c.Input()| ==> OnFrame(t, c, [RIGHT]) == c
    ensures c.cursor > 0 ==> OnFrame(t, c, [LEFT]) == c.(cursor := c.cursor - 1)
  {
  }

  /** Up and down change to the other field of the sign-on panel, with the cursor at its end, and
      leave every text as it is. Doing it twice leads back. On the menu they do nothing. */
  lemma FieldsSwitch(t: Table, c: Console)
    requires c.Safe()
    ensures var d := OnFrame(t, c, [UP]);
      && d.user == c.user && d.password == c.password && d.selection == c.selection && d.status == c.status
      && d.panel == c.panel && d.closed == c.closed
      && (c.panel.Menu? ==> d == c)
      && (c.panel.SignOn? ==> d.field != c.field && !d.field.Selection? && d.cursor == |d.Input()|)
      && (c.panel.SignOn? ==> OnFrame(t, d, [UP]) == c.(cursor := |c.Input()|))
  {
  }

  /** F12 starts the dialogue anew, from either panel: only the message tells. */
  lemma CancelRestarts(t: Table, c: Console)
    requires c.Safe()
    ensures OnFrame(t, c, [F12]) == INITIAL.(
      status := if c.panel.Menu? then "Signed off. Enter DEMO and PASSWORD." else "Fields cleared.",
      closed := c.closed)
  {
  }

  // ---- Signing on ----

  lemma {:induction false} SkipEmpty(t: Table, c: Console, frames: seq<bytes>)
    ensures Fold<Console, bytes>(Handler(t), c, Vslip.NonEmpty(frames)) == Fold<Console, bytes>(Handler(t), c, frames)
    decreases |frames|
  {
    if frames != [] {
      var rest := Vslip.NonEmpty(frames[1..]);
      if frames[0] == [] {
        assert [] + rest == rest;
        SkipEmpty(t, c, frames[1..]);
      } else {
        assert ([frames[0]] + rest)[1..] == rest;
        SkipEmpty(t, Handler(t)(c, frames[0]), frames[1..]);
      }
    }
  }

  /** Encoded frames act one after the other, however they are cut into reads. */
  lemma FramesAct(t: Table, c: Console, frames: seq<bytes>, chunks: seq<bytes>)
    requires frames != [] && Flatten(chunks) == Vslip.EncodeAll(frames)
    ensures After(t, Vslip.FRESH, c, chunks).1 == Fold<Console, bytes>(Handler(t), c, frames)
  {
    Vslip.ChunkingIrrelevant<Console>(Handler(t), Vslip.FRESH, c, chunks);
    Vslip.AllDecode(Vslip.FRESH, frames);
    Vslip.ReceivedAtRest(Vslip.FRESH, frames);
    assert [] + Vslip.NonEmpty(frames) == Vslip.NonEmpty(frames);
    SkipEmpty(t, c, frames);
  }

  /** A text that can be typed: every character is on the keyboard, and the frame does not begin
      with the code of a function key. */
  predicate Typeable(t: Table, s: string)
  {
    && |s| <= MAX_INPUT
    && (forall i :: 0 <= i < |s| ==> s[i] in t && s[i] != ' ')
    && (s != [] ==> ToEbcdic(t, s[0]) !in KEYS)
  }

  lemma {:induction false} LettersOf(t: Table, s: string)
    requires forall i :: 0 <= i < |s| ==> s[i] in t && s[i] != ' '
    ensures Letters(t, EncodeText(t, s)) == s && |EncodeText(t, s)| == |s|
    decreases |s|
  {
    if s != [] {
      var init, ch := s[..|s| - 1], s[|s| - 1];
      LettersOf(t, init);
      ToEbcdicRoundTrip(t, ch);
      var frame := EncodeText(t, s);
      assert frame[..|frame| - 1] == EncodeText(t, init);
      assert init + [ch] == s;
    }
  }

  lemma {:induction false} FirstCode(t: Table, s: string)
    requires s != []
    ensures EncodeText(t, s) != [] && EncodeText(t, s)[0] == ToEbcdic(t, s[0])
    decreases |s|
  {
    if |s| > 1 {
      FirstCode(t, s[..|s| - 1]);
    }
  }

  /** Typing a text into an empty field leaves exactly that text there. */
  lemma TypesText(t: Table, c: Console, s: string)
    requires Typeable(t, s) && c.Input() == ""
    ensures Handler(t)(c, EncodeText(t, s)) == c.WithInput(s).(cursor := |s|)
  {
    if s == [] {
      assert c.WithInput("") == c;
    } else {
      TypesFrame(t, c, s);
      LettersOf(t, s);
      TypingInserts(t, c, EncodeText(t, s));
      assert Fitting(c, s) == s;
      InsertedIntoEmpty(c, s);
    }
  }

  lemma TypesFrame(t: Table, c: Console, s: string)
    requires Typeable(t, s) && s != []
    ensures Handler(t)(c, EncodeText(t, s)) == TypeAll(t, c, EncodeText(t, s))
  {
    FirstCode(t, s);
    var key := EncodeText(t, s)[0];
    assert key !in KEYS;
  }

  lemma InsertedIntoEmpty(c: Console, s: string)
    requires c.Input() == ""
    ensures Inserted(c, s) == c.WithInput(s).(cursor := |s|)
  {
    assert c.cursor == 0 && c.Input()[..0] == "" && c.Input()[0..] == "";
    assert "" + s + "" == s;
  }

  /** A text typed into the fresh panel, in any reads, is the user. */
  lemma TypesUser(t: Table, s: string, chunks: seq<bytes>)
    requires Typeable(t, s) && Flatten(chunks) == Vslip.Encode(EncodeText(t, s))
    ensures After(t, Vslip.FRESH, INITIAL, chunks).1 == INITIAL.(user := s, cursor := |s|)
  {
    Vslip.EncodeAllOne(EncodeText(t, s));
    FramesAct(t, INITIAL, [EncodeText(t, s)], chunks);
    FoldOne<Console, bytes>(Handler(t), INITIAL, EncodeText(t, s));
    TypesText(t, INITIAL, s);
  }

  lemma FoldFour(t: Table, c: Console, a: bytes, b: bytes, d: bytes, e: bytes)
    ensures var h := Handler(t);
      Fold<Console, bytes>(h, c, [a, b, d, e]) == h(h(h(h(c, a), b), d), e)
  {
    var h := Handler(t);
    assert [a, b, d, e] == [a, b] + [d, e];
    FoldAppend<Console, bytes>(h, c, [a, b], [d, e]);
    FoldTwo<Console, bytes>(h, c, a, b);
    FoldTwo<Console, bytes>(h, h(h(c, a), b), d, e);
  }

  /** Enter, whatever has been typed, corrected or switched before: in the user field it goes on
      to the password like the arrow keys do; in the password field it leads to the menu exactly
      with the valid pair; and it never leaves the menu. */
  lemma EnterLeads(t: Table, c: Console)
    requires c.Safe()
    ensures OnFrame(t, c, [ENTER]).panel.Menu? <==>
      c.panel.Menu? || (c.field.Password? && c.user == "DEMO" && c.password == "PASSWORD")
    ensures c.field.User? ==>
      OnFrame(t, c, [ENTER]) == OnFrame(t, c, [DOWN]).(status := "Enter password, then press Enter.")
    ensures c.field.Password? && !OnFrame(t, c, [ENTER]).panel.Menu? ==>
      OnFrame(t, c, [ENTER]) == c.(password := "", cursor := 0, status := "Sign on failed. Use DEMO / PASSWORD.")
  {
  }

  /** A user and a password typed into the empty panel, each followed by Enter. */
  function Credentials(t: Table, user: string, password: string): seq<bytes>
  {
    [EncodeText(t, user), [ENTER], EncodeText(t, password), [ENTER]]
  }

  /** The menu is reached by exactly one user and password. Whatever else is typed, the user
      stays in its field, the password is gone and the message says so. */
  lemma SignsOnIff(t: Table, user: string, password: string, chunks: seq<bytes>)
    requires Typeable(t, user) && Typeable(t, password)
    requires Flatten(chunks) == Vslip.EncodeAll(Credentials(t, user, password))
    ensures var c := After(t, Vslip.FRESH, INITIAL, chunks).1;
      && (c.panel.Menu? <==> user == "DEMO" && password == "PASSWORD")
      && c == if user == "DEMO" && password == "PASSWORD"
              then Dialogue(Menu, Selection, user, password, "", "Sign on successful. Select an option.", 0, false)
              else Dialogue(SignOn, Password, user, "", "", "Sign on failed. Use DEMO / PASSWORD.", 0, false)
  {
    FramesAct(t, INITIAL, Credentials(t, user, password), chunks);
    FoldFour(t, INITIAL, EncodeText(t, user), [ENTER], EncodeText(t, password), [ENTER]);
    TypesText(t, INITIAL, user);
    var c1 := Handler(t)(INITIAL, EncodeText(t, user));
    var c2 := Handler(t)(c1, [ENTER]);
    assert c2 == Dialogue(SignOn, Password, user, "", "", "Enter password, then press Enter.", 0, false);
    TypesText(t, c2, password);
  }

  /** On the menu with an empty selection, typing a text and Enter selects exactly the options 1,
      2 and 3; the message names the option. Anything else stays in the field. */
  lemma SelectsIff(t: Table, c: Console, s: string)
    requires c.panel.Menu? && c.selection == "" && c.cursor == 0 && Typeable(t, s)
    ensures var d := Handler(t)(Handler(t)(c, EncodeText(t, s)), [ENTER]);
      d == if s == "1" || s == "2" || s == "3"
           then c.(status := "Option " + s + " selected.")
           else c.(selection := s, cursor := |s|, status := "Enter 1, 2, or 3.")
  {
    TypesText(t, c, s);
  }
}
