/** The dummy IBM i console: a small sign-on dialogue driven by VSLIP frames. */
module Emulator {
  import opened Bytes
  import opened Ebcdic
  import Vslip

  datatype Panel = SignOn | Menu
  datatype Field = User | Password | Selection

  const VALID_USER := "DEMO"
  const VALID_PASSWORD := "PASSWORD"
  const MAX_INPUT := 20

  const ENTER: byte := 0xF1
  const F3: byte := 0x33
  const F12: byte := 0x3C
  const BACKSPACE: byte := 0x15
  const RIGHT: byte := 0x1A
  const LEFT: byte := 0x1B
  const UP: byte := 0x18
  const DOWN: byte := 0x19

  datatype Dialogue = Dialogue(panel: Panel, field: Field, user: string, password: string, selection: string,
                               status: string, cursor: nat, closed: bool)
  {
    /** The text the keyboard edits. */
    function Input(): string
    {
      if panel.Menu? then selection else if field.User? then user else password
    }

    function WithInput(s: string): Dialogue
    {
      if panel.Menu? then this.(selection := s) else if field.User? then this.(user := s) else this.(password := s)
    }

    /** What holds after any input whatsoever. */
    ghost predicate Safe()
    {
      && cursor <= |Input()|
      && |user| <= MAX_INPUT && |password| <= MAX_INPUT && |selection| <= MAX_INPUT && |status| <= 80
      && (panel.Menu? <==> field.Selection?)
      && (panel.Menu? ==> user == VALID_USER && password == VALID_PASSWORD)
      && (panel.SignOn? ==> selection == "")
    }
  }

  /** The cursor never leaves the edited text, so no insertion or erasure is out of range. */
  type Console = c: Dialogue | c.cursor <= |c.Input()|
    witness Dialogue(SignOn, User, "", "", "", "", 0, false)

  const INITIAL: Console := Dialogue(SignOn, User, "", "", "", "Enter DEMO and PASSWORD to sign on.", 0, false)

  function Enter(c: Console): Console
  {
    if c.panel.SignOn? && c.field.User? then
      c.(field := Password, cursor := |c.password|, status := "Enter password, then press Enter.")
    else if c.panel.SignOn? then
      if c.user == VALID_USER && c.password == VALID_PASSWORD then
        c.(panel := Menu, field := Selection, cursor := 0, status := "Sign on successful. Select an option.")
      else
        c.(password := "", cursor := 0, status := "Sign on failed. Use DEMO / PASSWORD.")
    else if c.selection == "1" || c.selection == "2" || c.selection == "3" then
      c.(status := "Option " + c.selection + " selected.", selection := "", cursor := 0)
    else
      c.(status := "Enter 1, 2, or 3.")
  }

  function Cancel(c: Console): Console
  {
    if c.panel.Menu? then
      c.(panel := SignOn, field := User, user := "", password := "", selection := "", cursor := 0,
         status := "Signed off. Enter DEMO and PASSWORD.")
    else
      c.(user := "", password := "", field := User, cursor := 0, status := "Fields cleared.")
  }

  function SwitchField(c: Console): Console
  {
    if c.panel.Menu? then c
    else if c.field.User? then c.(field := Password, cursor := |c.password|)
    else c.(field := User, cursor := |c.user|)
  }

  function Erase(c: Console): Console
  {
    if c.cursor == 0 then c
    else c.WithInput(c.Input()[..c.cursor - 1] + c.Input()[c.cursor..]).(cursor := c.cursor - 1)
  }

  function Type(t: Table, c: Console, b: byte): Console
  {
    var ch := ToAscii(t, b);
    if ch != ' ' && |c.Input()| < MAX_INPUT then
      c.WithInput(c.Input()[..c.cursor] + [ch] + c.Input()[c.cursor..]).(cursor := c.cursor + 1)
    else c
  }

  function TypeAll(t: Table, c: Console, frame: bytes): Console
  {
    if frame == [] then c else Type(t, TypeAll(t, c, frame[..|frame| - 1]), frame[|frame| - 1])
  }

  function OnFrame(t: Table, c: Console, frame: bytes): Console
    requires frame != []
  {
    var key := frame[0];
    if key == ENTER then Enter(c)
    else if key == F3 then c.(closed := true)
    else if key == F12 then Cancel(c)
    else if key == BACKSPACE then Erase(c)
    else if key == RIGHT then if c.cursor < |c.Input()| then c.(cursor := c.cursor + 1) else c
    else if key == LEFT then if c.cursor > 0 then c.(cursor := c.cursor - 1) else c
    else if key == UP || key == DOWN then SwitchField(c)
    else TypeAll(t, c, frame)
  }

  /** Frames coming from the framer are never empty; the source skips empty ones all the same. */
  function Handler(t: Table): (Console, bytes) -> Console
  {
    (c: Console, frame: bytes) => if frame == [] then c else OnFrame(t, c, frame)
  }

  lemma {:induction false} TypeAllSafe(t: Table, c: Console, frame: bytes)
    requires c.Safe()
    ensures TypeAll(t, c, frame).Safe() && TypeAll(t, c, frame).closed == c.closed
    ensures c.panel.Menu? ==> TypeAll(t, c, frame).panel.Menu?
    decreases |frame|
  {
    if frame != [] {
      TypeAllSafe(t, c, frame[..|frame| - 1]);
    }
  }

  lemma EnterSafe(c: Console)
    requires c.Safe()
    ensures Enter(c).Safe() && Enter(c).closed == c.closed
  {
  }

  lemma CancelSafe(c: Console)
    requires c.Safe()
    ensures Cancel(c).Safe() && Cancel(c).closed == c.closed
  {
  }

  /** Every frame keeps the dialogue safe, and none re-opens it. */
  lemma FrameSafe(t: Table, c: Console, frame: bytes)
    requires c.Safe() && frame != []
    ensures OnFrame(t, c, frame).Safe()
    ensures c.closed ==> OnFrame(t, c, frame).closed
  {
    var key := frame[0];
    if key == ENTER {
      EnterSafe(c);
    } else if key == F12 {
      CancelSafe(c);
    } else if key in {F3, BACKSPACE, RIGHT, LEFT, UP, DOWN} {
      EditSafe(t, c, frame);
    } else {
      TypeAllSafe(t, c, frame);
    }
  }

  lemma EditSafe(t: Table, c: Console, frame: bytes)
    requires c.Safe() && frame != [] && frame[0] in {F3, BACKSPACE, RIGHT, LEFT, UP, DOWN}
    ensures OnFrame(t, c, frame).Safe()
    ensures c.closed ==> OnFrame(t, c, frame).closed
  {
  }

  lemma {:induction false} FramesSafe(t: Table, c: Console, frames: seq<bytes>)
    requires c.Safe()
    ensures Fold<Console, bytes>(Handler(t), c, frames).Safe()
    ensures c.closed ==> Fold<Console, bytes>(Handler(t), c, frames).closed
    decreases |frames|
  {
    if frames != [] {
      if frames[0] != [] {
        FrameSafe(t, c, frames[0]);
      }
      FramesSafe(t, Handler(t)(c, frames[0]), frames[1..]);
    }
  }

  /** The emulator after a number of `process` calls: its framer and its dialogue. */
  function After(t: Table, f: Vslip.Framer, c: Console, inputs: seq<bytes>): (Vslip.Framer, Console)
  {
    Vslip.ReadEach<Console>(Handler(t), f, c, inputs)
  }

  /** The states after each of these calls. */
  function States(t: Table, f: Vslip.Framer, c: Console, inputs: seq<bytes>): seq<Console>
    decreases |inputs|
  {
    if inputs == [] then []
    else
      var init := inputs[..|inputs| - 1];
      States(t, f, c, init) + [After(t, f, c, inputs).1]
  }

  lemma {:induction false} AfterSnoc(t: Table, f: Vslip.Framer, c: Console, inputs: seq<bytes>, input: bytes)
    ensures var (g, d) := After(t, f, c, inputs);
      After(t, f, c, inputs + [input]) == Vslip.Read<Console>(Handler(t), g, d, input)
    decreases |inputs|
  {
    if inputs == [] {
      assert [input][1..] == [] && inputs + [input] == [input];
      var (g, d) := Vslip.Read<Console>(Handler(t), f, c, input);
      assert Vslip.ReadEach<Console>(Handler(t), g, d, []) == (g, d);
    } else {
      var (g, d) := Vslip.Read<Console>(Handler(t), f, c, inputs[0]);
      assert (inputs + [input])[1..] == inputs[1..] + [input];
      AfterSnoc(t, g, d, inputs[1..], input);
    }
  }

  lemma {:induction false} ReadsSafe(t: Table, f: Vslip.Framer, c: Console, inputs: seq<bytes>)
    requires c.Safe()
    ensures After(t, f, c, inputs).1.Safe()
    ensures c.closed ==> After(t, f, c, inputs).1.closed
    decreases |inputs|
  {
    if inputs != [] {
      FramesSafe(t, c, Fold(Vslip.Step, f.(out := []), inputs[0]).out);
      var (g, d) := Vslip.Read<Console>(Handler(t), f, c, inputs[0]);
      ReadsSafe(t, g, d, inputs[1..]);
    }
  }

  /** For every stream of input bytes, in any reads: the dialogue stays safe, and a closed
      session stays closed under whatever follows. */
  lemma SafeForAllInput(t: Table, before: seq<bytes>, later: seq<bytes>)
    ensures var (f, c) := After(t, Vslip.FRESH, INITIAL, before);
      c.Safe() && (c.closed ==> After(t, f, c, later).1.closed)
  {
    ReadsSafe(t, Vslip.FRESH, INITIAL, before);
    var (f, c) := After(t, Vslip.FRESH, INITIAL, before);
    ReadsSafe(t, f, c, later);
  }

  const KEYS: set<byte> := {ENTER, F3, F12, BACKSPACE, RIGHT, LEFT, UP, DOWN}

  /** The state depends on the bytes received, not on the reads they came in. */
  lemma InputChunkingIrrelevant(t: Table, inputs: seq<bytes>, others: seq<bytes>)
    requires Flatten(inputs) == Flatten(others)
    ensures After(t, Vslip.FRESH, INITIAL, inputs) == After(t, Vslip.FRESH, INITIAL, others)
  {
    Vslip.ChunkingIrrelevant<Console>(Handler(t), Vslip.FRESH, INITIAL, inputs);
    Vslip.ChunkingIrrelevant<Console>(Handler(t), Vslip.FRESH, INITIAL, others);
  }
}
