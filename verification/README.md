# coroserver in Dafny

A model of the protocol and scheduling core of coroserver, a C++20 coroutine server library,
with proofs about it. `dafny verify dfyconfig.toml` checks everything.

Asynchronous code is modelled as a machine. One step is the code between two suspensions; steps
of different coroutines interleave in any order on one thread. Objects that the library updates
in place are classes whose methods are proved equal to step functions on values. The theorems
quantify over all runs of these step functions, or over all inputs.

## Components

- **5250 console.** `Vslip` (framing as in the "PROTOCOL" section of RFC 1055), `Ebcdic`,
  `Screen5250`, `Parser5250`, `Emulator`, `Display`, `Keyboard`, `Terminal`,
  `Panels`, `OrderStream`, `EmulatorDevice`, `Session`.
  `Terminal.EndToEnd` joins printer, framer, parser and screen; `Session.SessionShown` says it
  of whole sessions.
- **Telnet.** `TelnetCodec` (the sections "TELNET Command Structure" and "NVT Printer and
  Keyboard" of RFC 854, and RFC 855), `TelnetNegotiation` (two negotiators joined by FIFO
  channels), `TelnetAgreement`, `TelnetWithdrawal` and `TelnetLoops`.
- **Connection pool.** `PoolHost` and `PoolConnections` (all interleavings for one endpoint),
  `ConnectionPool` (the objects), `Leases` (lease variables), `Executors` (the retry loops that lease).
- **Schedulers.** `TaskQueue`, `TaskQueueProgress`, `TaskQueueParallel`, `TaskQueueObject`,
  `EventQueue`, `EventQueueProgress`, `EventQueueObject`, and the barriers `Gather`, `WhenAll`, `WhenAny`.
- **Query strings and watcher index.** `Query` (percent-encoding, section 2.1 of RFC 3986) and
  `WatcherIndex`.

`Bytes` holds the left fold shared by the incremental decoders, `Options` the optional value.

## Where the code differs from what it is meant to do

The code is modelled as it is. Each point names the lemma with the exact condition and, where it
is another one, the lemma with an input that shows the failure.

- The input cursor is placed at column 56 + cursor, but an address has six bits. From the eighth
  character on it lands elsewhere (`Terminal.InputCursorIff`, `Terminal.CursorMisplaced`).
- A fill order (RA or EA) with a row of 24 or more never ends (`Parser5250.HaltsIff`,
  `Parser5250.RowBelowScreenHangs`).
- The pool loses a wake-up when a slot is returned just after the front waiter's timer fired and
  others queue behind it (`PoolHost.WakeUpLostIff`, `PoolHost.LostWakeUpHappens`).
- The comment at `include/telnet_protocol.hpp:304-309` says that loops are prevented. They are
  exactly if no option is accepted by both ends (`TelnetLoops.DrainsIff`); otherwise a WILL
  withdrawn by a WONT before its answer starts one (`TelnetLoops.PingPong`).
- The time to live of an event treats microseconds as milliseconds, so events are given up after
  61 milliseconds (`EventQueue.ExpiredIff`, `EventQueue.ExpiredAfterOneSecond`).
- Two events created in the same microsecond share an entry (`EventQueue.EventsAccountedIff`,
  `EventQueue.SharedIdLosesAnEvent`).
- `resolveFields` repeats fields when object or property is empty (`WatcherIndex.IndexAgreesIff`,
  `WatcherIndex.FoundFourTimes`).
- The `when_any` overload for plain awaitables reads out of range when every task fails
  (`WhenAny.UncheckedReadInRangeIff`, `WhenAny.UncheckedReadOutOfRange`).
- A task queue that allows no client strands its tasks (`TaskQueueProgress.NeverStrandedIff`).
- A target without any slash is not split at its question mark (`Query.RoundTripIff`,
  `Query.NoSlashNoParameters`).

## Model

| member | source | states |
|---|---|---|
| `Vslip.EncodeDecodes` | examples/obmc_console/vslip_framer.hpp:39-109 | feeding one encoded payload to a framer in any state leaves it at rest and appends exactly the frames `Received` describes: stale bytes as a frame of their own, or glued to the payload when the framer was mid-escape |
| `Vslip.Resynchronises` | examples/obmc_console/vslip_framer.hpp:39-109 | from any framer state, the encodings of any payloads in any chunking end with the framer at rest and exactly the expected frames appended; only the first payload can be affected by the earlier state |
| `Vslip.RoundTrip` | examples/obmc_console/vslip_framer.hpp:39-109 | from a fresh framer, non-empty payloads arrive all, intact and in order, however the bytes are cut into reads |
| `Vslip.OutIsAppended` | examples/obmc_console/vslip_framer.hpp:72-109 | frames collected before do not influence the framer: it only appends to the caller's vector |
| `Vslip.ChunkingIrrelevant` | examples/obmc_console/vslip_framer.hpp:72-109 | a reader that feeds each read and then handles its frames ends in the same framer and handler state as with one single read, for every handler |
| `Vslip.BadEscapesIgnored` | examples/obmc_console/vslip_framer.hpp:77-86 | an escape followed by any byte but its two codes has no effect on the framer, wherever it occurs |
| `Vslip.EncodeFrame` | examples/obmc_console/vslip_framer.hpp:39-63 | the encoding loop produces END, the stuffed payload, END |
| `Vslip.VSlipFramer.Feed` | examples/obmc_console/vslip_framer.hpp:72-109 | the in-place decoder follows the byte-wise step function over the whole input; the returned count is the number of frames appended |
| `Vslip.VSlipFramer.Reset` | examples/obmc_console/vslip_framer.hpp:112-116 | resetting gives the state of a fresh framer |
| `Ebcdic.ToEbcdicRoundTrip` | examples/obmc_console/ibmi_emulator.hpp:61-75 | translating a character into the code page and back shows it if the table has it and a blank otherwise; the byte in between is never an order code |
| `Ebcdic.ToEbcdicIsFirst` | examples/obmc_console/ibmi_emulator.hpp:61-75 | of several codes for a character the smallest is used, and the blank is 0x40 |
| `Ebcdic.AsciiToEbcdic` | examples/obmc_console/ibmi_emulator.hpp:61-75 | the search loop finds the first table index holding the character, or the blank |
| `Screen5250.AdvanceIsRing` | examples/obmc_console/screen5250.hpp:121-129 | advancing keeps the cursor on the screen, moves it to the next of 1920 ring cells and changes nothing else |
| `Screen5250.PosAfterIsRing` | examples/obmc_console/screen5250.hpp:121-129 | after k advances the cursor stands k cells further around the ring |
| `Screen5250.FillEndsIff` | examples/obmc_console/screen5250.hpp:84-95 | advancing reaches the fill target if and only if it lies inside the ring of 1920 cells |
| `Screen5250.AddressInRingIff` | examples/obmc_console/screen5250.hpp:114-117 | a decoded address lies inside the ring exactly if its row is below 24 |
| `Screen5250.CursorsGoToNearest` | examples/obmc_console/screen5250.hpp:61-73 | a cursor position off the screen is replaced by the nearest one on it; cells and the other cursor stay |
| `Screen5250.ArcGrows` | examples/obmc_console/screen5250.hpp:84-95 | each turn of the fill loop covers one more cell of the arc and shortens the remaining distance (target - pos) mod 1920 by one |
| `Screen5250.DecodeSba` | examples/obmc_console/screen5250.hpp:114-117 | each address byte contributes six bits |
| `Screen5250.ScreenModel.Clear` | examples/obmc_console/screen5250.hpp:53-58 | the screen array becomes blank and all cursors go home |
| `Screen5250.ScreenModel.MoveTo` | examples/obmc_console/screen5250.hpp:61-65 | the cursor is clamped to the screen; cells and input cursor stay |
| `Screen5250.ScreenModel.MoveInput` | examples/obmc_console/screen5250.hpp:69-73 | the input cursor is clamped to the screen; the rest stays |
| `Screen5250.ScreenModel.StepCursor` | examples/obmc_console/screen5250.hpp:121-129 | in-place advance equals the ring step |
| `Screen5250.ScreenModel.Put` | examples/obmc_console/screen5250.hpp:76-80 | writes one cell and advances; no other cell changes |
| `Screen5250.ScreenModel.RepeatToAddress` | examples/obmc_console/screen5250.hpp:84-95 | for every target in the ring the loop ends, overwrites exactly the cyclic interval from the cursor up to the target and leaves the cursor on the target |
| `Parser5250.OrdersSixBit` | examples/obmc_console/stream5250_parser.hpp:75-137 | every fill order the tokeniser yields has a row and column below 64 |
| `Parser5250.HaltsIff` | examples/obmc_console/stream5250_parser.hpp:75-137 | on any screen, processing a stream ends if and only if none of its RA or EA orders names a row below the screen |
| `Parser5250.RowBelowScreenHangs` | examples/obmc_console/stream5250_parser.hpp:101-110 | a record that repeats a character up to row 24 never ends, on any screen |
| `Parser5250.FillOrder` | examples/obmc_console/stream5250_parser.hpp:100-120 | an RA or EA order has the effect of the first order of the stream and leaves the remaining orders to be applied |
| `Parser5250.ProcessOrder` | examples/obmc_console/stream5250_parser.hpp:75-137 | one turn of the parser loop consumes at least one byte and preserves the final screen the remaining orders lead to; incomplete orders end the record |
| `Parser5250.Process` | examples/obmc_console/stream5250_parser.hpp:42-138 | the parser turns the screen into the one its orders describe, for every payload whose fill rows are on the screen, command byte and unknown commands included |
| `OrderStream.StreamParses` | examples/obmc_console/stream5250_parser.hpp:75-137 | any sequence of addresses, cursor orders, field attributes, fills, padding and characters, printed and followed by a cut-off order, is read back as exactly its meaning |
| `OrderStream.RecordParses` | examples/obmc_console/stream5250_parser.hpp:42-70 | the same of whole records, with or without the command byte; a structured field is skipped |
| `OrderStream.FillShows` | examples/obmc_console/stream5250_parser.hpp:100-120 | after a fill record exactly the cells on the way show the repeated character, or a blank for an erase, and the cursor stands on the target |
| `Emulator.FrameSafe` | examples/obmc_console/ibmi_emulator.hpp:147-250 | every frame keeps the safety invariant: cursor within the edited field, fields at most 20 characters, menu exactly with the selection field, menu only with the valid credentials; no frame re-opens a closed session |
| `Emulator.SafeForAllInput` | examples/obmc_console/ibmi_emulator.hpp:147-250 | the invariant holds after every stream of input bytes in any reads, and a closed session stays closed under whatever follows |
| `Emulator.InputChunkingIrrelevant` | examples/obmc_console/ibmi_emulator.hpp:24-36 | two ways of cutting the same input into reads lead to the same framer and dialogue state |
| `Keyboard.TypingInserts` | examples/obmc_console/ibmi_emulator.hpp:239-248 | for every console and frame: the frame's characters are inserted in order at the cursor as far as there is room, the rest of the field stays, and the cursor ends behind them |
| `Keyboard.BackspaceUndoesTyping` | examples/obmc_console/ibmi_emulator.hpp:211-216 | one backspace per typed character restores the dialogue completely |
| `Keyboard.KeysDispatch` | examples/obmc_console/ibmi_emulator.hpp:152-219 | backspace, F3 and the two vertical arrows act by the first byte of the frame alone |
| `Keyboard.ArrowsMove` | examples/obmc_console/ibmi_emulator.hpp:217-228 | left and right undo each other inside the text and stop at its ends |
| `Keyboard.FieldsSwitch` | examples/obmc_console/ibmi_emulator.hpp:229-238 | up and down change to the other sign-on field with the cursor at its end, keep all texts, lead back when repeated, and do nothing on the menu |
| `Keyboard.CancelRestarts` | examples/obmc_console/ibmi_emulator.hpp:192-210 | F12 leads to the initial state but for the message |
| `Keyboard.EnterLeads` | examples/obmc_console/ibmi_emulator.hpp:154-188 | from any reachable state Enter leads to the menu exactly from the password field with the valid pair, and otherwise on to the password or to the failure message |
| `Keyboard.TypesUser` | examples/obmc_console/ibmi_emulator.hpp:239-248 | a text typed into the fresh panel, in any reads, is the user |
| `Keyboard.SignsOnIff` | examples/obmc_console/ibmi_emulator.hpp:154-188 | user, Enter, password, Enter, encoded and in any reads, reach the menu if and only if they are DEMO and PASSWORD; the state after a failure is given exactly |
| `Keyboard.SelectsIff` | examples/obmc_console/ibmi_emulator.hpp:178-187 | on the menu a typed text and Enter select exactly the options 1, 2 and 3 |
| `Display.LabelTokens` | examples/obmc_console/ibmi_emulator.hpp:77-85 | the parser reads a printed text back as its address order and its characters |
| `Display.RecordTokens` | examples/obmc_console/ibmi_emulator.hpp:93-145 | tokenising a printed display record gives back exactly the orders that were printed |
| `Display.TextPaints` | examples/obmc_console/ibmi_emulator.hpp:77-85 | writing a text moves the cursor by its length around the ring and changes exactly the cells it lands on, the last character winning |
| `Display.LabelsPaint` | examples/obmc_console/ibmi_emulator.hpp:93-145 | any texts placed on the screen, parsed onto a cleared screen, give the declarative picture in which later texts win and the rest is blank |
| `Display.RecordPaints` | examples/obmc_console/ibmi_emulator.hpp:93-145 | a whole record, printed and parsed, leaves the intended cells and both cursors; it never hangs the parser |
| `Display.ConsoleCaptionsFit` | examples/obmc_console/ibmi_emulator.hpp:93-145 | the captions of the two panels fit into their rows, and the prompts end before the input column |
| `Terminal.RecordsPaint` | examples/obmc_console/ibmi_emulator.hpp:93-145 | the records of one display take any screen to the intended one |
| `Terminal.FormsArrive` | examples/obmc_console/vslip_framer.hpp:72-109 | end to end for arbitrary displays and a framer in any state: unless the bytes it held make a record that hangs the parser, the last display is shown exactly and the framer is at rest; a framer in the middle of an escape needs a second display |
| `Terminal.EndToEnd` | examples/obmc_console/ibmi_emulator.hpp:77-145 | end to end for the emulator: whatever states the dialogue went through, however its output was cut into reads and whatever was on the screen before, the terminal shows exactly the screen of the last state |
| `Terminal.InputCursorIff` | examples/obmc_console/ibmi_emulator.hpp:87-138 | on the terminal, after any displays in any reads, the input cursor stands in the right row, and at column 56 + cursor if and only if the cursor is at most 7, because an address has six bits |
| `Terminal.CursorMisplaced` | examples/obmc_console/ibmi_emulator.hpp:87-138 | after any eight typed characters the terminal shows the input cursor in column 0 |
| `Terminal.ClosedIsBlank` | examples/obmc_console/ibmi_emulator.hpp:93-98 | once the session is closed the terminal is blank with the cursor at home |
| `Terminal.ShownOf` | examples/obmc_console/ibmi_emulator.hpp:77-85 | when the texts keep clear of each other, every character of every text is visible in its own cell |
| `Terminal.EveryLabelVisible` | examples/obmc_console/ibmi_emulator.hpp:93-145 | after every input, once the terminal has received the displays, every character of every text stands in its own cell of the terminal's screen |
| `Panels.TerminalReads` | examples/obmc_console/ibmi_emulator.hpp:100-138 | after any displays in any reads, every cell of the terminal shows what the panel's lines, given as text, have in that place |
| `Panels.FieldsShown` | examples/obmc_console/ibmi_emulator.hpp:107-138 | behind the prompts stand the user, one asterisk per password character and the selection; the message has its own row; the input cursor is in the row of the edited text |
| `Panels.PasswordNotSent` | examples/obmc_console/ibmi_emulator.hpp:113-114 | dialogues that differ only in passwords of the same length send the same display bytes |
| `Panels.AlikeKept` | examples/obmc_console/ibmi_emulator.hpp:147-250 | every frame keeps such dialogues alike unless it is an Enter with different verdicts |
| `Panels.OnlyTheVerdictShows` | examples/obmc_console/ibmi_emulator.hpp:113-114 | two passwords of the same length typed at the same place lead to the same displays under every continuation without Enter |
| `EmulatorDevice.WriteText` | examples/obmc_console/ibmi_emulator.hpp:77-85 | appends the address order and the translated text to the display |
| `EmulatorDevice.IbmiEmulator.constructor` | examples/obmc_console/ibmi_emulator.hpp:252-260 | a new emulator shows the empty sign-on panel with a fresh framer |
| `EmulatorDevice.IbmiEmulator.PressEnter` | examples/obmc_console/ibmi_emulator.hpp:154-188 | the in-place handling of Enter equals the dialogue step in all its branches |
| `EmulatorDevice.IbmiEmulator.PressCancel` | examples/obmc_console/ibmi_emulator.hpp:192-210 | the in-place handling of F12 equals the dialogue step |
| `EmulatorDevice.IbmiEmulator.EraseLeft` | examples/obmc_console/ibmi_emulator.hpp:211-216 | backspace removes the character before the cursor |
| `EmulatorDevice.IbmiEmulator.TypeFrame` | examples/obmc_console/ibmi_emulator.hpp:239-248 | every printable byte of the frame is inserted at the cursor while the field has room |
| `EmulatorDevice.IbmiEmulator.ProcessFrame` | examples/obmc_console/ibmi_emulator.hpp:147-250 | the in-place handling of a frame equals the dialogue step for every first byte |
| `EmulatorDevice.IbmiEmulator.MakeDisplay` | examples/obmc_console/ibmi_emulator.hpp:93-145 | the bytes are the encoding of the clear record and, unless closed, the display record of the current state |
| `EmulatorDevice.IbmiEmulator.Process` | examples/obmc_console/ibmi_emulator.hpp:24-36 | one call feeds the framer, handles its frames in order and returns the display of the resulting state |
| `EmulatorDevice.Receive` | examples/obmc_console/ibmi_console_client.cpp:252-261 | the terminal's receive step updates framer and screen object as the end-to-end reader does |
| `Session.OutputGrows` | examples/obmc_console/ibmi_emulator.hpp:24-36 | the output of one more call of process is appended to what the session has sent, as the encoding of one more display |
| `Session.ServeRead` | examples/obmc_console/ibmi_console_emulator.cpp:72-79 | one read: the emulator moves to the next state and the display of that state is sent |
| `Session.ServeClient` | examples/obmc_console/ibmi_console_emulator.cpp:62-81 | the whole loop: the initial display, then one display per read, up to the first read that closes the session or the end of the input |
| `Session.SessionShown` | examples/obmc_console/ibmi_console_emulator.cpp:62-81 | whatever the client sends and however the session's output is cut on its way back, the terminal shows the screen of the state reached |
| `Session.SessionVisible` | examples/obmc_console/ibmi_console_emulator.cpp:62-81 | and every character of that screen's texts is visible on the terminal |
| `Session.SessionReads` | examples/obmc_console/ibmi_console_emulator.cpp:62-81 | after every session each cell of the terminal shows what the line of its row has in its column |
| `TelnetCodec.TextDecodes` | include/telnet_protocol.hpp:84-150 | escaped data decodes to itself without each NUL directly behind a carriage return |
| `TelnetCodec.PayloadDecodes` | include/telnet_protocol.hpp:198-204 | an escaped subnegotiation payload is collected up to its first 1024 bytes |
| `TelnetCodec.NegDecodes` | include/telnet_protocol.hpp:230-235 | an encoded negotiation decodes to that negotiation, from state data or cr |
| `TelnetCodec.SubDecodes` | include/telnet_protocol.hpp:237-246 | an encoded subnegotiation decodes to its option and cut payload |
| `TelnetCodec.CommandEndsSub` | include/telnet_protocol.hpp:84-150 | a command inside a subnegotiation is delivered, ends it and discards what was collected |
| `TelnetCodec.RoundTrip` | include/telnet_protocol.hpp:84-246 | any sequence of data, commands, negotiations and subnegotiations, cut into any reads and starting in state data or cr, decodes to the same events in order, payloads cut to 1024 bytes, and to the data without the NULs behind carriage returns |
| `TelnetCodec.LosslessIff` | include/telnet_protocol.hpp:84-246 | the data arrives unchanged if and only if no NUL of it directly follows a carriage return of it |
| `TelnetCodec.NawsRoundTrip` | include/telnet_protocol.hpp:249-269 | every window size arrives unchanged, 0xFF bytes included |
| `TelnetCodec.TerminalTypeRoundTrip` | include/telnet_protocol.hpp:278-293 | a terminal type arrives unchanged up to the payload limit |
| `TelnetCodec.NawsParsesIff` | include/telnet_protocol.hpp:258-269 | a payload is taken for a window size exactly if it is the encoding of that size |
| `TelnetCodec.TerminalTypeParsesIff` | include/telnet_protocol.hpp:286-293 | a payload is taken for a terminal name exactly if it is the IS byte and that name |
| `TelnetCodec.Escape` | include/telnet_protocol.hpp:215-228 | the escaping loop doubles every IAC byte and nothing else |
| `TelnetCodec.StreamDecoder.FeedByte` | include/telnet_protocol.hpp:90-148 | the in-place state machine takes exactly one step of the decoder |
| `TelnetCodec.StreamDecoder.Feed` | include/telnet_protocol.hpp:84-150 | feeding a chunk is the fold of the step function over it |
| `TelnetCodec.StreamDecoder.TakeData` | include/telnet_protocol.hpp:164-173 | one byte in state data: 0xFF switches to the command state and adds nothing; any other byte is appended, and the state is cr exactly after a carriage return |
| `TelnetCodec.StreamDecoder.Push` | include/telnet_protocol.hpp:198-204 | appends to the payload unless 1024 bytes are there |
| `TelnetNegotiation.AskKeepsInv` | include/telnet_protocol.hpp:374-383 | asking to enable keeps the two-sided invariant of one option |
| `TelnetNegotiation.TakeKeepsInv` | include/telnet_protocol.hpp:397-429 | receiving a signal keeps the two-sided invariant of one option |
| `TelnetNegotiation.QuietIsSettled` | include/telnet_protocol.hpp:304-434 | with nothing under way the two views of an option agree |
| `TelnetNegotiation.ReplyOnlyToRequests` | include/telnet_protocol.hpp:336-353 | in every state that enabling requests lead to, a request causes at most one reply and a reply causes none; after a withdrawal replies can be answered, see `TelnetLoops.PingPong` |
| `TelnetNegotiation.EnablingDrains` | include/telnet_protocol.hpp:304-434 | any policies, any interleaving of WILL and DO requests: replies never outnumber requests, and deliveries plus messages under way never exceed twice the requests |
| `TelnetNegotiation.EnablingSettles` | include/telnet_protocol.hpp:304-434 | after WILL and DO requests only, an option with empty channels is on whenever an asking side met an accepting one, and only if one did or both asked |
| `TelnetAgreement.TakeTied` | include/telnet_protocol.hpp:397-429 | receiving keeps: an end that is on or waiting has a peer that is on, an enable on its way to it, or a disable coming |
| `TelnetAgreement.NegotiationAgrees` | include/telnet_protocol.hpp:304-434 | any policies, any interleaving of WILL, WONT, DO and DONT requests: whenever an option's channels are empty, one side's localEnabled equals the other's remoteEnabled and no request is left open |
| `TelnetWithdrawal.WithdrawTurnsOff` | include/telnet_protocol.hpp:385-395 | on a quiet option a request to switch off takes effect at once, is sent exactly if the option was on, turns the peer off and is answered by one word that ends the exchange |
| `TelnetWithdrawal.DisablingWorks` | include/telnet_protocol.hpp:385-429 | in every run, for either end, role and policy: after such a request the requesting side is off, and if neither end asks for the option again both are off whenever its channels are empty |
| `TelnetLoops.ReceivingLowers` | include/telnet_protocol.hpp:397-429 | with one refusing end, every delivery lowers the potential of the option |
| `TelnetLoops.RefusalDrains` | include/telnet_protocol.hpp:304-434 | if no option is accepted by both ends, deliveries plus messages under way never exceed four times the requests of any kind |
| `TelnetLoops.PingPong` | include/telnet_protocol.hpp:385-429 | WILL followed by WONT before the answer lets two accepting peers answer each other for ever: two requests give arbitrarily many deliveries |
| `TelnetLoops.MutualLoops` | include/telnet_protocol.hpp:385-429 | an option accepted by both ends, whichever of them performs it, allows two requests to cause any number of deliveries |
| `TelnetLoops.DrainsIff` | include/telnet_protocol.hpp:304-434 | over all runs of all four verbs: deliveries are bounded by four per request if and only if the policies have no option that both ends accept |
| `TelnetNegotiation.OptionNegotiator.Ask` | include/telnet_protocol.hpp:317-332 | dispatches a request to the option state of the right side; other verbs do nothing |
| `TelnetNegotiation.OptionNegotiator.Answer` | include/telnet_protocol.hpp:336-353 | dispatches a received verb to the option state of the right side with the right policy |
| `TelnetNegotiation.OptionNegotiator.RequestEnable` | include/telnet_protocol.hpp:374-383 | in-place request to enable |
| `TelnetNegotiation.OptionNegotiator.RequestDisable` | include/telnet_protocol.hpp:385-395 | in-place request to disable |
| `TelnetNegotiation.OptionNegotiator.Enable` | include/telnet_protocol.hpp:397-418 | in-place handling of an enabling verb |
| `TelnetNegotiation.OptionNegotiator.Disable` | include/telnet_protocol.hpp:420-429 | in-place handling of a disabling verb |
| `PoolHost.ExtractNewest` | include/connection_pool.hpp:385-403 | on an idle stack sorted by age the newest connection is handed out if young enough; otherwise all were too old |
| `PoolHost.StepKeepsInv` | include/connection_pool.hpp:267-338 | every step of every coroutine keeps conservation, exclusivity, order of the idle stack and well-formedness of the queue |
| `PoolHost.WakeUpLostIff` | include/connection_pool.hpp:429-459 | a step loses a wake-up if and only if it gives a slot back while the front waiter's timer has already fired, others queue behind it and every other free slot is already promised |
| `PoolHost.AlwaysConserved` | include/connection_pool.hpp:267-338 | in every run activeCount is live leases plus connects in progress, activeCount plus idle stays within the limit, no connection is in two places and the idle list is sorted |
| `PoolHost.NoLostWakeUpIff` | include/connection_pool.hpp:274-309 | throughout a run the free slots never outnumber the notified waiters while somebody is queued: if and only if no step of the run gives a slot back to a fired front timer with others behind it and every free slot promised |
| `PoolHost.NoLostWakeUpWithAtomicTimers` | include/connection_pool.hpp:440-459 | with a timer's expiry and its removal from the queue as one step, no wake-up is lost in any state of any run |
| `PoolHost.LostWakeUpHappens` | include/connection_pool.hpp:429-459 | a concrete run with one slot and two waiters that leaves a waiter queued beside an idle connection with nobody notified |
| `PoolHost.DecrementNeverAtZero` | include/connection_pool.hpp:326-329 | in every run the guarded decrements find a positive count |
| `PoolHost.ReusesNewest` | include/connection_pool.hpp:272-284 | in every reachable state an acquire takes the most recently used connection if within the timeout of its start, and finds none only if all are expired |
| `PoolHost.WokenFromTheFront` | include/connection_pool.hpp:429-438 | a waiter is notified only from the front of the queue and leaves it thereby |
| `PoolHost.NobodyOvertakes` | include/connection_pool.hpp:429-459 | no step lets a waiter overtake another, and whoever joins the queue comes last |
| `PoolHost.StartStays` | include/connection_pool.hpp:272-284 | an acquire keeps the starting time of its call through all its waits |
| `PoolConnections.ReleaseMoves` | include/connection_pool.hpp:315-338 | a valid lease given back is on top of the idle stack as used just now; an invalid one is gone |
| `PoolConnections.HasIff` | include/connection_pool.hpp:267-338 | after a step the pool has exactly the connections it had, less the one given back as invalid or handed out and less all idle ones if all were too old, plus the one just opened |
| `PoolConnections.InvalidIff` | include/connection_pool.hpp:167-172 | a lease is invalid after a step exactly if it was before or has just been marked; so what is handed out is valid |
| `PoolConnections.MarkedNeverReused` | include/connection_pool.hpp:167-172 | in every run a connection once marked is never idle again |
| `PoolConnections.NoConnectionLost` | include/connection_pool.hpp:331-335 | in every run without marking or handing out, within the idle timeout, every connection ever opened is leased or idle |
| `ConnectionPool.Pool.ExtractIdle` | include/connection_pool.hpp:385-403 | the draining loop computes the specified extraction |
| `ConnectionPool.Pool.AcquireTurn` | include/connection_pool.hpp:274-309 | one turn of the acquire loop reuses, connects or queues as specified, on this endpoint only |
| `ConnectionPool.Pool.NotifyWaiter` | include/connection_pool.hpp:429-438 | pops and reports the front waiter of this endpoint |
| `ConnectionPool.Pool.ReturnConnection` | include/connection_pool.hpp:315-338 | gives a slot back, keeps the connection only if valid, and wakes the front waiter |
| `ConnectionPool.Pool.ConnectFailed` | include/connection_pool.hpp:415-424 | a failed connect gives its slot back and wakes the front waiter |
| `ConnectionPool.Pool.RemoveWaiter` | include/connection_pool.hpp:452-457 | erases the timed-out waiter from the queue |
| `ConnectionPool.PooledConnection.constructor` | include/connection_pool.hpp:88-93 | a new lease is live and valid |
| `ConnectionPool.PooledConnection.MoveFrom` | include/connection_pool.hpp:103-108 | move construction transfers the lease and empties the source |
| `ConnectionPool.PooledConnection.MoveAssign` | include/connection_pool.hpp:110-122 | move assignment returns what the target held, if anything, transfers the lease and empties the source; self-assignment changes neither the lease nor the pool |
| `ConnectionPool.PooledConnection.MarkInvalid` | include/connection_pool.hpp:167-172 | clears the valid flag |
| `ConnectionPool.PooledConnection.Release` | include/connection_pool.hpp:467-477 | returns the slot exactly if the lease is live, with the connection exactly if valid, and empties the lease |
| `ConnectionPool.PooledConnection.ReleaseClient` | include/connection_pool.hpp:176-185 | hands the connection out and returns the slot without it |
| `Leases.StepKeeps` | include/connection_pool.hpp:86-122 | every operation on lease variables keeps: no slot held twice, none returned while held, none lost, none returned twice |
| `Leases.EverySlotGoesBackOnce` | include/connection_pool.hpp:95-122 | for every program over lease variables, moves and self-assignment included, each slot is returned at most once, is either held or returned, and once all variables are gone has been returned; a connection is kept exactly if it was neither marked invalid nor taken out |
| `Executors.AttemptBalanced` | include/webclient.hpp:376-430 | one attempt takes and returns at most one lease and keeps the connection only after a complete response with keep-alive on both sides |
| `Executors.LeaseBalanced` | include/webclient.hpp:376-430 | for every sequence of outcomes an execution never holds two leases, leaves none behind and returns each exactly once, in order |
| `Executors.KeptIff` | include/webclient.hpp:630-789 | at most the last lease of an execution puts its connection back into idle, and it does if and only if that attempt received a full response with keep-alive on both sides |
| `Executors.SucceedsIff` | include/webclient.hpp:630-721 | the loop succeeds exactly if some attempt within the limit brings a response with no abort before it, stops exactly there, and otherwise makes every attempt |
| `Executors.ReportsLastError` | include/webclient.hpp:640-683 | a failing attempt contributes its own error code, an unwelcome status the refused connection |
| `Executors.Execute` | include/webclient.hpp:376-430 | success if and only if one of the first max(1, maxTries) attempts receives a response, and then at the first such one; otherwise all attempts were made and the last error code is reported; the lease operations are those of the attempts made |
| `Executors.FileAttempt` | include/webclient.hpp:640-717 | one turn of the file executor: its lease operations, whether it ends the loop, its result |
| `Executors.ExecuteToFile` | include/webclient.hpp:630-721 | the same for the file executor, which a file that cannot be opened ends at once |
| `TaskQueue.FreeClient` | include/taskqueue.hpp:206-217 | the first available client, none before it being available |
| `TaskQueue.RemovedIff` | include/taskqueue.hpp:135-146 | after a failure a client is still there if and only if it was there, is not the failed one and is open |
| `TaskQueue.StepConserves` | include/taskqueue.hpp:89-134 | every step keeps each added task in exactly one of queued, in flight and finished |
| `TaskQueue.TasksConserved` | include/taskqueue.hpp:77-194 | in every run, under any connect failures and task errors, the added tasks are exactly the queued, in-flight and finished ones as multisets |
| `TaskQueue.FirstComeFirstServed` | include/taskqueue.hpp:175-180 | with back insertions only, tasks are started in the order they were added |
| `TaskQueueProgress.StepBusy` | include/taskqueue.hpp:77-194 | every step keeps: a client is unavailable only while a task is about to run or runs on it |
| `TaskQueueProgress.Advance` | include/taskqueue.hpp:108-194 | from any such state with queued tasks, an endpoint and a client allowed, steps without failure start the front task or reach a running task whose end starts it |
| `TaskQueueProgress.NeverStrandedIff` | include/taskqueue.hpp:77-194 | in every run, under any failures so far, the front task can still be started if nothing fails from now on: if and only if at least one client is allowed |
| `TaskQueueParallel.SearchGoesOn` | include/taskqueue.hpp:89-194 | the number of coroutines looking for work changes exactly by: one less when a search starts a task or finds nothing at its start, one more for a failed task, an endpoint, or a task added to a short queue |
| `TaskQueueParallel.TaskHoldsClient` | include/taskqueue.hpp:108-123 | a client is unavailable from the start of its task to its end and then available or on the next task; other clients are untouched |
| `TaskQueueParallel.AllRunAtOnce` | include/taskqueue.hpp:89-106 | as many tasks as clients are allowed can be on a client of their own at the same time |
| `TaskQueueObject.Tasks.SetEndPoint` | include/taskqueue.hpp:77-84 | stores the endpoint and spawns a processing coroutine |
| `TaskQueueObject.Tasks.Add` | include/taskqueue.hpp:89-106 | inserts at the chosen end and spawns a coroutine if the deque was short |
| `TaskQueueObject.Tasks.TakeTask` | include/taskqueue.hpp:175-180 | takes the front task |
| `TaskQueueObject.Tasks.GetFreeClient` | include/taskqueue.hpp:206-217 | the search loop acquires the first available client |
| `TaskQueueObject.Tasks.RemoveClient` | include/taskqueue.hpp:135-146 | removes the failed client and all closed ones |
| `TaskQueueObject.Tasks.ProcessTasks` | include/taskqueue.hpp:147-174 | one run of the processing coroutine up to its suspension or end |
| `TaskQueueObject.Tasks.OnConnected` | include/taskqueue.hpp:181-194 | continuation after a connect: takes a task or, with none left, releases the client |
| `TaskQueueObject.Tasks.StartHandleTask` | include/taskqueue.hpp:108-111 | start of a task on its client |
| `TaskQueueObject.Tasks.FinishHandleTask` | include/taskqueue.hpp:112-134 | end of a task: next task on the same client, or client removed and processing respawned |
| `EventQueue.ExpiredIff` | include/eventqueue.hpp:203-212 | for all clock readings and ids, an event counts as too old exactly from 61000 clock ticks after its id on, up to the sign change of the 64-bit difference; ids are microseconds, so after 61 milliseconds |
| `EventQueue.ExpiredAfterOneSecond` | include/eventqueue.hpp:203-212 | an event one second old is already given up |
| `EventQueue.HandlerFindsEvent` | include/eventqueue.hpp:161-198 | a handler that has not settled its event finds it in the table with the text it is sending |
| `EventQueue.RetriedFirst` | include/eventqueue.hpp:199-216 | a send that fails within the time to live is queued again at the front, with the same event |
| `EventQueue.QueuesBehind` | include/eventqueue.hpp:225-249 | new events and barriers queue behind everything that waits |
| `EventQueue.HandlerProceeds` | include/eventqueue.hpp:161-198 | a handler passes its suspensions in order on the same client, ends after the final word, and on failure a new search begins |
| `EventQueue.StepKeepsIff` | include/eventqueue.hpp:161-249 | a step keeps the one-to-one relation between events and unsettled send tasks if and only if it does not add an event under an id still in the table |
| `EventQueue.LeavesIff` | include/eventqueue.hpp:161-216 | an event leaves the table if and only if its own task is confirmed with DONE, its provider succeeds, or it fails past the time to live; otherwise its text stays |
| `EventQueue.EventsAccountedIff` | include/eventqueue.hpp:161-249 | throughout a run each event in the table has exactly one unsettled send task and an id outside it has none: if and only if no event was added under an id still in the table |
| `EventQueue.SharedIdLosesAnEvent` | include/eventqueue.hpp:236-249 | two events in the same microsecond leave two send tasks and one entry |
| `EventQueue.ResendAlwaysFinds` | include/eventqueue.hpp:199-216 | in every run, re-sending looks up an entry that exists |
| `EventQueueProgress.StepLive` | include/eventqueue.hpp:161-249 | every step without a reused id keeps the accounts, the liveness of the task queue and the handler stages |
| `EventQueueProgress.Settle` | include/eventqueue.hpp:161-249 | constructs, from any live state, a continuation without failure after which the event is confirmed |
| `EventQueueProgress.EventNeverStranded` | include/eventqueue.hpp:161-249 | in every run without a reused id, with an endpoint and a client allowed, every event in the table can still be confirmed if nothing fails from now on |
| `EventQueueObject.Events.Add` | include/eventqueue.hpp:236-249 | records the event and queues its send task |
| `EventQueueObject.Events.RemoveEvent` | include/eventqueue.hpp:126-129 | erases the entry |
| `EventQueueObject.Events.ResendEvent` | include/eventqueue.hpp:199-216 | drops an expired event, otherwise queues it again at the front |
| `EventQueueObject.Events.OnSendFailed` | include/eventqueue.hpp:166-180 | a failing send re-queues or drops its event and fails its task |
| `EventQueueObject.Events.OnDone` | include/eventqueue.hpp:182-186 | a DONE answer removes the event and finishes the task |
| `Gather.ZeroMeansAll` | include/when_all.hpp:31-39 | the counter is zero exactly if every task has completed |
| `Gather.StepKeeps` | include/when_all.hpp:31-97 | every step of caller and tasks keeps the counter exact, each slot pair filled on exactly one side, and the caller woken only by the last completion |
| `Gather.ResumesAfterAll` | include/when_all.hpp:31-47 | in every interleaving the caller goes on only after all tasks have completed |
| `Gather.NeverHangs` | include/when_all.hpp:76-97 | with the post at the start of each task, no interleaving leaves the caller waiting after the last completion |
| `Gather.NeverHangsIff` | include/when_all.hpp:85-86 | no interleaving of any number of tasks leaves the caller waiting for ever if and only if each task posts itself before it runs |
| `Gather.SlotsFollowOutcomes` | include/when_all.hpp:76-97 | from any point of any run a slot changes exactly by its own task's return, to that outcome |
| `Gather.ResumesAtMostOnce` | include/when_all.hpp:42-47 | the caller goes on at most once |
| `WhenAll.WhenAllResult` | include/when_all.hpp:196-284 | in every run the result is the values in input order if all tasks succeeded, and otherwise the error of the lowest index |
| `WhenAll.Collect` | include/when_all.hpp:98-110 | the two loops rethrow the first stored error or unwrap all values |
| `WhenAll.WhenAll` | include/when_all.hpp:196-284 | what the caller gets, in terms of what each task returned |
| `WhenAll.TaskBarrier.OnCompletion` | include/when_all.hpp:31-39 | the in-place counter and wake-up follow the machine |
| `WhenAny.WinnerIsFirstSuccess` | include/when_any.hpp:110-138 | from any point of a race the recorded winner is the first task to succeed, once and for all |
| `WhenAny.StopsAtFirstCompletion` | include/when_any.hpp:35-52 | the stop is requested exactly once, at the first completion, successful or not |
| `WhenAny.WhenAnyResult` | include/when_any.hpp:296-390 | for every interleaving of n >= 1 tasks: resume only after all, winner is the first success with its value stored and no error, none exactly if all failed, one stop at the first completion, no hang |
| `WhenAny.Conclude` | include/when_any.hpp:364-389 | rethrows, returns the winner or reports no value, by the winner's slots |
| `WhenAny.WhenAny` | include/when_any.hpp:296-390 | the caller gets the first success, or no value exactly if every task failed; the rethrowing branch is never taken |
| `WhenAny.UncheckedReadInRangeIff` | include/when_any.hpp:467-484 | for the caller that goes on, the overload for plain awaitables reads inside its vector if and only if some task returned a value |
| `WhenAny.UncheckedReadOutOfRange` | include/when_any.hpp:467-484 | with a single task that fails, the caller goes on and reads at index 1 of a vector of length 1 |
| `WhenAny.RaceBarrier.OnCompletion` | include/when_any.hpp:35-52 | the in-place counter, flag and wake-up follow the race |
| `Query.DecodeEncode` | include/http_target_parser.hpp:61-97 | decoding an encoded byte string gives it back |
| `Query.ByteForm` | examples/redfish_graphql_dbus_client/graphql_dbus_bridge.hpp:585-602 | an unreserved character stands for itself, any other byte is a percent sign and its two upper-case digits |
| `Query.LeftAloneIff` | examples/redfish_graphql_dbus_client/graphql_dbus_bridge.hpp:585-602 | encoding leaves a text alone exactly if it is unreserved throughout |
| `Query.DecodesAnyStyle` | include/http_target_parser.hpp:61-97 | every way of writing a text, bytes as they are or escaped with digits of either case, blanks as plus signs, decodes to it |
| `Query.UnchangedIff` | include/http_target_parser.hpp:61-97 | decoding leaves a text alone exactly if it has no plus sign and no complete escape |
| `Query.EncodedIsClean` | examples/redfish_graphql_dbus_client/graphql_dbus_bridge.hpp:585-602 | encoded text contains no delimiter |
| `Query.PiecesFirst` | include/utilities.hpp:14-25 | splitting peels off the text before the first delimiter |
| `Query.PiecesClean` | include/utilities.hpp:14-25 | no piece contains the delimiter or anything the text did not contain |
| `Query.JoinParses` | include/http_target_parser.hpp:99-123 | joined parameters parse back, one by one and in order |
| `Query.ParameterShape` | include/http_target_parser.hpp:112-121 | a parameter needs a non-empty name and an equals sign; a second equals sign cuts its value off |
| `Query.SecondQuestionIgnored` | include/http_target_parser.hpp:99-123 | what follows a second question mark does not matter, and a target without any is all path |
| `Query.ParsedIsClean` | include/http_target_parser.hpp:99-123 | names and path returned for any target with a slash are non-empty where required and free of delimiters |
| `Query.TargetParses` | include/http_target_parser.hpp:99-123 | a target built from a delimiter-free path and good keys parses back to path and original values |
| `Query.RoundTripIff` | include/webclient.hpp:327-337 | the round trip succeeds if and only if path and keys are free of the delimiters and a slash is present, or there is nothing to lose |
| `Query.NoSlashNoParameters` | include/http_target_parser.hpp:99-123 | a path without a slash loses its parameter |
| `Query.LookupAfterRoundTrip` | include/http_target_parser.hpp:44-53 | with distinct keys the handler finds every original value under its key |
| `Query.LookupMissing` | include/http_target_parser.hpp:44-53 | a name that is not there has the empty value |
| `Query.EncodeValue` | examples/redfish_graphql_dbus_client/graphql_dbus_bridge.hpp:585-602 | the encoding loop computes the specified encoding |
| `Query.DecodeValue` | include/http_target_parser.hpp:61-97 | the index loop computes the specified decoding, malformed and cut escapes included |
| `Query.BuildTarget` | include/webclient.hpp:327-337 | the accumulating loop builds path, question mark and joined parameters |
| `Query.ParseFunction` | include/http_target_parser.hpp:99-123 | the parsing loop computes the specified parse |
| `WatcherIndex.KeyInjective` | examples/graphql_server/ql_dbus_property_watcher.hpp:28-29 | NUL-joined keys are equal exactly if the triples are, for NUL-free object and interface names |
| `WatcherIndex.IndexIsScan` | examples/graphql_server/ql_dbus_property_watcher.hpp:24-38 | looking a key up in the built index is scanning the table for the triple |
| `WatcherIndex.ResolveOrder` | examples/graphql_server/ql_dbus_property_watcher.hpp:47-67 | the resolved fields are those of the four levels from most to least specific, in table order |
| `WatcherIndex.IndexAgreesWithScan` | examples/graphql_server/ql_dbus_property_watcher.hpp:47-67 | each field is resolved as often as the interested watchers list it, doubled for an empty object and doubled for an empty property |
| `WatcherIndex.IndexAgreesIff` | examples/graphql_server/ql_dbus_property_watcher.hpp:47-67 | index and scan agree as multisets if and only if object and property are non-empty or no watcher is interested |
| `WatcherIndex.FoundFourTimes` | examples/graphql_server/ql_dbus_property_watcher.hpp:47-67 | a watcher for a whole interface is resolved four times for an empty object and property |
| `WatcherIndex.BuildIndex` | examples/graphql_server/ql_dbus_property_watcher.hpp:24-38 | the nested loops build the specified index |
| `WatcherIndex.Collect` | examples/graphql_server/ql_dbus_property_watcher.hpp:52-61 | appends the fields stored under a key, none if absent |
| `WatcherIndex.ResolveFields` | examples/graphql_server/ql_dbus_property_watcher.hpp:47-67 | the four lookups in order |

## Left out

- Sockets, TLS, HTTP parsing, SSH, PAM, certificates, I2C, inotify, archives: their results are nondeterministic outcomes of steps.
- D-Bus wrappers, object registration and the GraphQL executor: thin layers over code that is not part of this model.
- `ConnectionPool::clear` with leases outstanding: it zeroes the counters; only the destructor calls it, when no lease exists.
- Client exclusivity and the bound on clients in the task queue: the code does not keep them across suspensions. References to clients already removed are modelled as identifiers, so dangling is not visible.
- Exceptions that escape from a task of the task queue, and coroutine frames destroyed with their executor.
- The single-slot mailbox of the SSE stream and `executeAsStream`: an unread frame can be overwritten, so there is no delivery to prove.
- `JsonSerializer`, saving and loading of event queues: they rest on a JSON library that is not part of this model.
- The contents of the EBCDIC table: it is a parameter whose entries up to 0x40 are blank.
- Terminal rendering, logging, command lines, configuration files, baud rates.
- Real time beyond a clock that does not go back.
- The variadic overloads of `when_all` and `when_any`: same barriers as the vector overloads.
- `extract_params_from_path` (matches a path against a pattern with named segments) and `join` (concatenates with a separator).
- Executors.Execute: `BufferExecutor::execute` has the same loop and is covered by the same method; the response body is reduced to whether it was received, and the script is limited to the outcomes this loop can have.
- Parser5250.Process: requires fill rows on the screen, because for all others the source does not terminate (`Parser5250.HaltsIff`).
- Screen5250.ScreenModel.RepeatToAddress: requires a target in the ring for the same reason (`Screen5250.FillEndsIff`).
- EmulatorDevice.Receive: requires that the read does not hang the parser, for the same reason.
- TelnetNegotiation.ReplyOnlyToRequests: speaks of states that WILL and DO requests lead to; it is false of others (`TelnetLoops.PingPong`).
- TelnetNegotiation.EnablingDrains: speaks of WILL and DO requests only, because with WONT and DONT the bound depends on the policies; `TelnetLoops.DrainsIff` is the statement for all four verbs.
- TelnetNegotiation.EnablingSettles: speaks of WILL and DO requests only, because a withdrawal may come before or after the answer; `TelnetAgreement.NegotiationAgrees` is the agreement for all four verbs.
- ConnectionPool.PooledConnection.MarkInvalid: does not model the reset of the client's parser state, which belongs to the HTTP client.
- WhenAny.WhenAnyResult: a task that ends by cancellation counts as failed with an error, while the source leaves its error slot empty; nothing that is stated depends on the slots of losers.
- WatcherIndex.IndexIsScan: assumes NUL-free object and interface names, as D-Bus names are.
