/** The telnet wire format (RFC 854, RFC 855): an incremental decoder and its encoder. */
module TelnetCodec {
  import opened Bytes
  import opened Options

  const SE: byte := 240
  const SB: byte := 250
  const WILL: byte := 251
  const WONT: byte := 252
  const DO: byte := 253
  const DONT: byte := 254
  const IAC: byte := 255

  const NUL: byte := 0
  const CR: byte := 13

  const MAX_SUBNEGOTIATION: nat := 1024

  predicate IsVerb(c: byte)
  {
    WILL <= c <= DONT
  }

  datatype Event =
    | Negotiation(verb: byte, option: byte)
    | Subnegotiation(option: byte, payload: bytes)
    | Command(code: byte)

  datatype Mode = Data | Cr | Iac | Verb | SbOption | SbData | SbIac

  /** The decoder's fields together with the two buffers it appends to. */
  datatype Decoder = Decoder(mode: Mode, verb: byte, sbOption: byte, sbPayload: bytes, data: bytes, events: seq<Event>)

  function DataByte(d: Decoder, c: byte): Decoder
  {
    if c == IAC then d.(mode := Iac) else d.(data := d.data + [c], mode := if c == CR then Cr else Data)
  }

  function OnIac(d: Decoder, c: byte): Decoder
  {
    if c == IAC then d.(data := d.data + [IAC], mode := Data)
    else if IsVerb(c) then d.(verb := c, mode := Verb)
    else if c == SB then d.(mode := SbOption)
    else d.(events := d.events + [Command(c)], mode := Data)
  }

  function SbPush(d: Decoder, c: byte): Decoder
  {
    if |d.sbPayload| < MAX_SUBNEGOTIATION then d.(sbPayload := d.sbPayload + [c]) else d
  }

  function Step(d: Decoder, c: byte): Decoder
  {
    match d.mode
    case Data => DataByte(d, c)
    case Cr => if c == NUL then d.(mode := Data) else DataByte(d, c)
    case Iac => OnIac(d, c)
    case Verb => d.(events := d.events + [Negotiation(d.verb, c)], mode := Data)
    case SbOption => d.(sbOption := c, sbPayload := [], mode := SbData)
    case SbData => if c == IAC then d.(mode := SbIac) else SbPush(d, c)
    case SbIac =>
      if c == SE then d.(events := d.events + [Subnegotiation(d.sbOption, d.sbPayload)], sbPayload := [], mode := Data)
      else if c == IAC then SbPush(d, c).(mode := SbData)
      else d.(sbPayload := [], events := d.events + [Command(c)], mode := Data)
  }

  const FRESH := Decoder(Data, 0, 0, [], [], [])

  // ---- Encoding ----

  function Double(c: byte): bytes
  {
    if c == IAC then [c, c] else [c]
  }

  function EscapeIac(s: bytes): bytes
  {
    if s == [] then [] else Double(s[0]) + EscapeIac(s[1..])
  }

  function Negotiate(verb: byte, option: byte): bytes
  {
    [IAC, verb, option]
  }

  function Subnegotiate(option: byte, payload: bytes): bytes
  {
    [IAC, SB, option] + EscapeIac(payload) + [IAC, SE]
  }

  // ---- What is sent, and what should arrive ----

  datatype Item =
    | Text(text: bytes)
    | Neg(verb: byte, option: byte)
    | Sub(option: byte, payload: bytes)
    | Cmd(code: byte)

  /** A command is any code that does not introduce or stand for something else. */
  predicate IsCommand(c: byte)
  {
    !IsVerb(c) && c != SB && c != IAC
  }

  predicate Sendable(item: Item)
  {
    (item.Neg? ==> IsVerb(item.verb)) && (item.Cmd? ==> IsCommand(item.code))
  }

  predicate WellFormed(items: seq<Item>)
  {
    forall i :: 0 <= i < |items| ==> Sendable(items[i])
  }

  function Wire(item: Item): bytes
  {
    match item
    case Text(s) => EscapeIac(s)
    case Neg(verb, option) => Negotiate(verb, option)
    case Sub(option, payload) => Subnegotiate(option, payload)
    case Cmd(code) => [IAC, code]
  }

  function WireAll(items: seq<Item>): bytes
  {
    if items == [] then [] else Wire(items[0]) + WireAll(items[1..])
  }

  function Cut(payload: bytes): bytes
  {
    if |payload| <= MAX_SUBNEGOTIATION then payload else payload[..MAX_SUBNEGOTIATION]
  }

  function ItemEvents(item: Item): seq<Event>
  {
    match item
    case Text(_) => []
    case Neg(verb, option) => [Negotiation(verb, option)]
    case Sub(option, payload) => [Subnegotiation(option, Cut(payload))]
    case Cmd(code) => [Command(code)]
  }

  function Events(items: seq<Item>): seq<Event>
  {
    if items == [] then [] else ItemEvents(items[0]) + Events(items[1..])
  }

  function Texts(items: seq<Item>): bytes
  {
    if items == [] then [] else (if items[0].Text? then items[0].text else []) + Texts(items[1..])
  }

  /** The data without each NUL that directly follows a carriage return; `cr` tells whether
      the byte before `s` was one. */
  function Kept(cr: bool, s: bytes): bytes
    decreases |s|
  {
    if s == [] then []
    else (if cr && s[0] == NUL then [] else [s[0]]) + Kept(s[0] == CR, s[1..])
  }

  /** Is the last byte on the wire a carriage return of the data? */
  function EndsInCr(cr: bool, item: Item): bool
  {
    if !item.Text? then false else if item.text == [] then cr else item.text[|item.text| - 1] == CR
  }

  function KeptAll(cr: bool, items: seq<Item>): bytes
    decreases |items|
  {
    if items == [] then []
    else (if items[0].Text? then Kept(cr, items[0].text) else []) + KeptAll(EndsInCr(cr, items[0]), items[1..])
  }

  function LastInCr(cr: bool, items: seq<Item>): bool
    decreases |items|
  {
    if items == [] then cr else LastInCr(EndsInCr(cr, items[0]), items[1..])
  }

  /** Somewhere a NUL of the data directly follows a carriage return of the data. */
  predicate HasCrNul(cr: bool, s: bytes)
    decreases |s|
  {
    s != [] && ((cr && s[0] == NUL) || HasCrNul(s[0] == CR, s[1..]))
  }

  predicate AnyCrNul(cr: bool, items: seq<Item>)
    decreases |items|
  {
    items != [] &&
    ((items[0].Text? && HasCrNul(cr, items[0].text)) || AnyCrNul(EndsInCr(cr, items[0]), items[1..]))
  }

  // ---- Round trip ----

  ghost predicate AtRest(d: Decoder)
  {
    d.mode == Data || d.mode == Cr
  }

  function Resting(d: Decoder, cr: bool): Decoder
  {
    d.(mode := if cr then Cr else Data)
  }

  lemma DoubleDecodes(d: Decoder, c: byte)
    requires AtRest(d)
    ensures Fold(Step, d, Double(c)) ==
      Resting(d.(data := d.data + if d.mode == Cr && c == NUL then [] else [c]), c == CR)
  {
    if c == IAC {
      FoldTwo(Step, d, c, c);
    } else {
      FoldOne(Step, d, c);
    }
  }

  lemma FirstDecodes(d: Decoder, s: bytes)
    requires AtRest(d) && s != []
    ensures var here := if d.mode == Cr && s[0] == NUL then [] else [s[0]];
      Fold(Step, d, EscapeIac(s)) ==
        Fold(Step, Resting(d.(data := d.data + here), s[0] == CR), EscapeIac(s[1..]))
  {
    FoldAppend(Step, d, Double(s[0]), EscapeIac(s[1..]));
    DoubleDecodes(d, s[0]);
  }

  lemma EndsInCrTail(cr: bool, s: bytes)
    requires s != []
    ensures EndsInCr(cr, Text(s)) == EndsInCr(s[0] == CR, Text(s[1..]))
  {
    assert s[1..] != [] ==> s[1..][|s[1..]| - 1] == s[|s| - 1];
  }

  lemma {:induction false} TextDecodes(d: Decoder, s: bytes)
    requires AtRest(d)
    ensures Fold(Step, d, EscapeIac(s)) ==
      Resting(d.(data := d.data + Kept(d.mode == Cr, s)), EndsInCr(d.mode == Cr, Text(s)))
    decreases |s|
  {
    if s == [] {
      assert d.data + [] == d.data;
    } else {
      var here := if d.mode == Cr && s[0] == NUL then [] else [s[0]];
      var d1 := Resting(d.(data := d.data + here), s[0] == CR);
      FirstDecodes(d, s);
      TextDecodes(d1, s[1..]);
      AppendAssociates(d.data, here, Kept(s[0] == CR, s[1..]));
      EndsInCrTail(d.mode == Cr, s);
    }
  }

  lemma PushDecodes(d: Decoder, c: byte)
    requires d.mode == SbData && |d.sbPayload| <= MAX_SUBNEGOTIATION
    ensures Fold(Step, d, Double(c)) == d.(sbPayload := Cut(d.sbPayload + [c]))
  {
    assert |d.sbPayload| == MAX_SUBNEGOTIATION ==> (d.sbPayload + [c])[..MAX_SUBNEGOTIATION] == d.sbPayload;
    if c == IAC {
      FoldTwo(Step, d, c, c);
    } else {
      FoldOne(Step, d, c);
    }
  }

  lemma {:induction false} PayloadDecodes(d: Decoder, p: bytes)
    requires d.mode == SbData && |d.sbPayload| <= MAX_SUBNEGOTIATION
    ensures Fold(Step, d, EscapeIac(p)) == d.(sbPayload := Cut(d.sbPayload + p))
    decreases |p|
  {
    if p == [] {
      assert d.sbPayload + p == d.sbPayload;
    } else {
      var d1 := d.(sbPayload := Cut(d.sbPayload + [p[0]]));
      assert Fold(Step, d, EscapeIac(p)) == Fold(Step, d1, EscapeIac(p[1..])) by {
        FoldAppend(Step, d, Double(p[0]), EscapeIac(p[1..]));
        PushDecodes(d, p[0]);
      }
      PayloadDecodes(d1, p[1..]);
      assert Cut(d1.sbPayload + p[1..]) == Cut(d.sbPayload + p) by {
        CutAbsorbs(d.sbPayload + [p[0]], p[1..]);
        assert d.sbPayload + [p[0]] + p[1..] == d.sbPayload + p;
      }
    }
  }

  lemma CutAbsorbs(a: bytes, b: bytes)
    ensures Cut(Cut(a) + b) == Cut(a + b)
  {
  }

  lemma NegDecodes(d: Decoder, verb: byte, option: byte)
    requires AtRest(d) && IsVerb(verb)
    ensures Fold(Step, d, Negotiate(verb, option)) ==
      d.(verb := verb, mode := Data, events := d.events + [Negotiation(verb, option)])
  {
    assert Negotiate(verb, option) == [IAC, verb] + [option];
    FoldSnoc(Step, d, [IAC, verb], option);
    FoldTwo(Step, d, IAC, verb);
  }

  lemma SubStarts(d: Decoder, option: byte)
    requires AtRest(d)
    ensures Fold(Step, d, [IAC, SB, option]) == d.(sbOption := option, sbPayload := [], mode := SbData)
  {
    assert [IAC, SB, option] == [IAC, SB] + [option];
    FoldSnoc(Step, d, [IAC, SB], option);
    FoldTwo(Step, d, IAC, SB);
  }

  lemma SubDecodes(d: Decoder, option: byte, payload: bytes)
    requires AtRest(d)
    ensures Fold(Step, d, Subnegotiate(option, payload)) ==
      d.(sbOption := option, sbPayload := [], mode := Data,
         events := d.events + [Subnegotiation(option, Cut(payload))])
  {
    var d1 := d.(sbOption := option, sbPayload := [], mode := SbData);
    SubStarts(d, option);
    var d2 := d1.(sbPayload := Cut(payload));
    assert Fold(Step, d1, EscapeIac(payload)) == d2 by {
      PayloadDecodes(d1, payload);
      assert [] + payload == payload;
    }
    FoldTwo(Step, d2, IAC, SE);
    FoldAppend(Step, d, [IAC, SB, option], EscapeIac(payload));
    FoldAppend(Step, d, [IAC, SB, option] + EscapeIac(payload), [IAC, SE]);
  }

  /** Same data, events and resting mode; the scratch fields may differ. */
  ghost predicate Delivers(d: Decoder, data: bytes, events: seq<Event>, cr: bool)
  {
    d.mode == (if cr then Cr else Data) && d.data == data && d.events == events
  }

  lemma ItemDecodes(d: Decoder, item: Item)
    requires AtRest(d) && Sendable(item)
    ensures Delivers(Fold(Step, d, Wire(item)),
                     d.data + (if item.Text? then Kept(d.mode == Cr, item.text) else []),
                     d.events + ItemEvents(item), EndsInCr(d.mode == Cr, item))
  {
    match item
    case Text(s) => TextDecodes(d, s);
    case Neg(verb, option) => NegDecodes(d, verb, option);
    case Sub(option, payload) => SubDecodes(d, option, payload);
    case Cmd(code) => FoldTwo(Step, d, IAC, code);
  }

  /** A command in the middle of a subnegotiation is delivered and ends it; what had been
      collected is lost. */
  lemma CommandEndsSub(d: Decoder, option: byte, payload: bytes, code: byte)
    requires AtRest(d) && code != SE && code != IAC
    ensures Fold(Step, d, [IAC, SB, option] + EscapeIac(payload) + [IAC, code]) ==
      d.(sbOption := option, sbPayload := [], mode := Data, events := d.events + [Command(code)])
  {
    SubStarts(d, option);
    var d1 := d.(sbOption := option, sbPayload := [], mode := SbData);
    PayloadDecodes(d1, payload);
    var d2 := d1.(sbPayload := Cut([] + payload));
    FoldTwo(Step, d2, IAC, code);
    FoldAppend(Step, d, [IAC, SB, option], EscapeIac(payload));
    FoldAppend(Step, d, [IAC, SB, option] + EscapeIac(payload), [IAC, code]);
  }

  lemma {:induction false} AllDecode(d: Decoder, items: seq<Item>)
    requires AtRest(d) && WellFormed(items)
    ensures Delivers(Fold(Step, d, WireAll(items)), d.data + KeptAll(d.mode == Cr, items),
                     d.events + Events(items), LastInCr(d.mode == Cr, items))
    decreases |items|
  {
    if items != [] {
      var item, rest := items[0], items[1..];
      assert items == [item] + rest;
      var d1 := Fold(Step, d, Wire(item));
      FoldAppend(Step, d, Wire(item), WireAll(rest));
      ItemDecodes(d, item);
      AllDecode(d1, rest);
      DeliversAppend(d, d1, Fold(Step, d1, WireAll(rest)), item, rest);
    }
  }

  lemma DeliversAppend(d: Decoder, d1: Decoder, d2: Decoder, item: Item, rest: seq<Item>)
    requires Delivers(d1, d.data + (if item.Text? then Kept(d.mode == Cr, item.text) else []),
                      d.events + ItemEvents(item), EndsInCr(d.mode == Cr, item))
    requires Delivers(d2, d1.data + KeptAll(d1.mode == Cr, rest), d1.events + Events(rest),
      LastInCr(d1.mode == Cr, rest))
    ensures Delivers(d2, d.data + KeptAll(d.mode == Cr, [item] + rest), d.events + Events([item] + rest),
                     LastInCr(d.mode == Cr, [item] + rest))
  {
    ItemsCons(d.mode == Cr, item, rest);
    var data := if item.Text? then Kept(d.mode == Cr, item.text) else [];
    AppendAssociates(d.data, data, KeptAll(d1.mode == Cr, rest));
    AppendAssociates(d.events, ItemEvents(item), Events(rest));
  }

  lemma ItemsCons(cr: bool, item: Item, rest: seq<Item>)
    ensures KeptAll(cr, [item] + rest) ==
      (if item.Text? then Kept(cr, item.text) else []) + KeptAll(EndsInCr(cr, item), rest)
    ensures Events([item] + rest) == ItemEvents(item) + Events(rest)
    ensures LastInCr(cr, [item] + rest) == LastInCr(EndsInCr(cr, item), rest)
  {
    assert ([item] + rest)[1..] == rest;
  }

  lemma AppendAssociates<T>(x: seq<T>, y: seq<T>, z: seq<T>)
    ensures x + y + z == x + (y + z)
  {
  }

  /** Round trip: whatever is sent, in any mixture and cut into reads anywhere, arrives as the
      same events in the same order, payloads cut to 1024 bytes, and as the same data without
      the NULs that directly follow a carriage return. */
  lemma RoundTrip(d: Decoder, items: seq<Item>, chunks: seq<bytes>)
    requires AtRest(d) && WellFormed(items)
    requires Flatten(chunks) == WireAll(items)
    ensures Delivers(FoldEach(Step, d, chunks), d.data + KeptAll(d.mode == Cr, items),
                     d.events + Events(items), LastInCr(d.mode == Cr, items))
  {
    FoldChunks(Step, d, chunks);
    AllDecode(d, items);
  }

  /** The data survives unchanged exactly when none of it is a NUL behind a carriage return. */
  lemma LosslessIff(items: seq<Item>, chunks: seq<bytes>)
    requires WellFormed(items) && Flatten(chunks) == WireAll(items)
    ensures FoldEach(Step, FRESH, chunks).data == Texts(items) <==> !AnyCrNul(false, items)
  {
    DataArrives(items, chunks);
    KeptAllIff(false, items);
  }

  lemma DataArrives(items: seq<Item>, chunks: seq<bytes>)
    requires WellFormed(items) && Flatten(chunks) == WireAll(items)
    ensures FoldEach(Step, FRESH, chunks).data == KeptAll(false, items)
  {
    var r := FoldEach(Step, FRESH, chunks);
    RoundTrip(FRESH, items, chunks);
    assert r.data == FRESH.data + KeptAll(false, items);
    assert [] + KeptAll(false, items) == KeptAll(false, items);
  }

  lemma {:induction false} KeptIff(cr: bool, s: bytes)
    ensures |Kept(cr, s)| <= |s|
    ensures if HasCrNul(cr, s) then |Kept(cr, s)| < |s| else Kept(cr, s) == s
    decreases |s|
  {
    if s != [] {
      KeptIff(s[0] == CR, s[1..]);
    }
  }

  lemma {:induction false} KeptAllIff(cr: bool, items: seq<Item>)
    ensures |KeptAll(cr, items)| <= |Texts(items)|
    ensures if AnyCrNul(cr, items) then |KeptAll(cr, items)| < |Texts(items)| else KeptAll(cr, items) == Texts(items)
    decreases |items|
  {
    if items != [] {
      KeptAllIff(EndsInCr(cr, items[0]), items[1..]);
      if items[0].Text? {
        KeptIff(cr, items[0].text);
      }
    }
  }

  // ---- Option payloads ----

  const NAWS: byte := 31
  const TERMINAL_TYPE: byte := 24
  const TTYPE_IS: byte := 0

  type uint16 = x: int | 0 <= x < 0x1_0000

  function NawsPayload(width: uint16, height: uint16): bytes
  {
    [width / 256, width % 256, height / 256, height % 256]
  }

  function Word(high: byte, low: byte): uint16
  {
    (high as int) * 256 + low as int
  }

  function ParseNaws(payload: bytes): Option<(uint16, uint16)>
  {
    if |payload| != 4 then None else Some((Word(payload[0], payload[1]), Word(payload[2], payload[3])))
  }

  function ParseTerminalTypeIs(payload: bytes): Option<bytes>
  {
    if payload == [] || payload[0] != TTYPE_IS then None else Some(payload[1..])
  }

  /** A payload is taken for a window size exactly if it is the encoding of one, and for that one. */
  lemma NawsParsesIff(payload: bytes, width: uint16, height: uint16)
    ensures ParseNaws(payload) == Some((width, height)) <==> payload == NawsPayload(width, height)
  {
    if |payload| == 4 {
      WordSplits(payload[0], payload[1]);
      WordSplits(payload[2], payload[3]);
      assert payload == [payload[0], payload[1], payload[2], payload[3]];
    }
  }

  lemma WordSplits(high: byte, low: byte)
    ensures Word(high, low) / 256 == high && Word(high, low) % 256 == low
  {
  }

  /** A payload is taken for a terminal name exactly if it is the IS byte followed by that name. */
  lemma TerminalTypeParsesIff(payload: bytes, name: bytes)
    ensures ParseTerminalTypeIs(payload) == Some(name) <==> payload == [TTYPE_IS] + name
  {
    if payload != [] {
      assert payload == [payload[0]] + payload[1..];
    }
    assert ([TTYPE_IS] + name)[1..] == name;
  }

  /** A window size arrives unchanged in any chunking, 0xFF bytes included. */
  lemma NawsRoundTrip(width: uint16, height: uint16, chunks: seq<bytes>)
    requires Flatten(chunks) == Subnegotiate(NAWS, NawsPayload(width, height))
    ensures var r := FoldEach(Step, FRESH, chunks);
      r.data == [] && |r.events| == 1 && r.events[0].Subnegotiation? && r.events[0].option == NAWS &&
      ParseNaws(r.events[0].payload) == Some((width, height))
  {
    FoldChunks(Step, FRESH, chunks);
    SubDecodes(FRESH, NAWS, NawsPayload(width, height));
  }

  /** A terminal name arrives cut to what fits beside the IS byte. */
  lemma TerminalTypeRoundTrip(name: bytes, chunks: seq<bytes>)
    requires Flatten(chunks) == Subnegotiate(TERMINAL_TYPE, [TTYPE_IS] + name)
    ensures var r := FoldEach(Step, FRESH, chunks);
      r.data == [] && |r.events| == 1 && r.events[0].Subnegotiation? && r.events[0].option == TERMINAL_TYPE &&
      ParseTerminalTypeIs(r.events[0].payload) ==
        Some(if |name| < MAX_SUBNEGOTIATION then name else name[..MAX_SUBNEGOTIATION - 1])
  {
    FoldChunks(Step, FRESH, chunks);
    SubDecodes(FRESH, TERMINAL_TYPE, [TTYPE_IS] + name);
    assert Cut([TTYPE_IS] + name)[1..] == if |name| < MAX_SUBNEGOTIATION then name else name[..MAX_SUBNEGOTIATION - 1];
  }

  // ---- The code ----

  lemma {:induction false} EscapeSnoc(s: bytes, c: byte)
    ensures EscapeIac(s + [c]) == EscapeIac(s) + Double(c)
    decreases |s|
  {
    if s == [] {
      assert [c][1..] == [];
    } else {
      assert (s + [c])[1..] == s[1..] + [c];
      EscapeSnoc(s[1..], c);
    }
  }

  method Escape(s: bytes) returns (out: bytes)
    ensures out == EscapeIac(s)
  {
    out := [];
    for i := 0 to |s|
      invariant out == EscapeIac(s[..i])
    {
      assert s[..i + 1] == s[..i] + [s[i]];
      EscapeSnoc(s[..i], s[i]);
      out := out + [s[i]];
      if s[i] == IAC {
        out := out + [s[i]];
      }
    }
    assert s[..|s|] == s;
  }

  class StreamDecoder {
    var mode: Mode
    var verb: byte
    var sbOption: byte
    var sbPayload: bytes

    ghost function View(data: bytes, events: seq<Event>): Decoder
      reads this
    {
      Decoder(mode, verb, sbOption, sbPayload, data, events)
    }

    constructor ()
      ensures View([], []) == FRESH
    {
      mode, verb, sbOption, sbPayload := Data, 0, 0, [];
    }

    /** The caller's two buffers come back extended. */
    method Feed(input: bytes, data0: bytes, events0: seq<Event>) returns (data: bytes, events: seq<Event>)
      modifies this
      ensures View(data, events) == Fold(Step, old(View(data0, events0)), input)
      ensures data0 <= data && events0 <= events
    {
      data, events := data0, events0;
      for i := 0 to |input|
        invariant View(data, events) == Fold(Step, old(View(data0, events0)), input[..i])
        invariant data0 <= data && events0 <= events
      {
        assert input[..i + 1] == input[..i] + [input[i]];
        FoldSnoc(Step, old(View(data0, events0)), input[..i], input[i]);
        data, events := FeedByte(input[i], data, events);
      }
      assert input[..|input|] == input;
    }

    method FeedByte(c: byte, data0: bytes, events0: seq<Event>) returns (data: bytes, events: seq<Event>)
      modifies this
      ensures View(data, events) == Step(old(View(data0, events0)), c)
      ensures data0 <= data && events0 <= events
    {
      data, events := data0, events0;
      match mode
      case Data =>
        data := TakeData(c, data);
      case Cr =>
        if c == NUL {
          mode := Data;
        } else {
          data := TakeData(c, data);
        }
      case Iac =>
        if c == IAC {
          data := data + [IAC];
          mode := Data;
        } else if WILL <= c <= DONT {
          verb := c;
          mode := Verb;
        } else if c == SB {
          mode := SbOption;
        } else {
          events := events + [Command(c)];
          mode := Data;
        }
      case Verb =>
        events := events + [Negotiation(verb, c)];
        mode := Data;
      case SbOption =>
        sbOption := c;
        sbPayload := [];
        mode := SbData;
      case SbData =>
        if c == IAC {
          mode := SbIac;
        } else {
          Push(c);
        }
      case SbIac =>
        if c == SE {
          events := events + [Subnegotiation(sbOption, sbPayload)];
          sbPayload := [];
          mode := Data;
        } else if c == IAC {
          Push(c);
          mode := SbData;
        } else {
          sbPayload := [];
          events := events + [Command(c)];
          mode := Data;
        }
    }

    method TakeData(c: byte, data0: bytes) returns (data: bytes)
      modifies this`mode
      ensures forall events :: View(data, events) == DataByte(old(View(data0, events)), c)
      ensures data0 <= data
    {
      data := data0;
      if c == IAC {
        mode := Iac;
        return;
      }
      data := data + [c];
      mode := if c == CR then Cr else Data;
    }

    method Push(c: byte)
      modifies this`sbPayload
      ensures forall data, events :: View(data, events) == SbPush(old(View(data, events)), c)
    {
      if |sbPayload| < MAX_SUBNEGOTIATION {
        sbPayload := sbPayload + [c];
      }
    }
  }
}
