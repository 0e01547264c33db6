/** VSLIP framing: RFC 1055 byte stuffing with an incremental decoder. */
module Vslip {
  import opened Bytes

  const END: byte := 0xC0
  const ESC: byte := 0xDB
  const ESC_END: byte := 0xDC
  const ESC_ESC: byte := 0xDD

  /** The framer's fields together with the vector it appends finished frames to. */
  datatype Framer = Framer(buf: bytes, escaping: bool, out: seq<bytes>)

  const FRESH := Framer([], false, [])

  function Step(f: Framer, b: byte): Framer
  {
    if f.escaping then
      Framer(if b == ESC_END then f.buf + [END] else if b == ESC_ESC then f.buf + [ESC] else f.buf, false, f.out)
    else if b == END then
      if f.buf == [] then f else Framer([], false, f.out + [f.buf])
    else if b == ESC then
      f.(escaping := true)
    else
      f.(buf := f.buf + [b])
  }

  function Stuff(b: byte): bytes
  {
    if b == END then [ESC, ESC_END] else if b == ESC then [ESC, ESC_ESC] else [b]
  }

  function Escape(payload: bytes): bytes
  {
    if payload == [] then [] else Stuff(payload[0]) + Escape(payload[1..])
  }

  function Encode(payload: bytes): bytes
  {
    [END] + Escape(payload) + [END]
  }

  function EncodeAll(payloads: seq<bytes>): bytes
  {
    if payloads == [] then [] else Encode(payloads[0]) + EncodeAll(payloads[1..])
  }

  /** Empty payloads leave no frame behind: back-to-back END bytes are skipped. */
  function NonEmpty(payloads: seq<bytes>): seq<bytes>
  {
    if payloads == [] then []
    else (if payloads[0] == [] then [] else [payloads[0]]) + NonEmpty(payloads[1..])
  }

  /** What a receiver in state `f` should see of the payloads: the bytes already buffered
      form a frame of their own, unless the receiver sits in the middle of an escape. Then
      it swallows the opening END and the first payload is glued to the buffered bytes. */
  function Received(f: Framer, payloads: seq<bytes>): seq<bytes>
    requires payloads != []
  {
    if f.escaping then NonEmpty([f.buf + payloads[0]] + payloads[1..]) else NonEmpty([f.buf] + payloads)
  }

  lemma {:induction false} EscapeAppend(p: bytes, b: byte)
    ensures Escape(p + [b]) == Escape(p) + Stuff(b)
  {
    if p == [] {
      assert [b][1..] == [];
    } else {
      assert (p + [b])[1..] == p[1..] + [b];
      EscapeAppend(p[1..], b);
    }
  }

  lemma {:induction false} EscapeDecodes(f: Framer, p: bytes)
    requires !f.escaping
    ensures Fold(Step, f, Escape(p)) == f.(buf := f.buf + p)
    decreases |p|
  {
    if p == [] {
      assert f.buf + p == f.buf;
    } else {
      StuffDecodes(f, p[0]);
      FoldAppend(Step, f, Stuff(p[0]), Escape(p[1..]));
      EscapeDecodes(f.(buf := f.buf + [p[0]]), p[1..]);
      assert f.buf + [p[0]] + p[1..] == f.buf + p;
    }
  }

  lemma StuffDecodes(f: Framer, b: byte)
    requires !f.escaping
    ensures Fold(Step, f, Stuff(b)) == f.(buf := f.buf + [b])
  {
    var s := Stuff(b);
    if b == END || b == ESC {
      FoldTwo(Step, f, s[0], s[1]);
    } else {
      FoldOne(Step, f, b);
    }
  }

  /** The body of a frame, between two END bytes. */
  lemma FrameFills(f: Framer, p: bytes)
    ensures var started := Step(f, END);
      Fold(Step, f, Encode(p)) == Step(started.(buf := started.buf + p), END)
  {
    var started := Step(f, END);
    FoldAppend(Step, f, [END], Escape(p) + [END]);
    assert Encode(p) == [END] + (Escape(p) + [END]);
    FoldOne(Step, f, END);
    FoldSnoc(Step, started, Escape(p), END);
    EscapeDecodes(started, p);
  }

  /** One encoded payload, from any framer state. */
  lemma EncodeDecodes(f: Framer, p: bytes)
    ensures Fold(Step, f, Encode(p)) == Framer([], false, f.out + Received(f, [p]))
  {
    FrameFills(f, p);
    ReceivedOne(f, p);
    var started := Step(f, END);
    Delimited(started.buf + p, started.out);
    if !f.escaping {
      Delimited(f.buf, f.out);
      assert started.buf + p == p;
      assert f.out + (NonEmpty([f.buf]) + NonEmpty([p])) == f.out + NonEmpty([f.buf]) + NonEmpty([p]);
    }
  }

  /** The END byte hands over what is in the buffer. */
  lemma Delimited(buf: bytes, out: seq<bytes>)
    ensures Step(Framer(buf, false, out), END) == Framer([], false, out + NonEmpty([buf]))
  {
    NonEmptyOne(buf);
    assert out + [] == out;
  }

  lemma NonEmptyOne(p: bytes)
    ensures NonEmpty([p]) == if p == [] then [] else [p]
  {
    assert [p][1..] == [];
  }

  lemma ReceivedOne(f: Framer, p: bytes)
    ensures Received(f, [p]) ==
      if f.escaping then NonEmpty([f.buf + p]) else NonEmpty([f.buf]) + NonEmpty([p])
  {
    assert [f.buf + p] + [p][1..] == [f.buf + p];
    NonEmptyAppend([f.buf], [p]);
  }

  lemma {:induction false} NonEmptyAppend(xs: seq<bytes>, ys: seq<bytes>)
    ensures NonEmpty(xs + ys) == NonEmpty(xs) + NonEmpty(ys)
  {
    if xs == [] {
      assert xs + ys == ys;
    } else {
      assert (xs + ys)[1..] == xs[1..] + ys;
      NonEmptyAppend(xs[1..], ys);
    }
  }

  /** Round trip and resynchronisation: whatever state the framer is in and however the
      encodings are cut into reads, it ends empty and has appended exactly the payloads. */
  lemma {:induction false} Resynchronises(f: Framer, payloads: seq<bytes>, chunks: seq<bytes>)
    requires payloads != []
    requires Flatten(chunks) == EncodeAll(payloads)
    ensures FoldEach(Step, f, chunks) == Framer([], false, f.out + Received(f, payloads))
  {
    FoldChunks(Step, f, chunks);
    AllDecode(f, payloads);
  }

  lemma {:induction false} AllDecode(f: Framer, payloads: seq<bytes>)
    requires payloads != []
    ensures Fold(Step, f, EncodeAll(payloads)) == Framer([], false, f.out + Received(f, payloads))
    decreases |payloads|
  {
    var p, rest := payloads[0], payloads[1..];
    var f1 := Framer([], false, f.out + Received(f, [p]));
    assert Fold(Step, f, EncodeAll(payloads)) == Fold(Step, f1, EncodeAll(rest)) by {
      FoldAppend(Step, f, Encode(p), EncodeAll(rest));
      EncodeDecodes(f, p);
    }
    assert Received(f, payloads) == Received(f, [p]) + NonEmpty(rest) by {
      ReceivedCons(f, p, rest);
      assert [p] + rest == payloads;
    }
    assert f1.out + NonEmpty(rest) == f.out + Received(f, payloads);
    if rest != [] {
      AllDecode(f1, rest);
      ReceivedAtRest(f1, rest);
    }
  }

  lemma ReceivedAtRest(f: Framer, payloads: seq<bytes>)
    requires f.buf == [] && !f.escaping && payloads != []
    ensures Received(f, payloads) == NonEmpty(payloads)
  {
    assert ([[]] + payloads)[1..] == payloads;
  }

  lemma ReceivedCons(f: Framer, p: bytes, rest: seq<bytes>)
    ensures Received(f, [p] + rest) == Received(f, [p]) + NonEmpty(rest)
  {
    ReceivedOne(f, p);
    assert ([p] + rest)[1..] == rest;
    if f.escaping {
      NonEmptyAppend([f.buf + p], rest);
    } else {
      NonEmptyAppend([f.buf] + [p], rest);
      assert [f.buf] + ([p] + rest) == [f.buf] + [p] + rest;
    }
  }

  lemma {:induction false} EncodeAllAppend(xs: seq<bytes>, ys: seq<bytes>)
    ensures EncodeAll(xs + ys) == EncodeAll(xs) + EncodeAll(ys)
    decreases |xs|
  {
    if xs == [] {
      assert xs + ys == ys;
    } else {
      assert (xs + ys)[1..] == xs[1..] + ys;
      EncodeAllAppend(xs[1..], ys);
    }
  }

  lemma EncodeAllOne(p: bytes)
    ensures EncodeAll([p]) == Encode(p)
  {
    assert EncodeAll([p][1..]) == [];
  }

  lemma EncodeAllTwo(p: bytes, q: bytes)
    ensures EncodeAll([p, q]) == Encode(p) + Encode(q)
  {
    assert [p, q][1..] == [q];
    EncodeAllOne(q);
  }

  /** In the common case of a framer at rest, all payloads arrive, in order and intact. */
  lemma RoundTrip(payloads: seq<bytes>, chunks: seq<bytes>)
    requires forall i :: 0 <= i < |payloads| ==> payloads[i] != []
    requires Flatten(chunks) == EncodeAll(payloads)
    ensures FoldEach(Step, FRESH, chunks) == Framer([], false, payloads)
  {
    if payloads == [] {
      FoldChunks(Step, FRESH, chunks);
    } else {
      Resynchronises(FRESH, payloads, chunks);
      ReceivedAtRest(FRESH, payloads);
      NonEmptyId(payloads);
    }
  }

  lemma {:induction false} NonEmptyId(payloads: seq<bytes>)
    requires forall i :: 0 <= i < |payloads| ==> payloads[i] != []
    ensures NonEmpty(payloads) == payloads
  {
    if payloads != [] {
      NonEmptyId(payloads[1..]);
      assert payloads == [payloads[0]] + payloads[1..];
    }
  }

  /** An escape followed by anything but its two codes has no effect at all, wherever it turns up. */
  lemma BadEscapesIgnored(f: Framer, before: bytes, b: byte, after: bytes)
    requires b != ESC_END && b != ESC_ESC && !Fold(Step, f, before).escaping
    ensures Fold(Step, f, before + [ESC, b] + after) == Fold(Step, f, before + after)
  {
    var g := Fold(Step, f, before);
    FoldAppend(Step, f, before, after);
    FoldAppend(Step, f, before, [ESC, b]);
    FoldAppend(Step, f, before + [ESC, b], after);
    FoldTwo(Step, g, ESC, b);
    assert Step(Step(g, ESC), b) == g;
  }

  // ---- A reader that handles each frame as it completes ----

  /** The frames already collected do not influence the framer. */
  lemma {:induction false} OutIsAppended(f: Framer, raw: bytes)
    ensures var r := Fold(Step, f.(out := []), raw);
      Fold(Step, f, raw) == r.(out := f.out + r.out)
    decreases |raw|
  {
    if raw == [] {
      assert f.out + [] == f.out;
    } else {
      var g := Step(f.(out := []), raw[0]);
      OutIsAppended(Step(f, raw[0]), raw[1..]);
      OutIsAppended(g, raw[1..]);
      assert Step(f, raw[0]) == g.(out := f.out + g.out);
      var r := Fold(Step, g.(out := []), raw[1..]);
      assert f.out + g.out + r.out == f.out + (g.out + r.out);
    }
  }

  /** One read: feed the bytes with a frames vector of its own, then handle its frames. */
  function Read<C>(handle: (C, bytes) -> C, f: Framer, c: C, input: bytes): (Framer, C)
  {
    var g := Fold(Step, f.(out := []), input);
    (g.(out := []), Fold(handle, c, g.out))
  }

  function ReadEach<C>(handle: (C, bytes) -> C, f: Framer, c: C, inputs: seq<bytes>): (Framer, C)
    decreases |inputs|
  {
    if inputs == [] then (f, c)
    else
      var (g, d) := Read(handle, f, c, inputs[0]);
      ReadEach(handle, g, d, inputs[1..])
  }

  /** How the input is cut into reads has no influence on what the reader ends up with. */
  lemma {:induction false} ChunkingIrrelevant<C>(handle: (C, bytes) -> C, f: Framer, c: C, inputs: seq<bytes>)
    requires f.out == []
    ensures ReadEach(handle, f, c, inputs) == Read(handle, f, c, Flatten(inputs))
    decreases |inputs|
  {
    assert f.(out := []) == f;
    if inputs != [] {
      var rest := Flatten(inputs[1..]);
      var g := Fold(Step, f, inputs[0]);
      var (g', d) := Read(handle, f, c, inputs[0]);
      ChunkingIrrelevant(handle, g', d, inputs[1..]);
      FoldAppend(Step, f, inputs[0], rest);
      OutIsAppended(g, rest);
      FoldAppend(handle, c, g.out, Fold(Step, g.(out := []), rest).out);
    }
  }

  /** `VSlipFramer::encode`. */
  method EncodeFrame(payload: bytes) returns (frame: bytes)
    ensures frame == Encode(payload)
  {
    frame := [END];
    for i := 0 to |payload|
      invariant frame == [END] + Escape(payload[..i])
    {
      assert payload[..i + 1] == payload[..i] + [payload[i]];
      EscapeAppend(payload[..i], payload[i]);
      if payload[i] == END {
        frame := frame + [ESC] + [ESC_END];
      } else if payload[i] == ESC {
        frame := frame + [ESC] + [ESC_ESC];
      } else {
        frame := frame + [payload[i]];
      }
    }
    assert payload[..|payload|] == payload;
    frame := frame + [END];
  }

  class VSlipFramer {
    var buf: bytes
    var escaping: bool

    ghost function View(out: seq<bytes>): Framer
      reads this
    {
      Framer(buf, escaping, out)
    }

    constructor ()
      ensures View([]) == FRESH
    {
      buf, escaping := [], false;
    }

    /** `out` is the caller's vector; it comes back extended by the finished frames. */
    method Feed(raw: bytes, out: seq<bytes>) returns (extended: seq<bytes>, completed: nat)
      modifies this
      ensures View(extended) == Fold(Step, old(View(out)), raw)
      ensures out <= extended && completed == |extended| - |out|
    {
      extended, completed := out, 0;
      for i := 0 to |raw|
        invariant View(extended) == Fold(Step, old(View(out)), raw[..i])
        invariant out <= extended && completed == |extended| - |out|
      {
        var b := raw[i];
        assert raw[..i + 1] == raw[..i] + [b];
        FoldSnoc(Step, old(View(out)), raw[..i], b);
        if escaping {
          escaping := false;
          if b == ESC_END {
            buf := buf + [END];
          } else if b == ESC_ESC {
            buf := buf + [ESC];
          }
        } else if b == END {
          if buf != [] {
            extended := extended + [buf];
            buf := [];
            completed := completed + 1;
          }
        } else if b == ESC {
          escaping := true;
        } else {
          buf := buf + [b];
        }
      }
      assert raw[..|raw|] == raw;
    }

    method Reset()
      modifies this
      ensures View([]) == FRESH
    {
      buf, escaping := [], false;
    }
  }
}
