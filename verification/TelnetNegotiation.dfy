/** Telnet option negotiation: two negotiators joined by FIFO channels. */
module TelnetNegotiation {
  import opened Bytes
  import opened TelnetCodec

  datatype OptionState = OptionState(enabled: bool, pending: bool)

  const OFF := OptionState(false, false)

  /** What passes between the two ends of one option: enable or disable, and whether it was
      sent in reply to something received. */
  datatype Signal = Signal(enable: bool, answer: bool)

  // ---- One end of one option ----

  function AskEnable(s: OptionState): (OptionState, seq<Signal>)
  {
    if s.enabled || s.pending then (s, []) else (s.(pending := true), [Signal(true, false)])
  }

  function AskDisable(s: OptionState): (OptionState, seq<Signal>)
  {
    if !s.enabled && !s.pending then (s, []) else (OFF, [Signal(false, false)])
  }

  function OnEnable(s: OptionState, accepted: bool): (OptionState, seq<Signal>)
  {
    if s.pending then (OptionState(true, false), [])
    else if !accepted then (s, [Signal(false, true)])
    else if s.enabled then (s, [])
    else (s.(enabled := true), [Signal(true, true)])
  }

  function OnDisable(s: OptionState): (OptionState, seq<Signal>)
  {
    if s.enabled then (s.(enabled := false), [Signal(false, true)]) else (s.(pending := false), [])
  }

  function OnSignal(s: OptionState, accepted: bool, signal: Signal): (OptionState, seq<Signal>)
  {
    if signal.enable then OnEnable(s, accepted) else OnDisable(s)
  }

  // ---- Both ends of one option ----

  /** The end under consideration, its peer, the signals under way in both directions, which
      end has asked for the option at some time, and which end is willing to accept it. */
  datatype Link = Link(mine: OptionState, theirs: OptionState, out: seq<Signal>, back: seq<Signal>,
                       asked: bool, peerAsked: bool, accepts: bool, peerAccepts: bool)
  {
    function Flip(): Link
    {
      Link(theirs, mine, back, out, peerAsked, asked, peerAccepts, accepts)
    }

    /** My end asks. */
    function Ask(): Link
    {
      var (s, signals) := AskEnable(mine);
      this.(mine := s, out := out + signals, asked := true)
    }

    /** My end withdraws its request, or switches off. */
    function Withdraw(): Link
    {
      var (s, signals) := AskDisable(mine);
      this.(mine := s, out := out + signals)
    }

    /** My end receives. */
    function Take(): Link
      requires back != []
    {
      var (s, signals) := OnSignal(mine, accepts, back[0]);
      this.(mine := s, out := out + signals, back := back[1..])
    }

    ghost predicate Quiet()
    {
      out == [] && back == []
    }

    /** Nothing under way: both ends agree, and the outcome fits who asked and who accepts. */
    ghost predicate Settled()
    {
      && Quiet() && mine == theirs && !mine.pending
      && ((asked && peerAccepts) || (peerAsked && accepts) ==> mine.enabled)
      && (mine.enabled ==> (asked && peerAccepts) || (peerAsked && accepts) || (asked && peerAsked))
    }

    /** My request is under way or refused; the peer is not involved yet. */
    ghost predicate Waiting()
    {
      && mine == OptionState(false, true) && theirs == OFF && asked && (peerAsked ==> !accepts)
      && ((out == [Signal(true, false)] && back == [])
          || (out == [] && back == [Signal(false, true)] && !peerAccepts))
    }

    /** The peer has switched on, and the word is on its way to me. */
    ghost predicate Confirming()
    {
      && mine == OptionState(false, true) && theirs == OptionState(true, false) && asked && out == []
      && ((back == [Signal(true, true)] && peerAccepts) || (back == [Signal(true, false)] && peerAsked))
    }

    /** The peer refused my request and then asked for itself. */
    ghost predicate Overtaken()
    {
      && mine == OptionState(false, true) && theirs == OptionState(false, true) && asked && peerAsked
      && out == [] && back == [Signal(false, true), Signal(true, false)] && !peerAccepts
    }

    /** Both requests cross on the wire. */
    ghost predicate Crossing()
    {
      && mine == OptionState(false, true) && theirs == OptionState(false, true) && asked && peerAsked
      && out == [Signal(true, false)] && back == [Signal(true, false)]
    }

    ghost predicate HalfInv()
    {
      Settled() || Waiting() || Confirming() || Overtaken() || Crossing()
    }

    /** Every situation one option can be in while only enabling is requested. */
    ghost predicate Inv()
    {
      HalfInv() || Flip().HalfInv()
    }
  }

  lemma AskKeepsInv(l: Link)
    requires l.Inv()
    ensures l.Ask().Inv()
  {
  }

  /** Receiving keeps the invariant, and what was itself an answer is never answered. */
  lemma TakeKeepsInv(l: Link)
    requires l.Inv() && l.back != []
    ensures l.Take().Inv()
    ensures l.back[0].answer ==> l.Take().out == l.out
    ensures |l.Take().out| <= |l.out| + 1
  {
  }

  lemma QuietIsSettled(l: Link)
    requires l.Inv() && l.Quiet()
    ensures l.Settled()
  {
  }

  // ---- The whole negotiator: 256 options, each in two roles ----

  /** `us` holds what we perform, `him` what the peer performs; `local` and `remote` tell
      which of these we are willing to see enabled. */
  datatype Negotiator = Negotiator(us: seq<OptionState>, him: seq<OptionState>, local: seq<bool>, remote: seq<bool>)
  {
    predicate Valid()
    {
      |us| == |him| == |local| == |remote| == 256
    }
  }

  function State(n: Negotiator, performs: bool, option: byte): OptionState
    requires n.Valid()
  {
    if performs then n.us[option] else n.him[option]
  }

  function Accepts(n: Negotiator, performs: bool, option: byte): bool
    requires n.Valid()
  {
    if performs then n.local[option] else n.remote[option]
  }

  function Update(n: Negotiator, performs: bool, option: byte, s: OptionState): (r: Negotiator)
    requires n.Valid()
    ensures r.Valid()
  {
    if performs then n.(us := n.us[option := s]) else n.(him := n.him[option := s])
  }

  datatype Message = Message(verb: byte, option: byte, answer: bool)

  /** Does the verb speak about what its sender performs? */
  predicate AboutSender(verb: byte)
  {
    verb == WILL || verb == WONT
  }

  predicate Enabling(verb: byte)
  {
    verb == WILL || verb == DO
  }

  function VerbFor(performs: bool, enable: bool): (v: byte)
    ensures IsVerb(v) && AboutSender(v) == performs && Enabling(v) == enable
  {
    if performs then if enable then WILL else WONT else if enable then DO else DONT
  }

  function Messages(performs: bool, option: byte, signals: seq<Signal>): seq<Message>
  {
    seq(|signals|, i requires 0 <= i < |signals| =>
      Message(VerbFor(performs, signals[i].enable), option, signals[i].answer))
  }

  /** `request`: verbs other than the four are ignored. */
  function Request(n: Negotiator, verb: byte, option: byte): (r: (Negotiator, seq<Message>))
    requires n.Valid()
    ensures r.0.Valid()
  {
    if !IsVerb(verb) then (n, []) else
    var performs := AboutSender(verb);
    var (s, signals) :=
      if Enabling(verb) then AskEnable(State(n, performs, option)) else AskDisable(State(n, performs, option));
    (Update(n, performs, option, s), Messages(performs, option, signals))
  }

  /** `handle`: a DO or DONT is about us, a WILL or WONT about the peer. */
  function Handle(n: Negotiator, verb: byte, option: byte): (r: (Negotiator, seq<Message>))
    requires n.Valid()
    ensures r.0.Valid()
  {
    if !IsVerb(verb) then (n, []) else
    var performs := !AboutSender(verb);
    var (s, signals) :=
      OnSignal(State(n, performs, option), Accepts(n, performs, option), Signal(Enabling(verb), false));
    (Update(n, performs, option, s), Messages(performs, option, signals))
  }

  // ---- Two negotiators ----

  datatype World = World(a: Negotiator, b: Negotiator, ab: seq<Message>, ba: seq<Message>,
                         askedA: set<(byte, byte)>, askedB: set<(byte, byte)>,
                         requests: nat, replies: nat, handled: nat)
  {
    predicate Valid()
    {
      && a.Valid() && b.Valid()
      && (forall i :: 0 <= i < |ab| ==> IsVerb(ab[i].verb))
      && (forall i :: 0 <= i < |ba| ==> IsVerb(ba[i].verb))
    }

    function Flip(): World
    {
      World(b, a, ba, ab, askedB, askedA, requests, replies, handled)
    }
  }

  /** A asks for something. */
  function AskA(w: World, verb: byte, option: byte): World
    requires w.Valid()
  {
    var (n, ms) := Request(w.a, verb, option);
    w.(a := n, ab := w.ab + ms, askedA := w.askedA + {(verb, option)}, requests := w.requests + 1)
  }

  /** A handles the first message addressed to it, if there is one. */
  function TakeA(w: World): World
    requires w.Valid()
  {
    if w.ba == [] then w else
    var (n, ms) := Handle(w.a, w.ba[0].verb, w.ba[0].option);
    w.(a := n, ab := w.ab + ms, ba := w.ba[1..], replies := w.replies + |ms|, handled := w.handled + 1)
  }

  datatype Step = Ask(byA: bool, verb: byte, option: byte) | Take(byA: bool)

  function Next(w: World, step: Step): World
    requires w.Valid()
  {
    match step
    case Ask(byA, verb, option) => if byA then AskA(w, verb, option) else AskA(w.Flip(), verb, option).Flip()
    case Take(byA) => if byA then TakeA(w) else TakeA(w.Flip()).Flip()
  }

  lemma AskValid(w: World, verb: byte, option: byte)
    requires w.Valid()
    ensures AskA(w, verb, option).Valid()
  {
  }

  lemma TakeValid(w: World)
    requires w.Valid()
    ensures TakeA(w).Valid()
  {
  }

  function Run(w: World, steps: seq<Step>): (r: World)
    requires w.Valid()
    ensures r.Valid()
  {
    if steps == [] then w else
    var w' := Run(w, steps[..|steps| - 1]);
    var step := steps[|steps| - 1];
    assert Next(w', step).Valid() by {
      if step.Ask? {
        AskValid(if step.byA then w' else w'.Flip(), step.verb, step.option);
      } else {
        TakeValid(if step.byA then w' else w'.Flip());
      }
    }
    Next(w', step)
  }

  // ---- Each option of the world is a link of its own ----

  /** The signals of a channel that concern one option in one role of the sender. */
  function Signals(ms: seq<Message>, performs: bool, option: byte): seq<Signal>
  {
    if ms == [] then []
    else
      (if AboutSender(ms[0].verb) == performs && ms[0].option == option
       then [Signal(Enabling(ms[0].verb), ms[0].answer)] else [])
      + Signals(ms[1..], performs, option)
  }

  function LinkOf(w: World, performs: bool, option: byte): Link
    requires w.Valid()
  {
    Link(State(w.a, performs, option), State(w.b, !performs, option),
         Signals(w.ab, performs, option), Signals(w.ba, !performs, option),
         (VerbFor(performs, true), option) in w.askedA, (VerbFor(!performs, true), option) in w.askedB,
         Accepts(w.a, performs, option), Accepts(w.b, !performs, option))
  }

  lemma {:induction false} SignalsAppend(xs: seq<Message>, ys: seq<Message>, performs: bool, option: byte)
    ensures Signals(xs + ys, performs, option) == Signals(xs, performs, option) + Signals(ys, performs, option)
    decreases |xs|
  {
    if xs == [] {
      assert xs + ys == ys;
    } else {
      var head := if AboutSender(xs[0].verb) == performs && xs[0].option == option
        then [Signal(Enabling(xs[0].verb), xs[0].answer)] else [];
      assert (xs + ys)[1..] == xs[1..] + ys;
      SignalsAppend(xs[1..], ys, performs, option);
      assert head + (Signals(xs[1..], performs, option) + Signals(ys, performs, option)) ==
        head + Signals(xs[1..], performs, option) + Signals(ys, performs, option);
    }
  }

  lemma {:induction false} SignalsOfMessages(performs: bool, option: byte, ss: seq<Signal>, p: bool, o: byte)
    ensures Signals(Messages(performs, option, ss), p, o) == if p == performs && o == option then ss else []
    decreases |ss|
  {
    if ss != [] {
      var ms := Messages(performs, option, ss);
      assert ms[1..] == Messages(performs, option, ss[1..]);
      SignalsOfMessages(performs, option, ss[1..], p, o);
      assert ss == [ss[0]] + ss[1..];
    }
  }

  lemma AskLink(w: World, verb: byte, option: byte, p: bool, o: byte)
    requires w.Valid()
    ensures AskA(w, verb, option).Valid()
    ensures LinkOf(AskA(w, verb, option), p, o) ==
      if !IsVerb(verb) || AboutSender(verb) != p || option != o then LinkOf(w, p, o)
      else if Enabling(verb) then LinkOf(w, p, o).Ask() else LinkOf(w, p, o).Withdraw()
  {
    AskValid(w, verb, option);
    RequestedSignals(w, verb, option, p, o);
  }

  /** What A sends with a request concerns the option and role of that request only. */
  lemma RequestedSignals(w: World, verb: byte, option: byte, p: bool, o: byte)
    requires w.Valid()
    ensures Signals(AskA(w, verb, option).ab, p, o) == Signals(w.ab, p, o) +
      if !IsVerb(verb) || AboutSender(verb) != p || option != o then []
      else if Enabling(verb) then AskEnable(State(w.a, p, o)).1 else AskDisable(State(w.a, p, o)).1
  {
    if IsVerb(verb) {
      var performs := AboutSender(verb);
      var state := State(w.a, performs, option);
      var (s, ss) := if Enabling(verb) then AskEnable(state) else AskDisable(state);
      SignalsAppend(w.ab, Messages(performs, option, ss), p, o);
      SignalsOfMessages(performs, option, ss, p, o);
    } else {
      assert w.ab + [] == w.ab;
    }
  }

  lemma TakeLink(w: World, p: bool, o: byte)
    requires w.Valid() && w.ba != []
    ensures TakeA(w).Valid()
    ensures LinkOf(TakeA(w), p, o) ==
      if AboutSender(w.ba[0].verb) != p && w.ba[0].option == o then LinkOf(w, p, o).Take() else LinkOf(w, p, o)
  {
    TakeValid(w);
    SentSignals(w, p, o);
    assert [] + Signals(w.ba[1..], !p, o) == Signals(w.ba[1..], !p, o);
  }

  /** What A sends when it takes a message concerns the option and role of that message only. */
  lemma SentSignals(w: World, p: bool, o: byte)
    requires w.Valid() && w.ba != []
    ensures var m := w.ba[0];
      Signals(TakeA(w).ab, p, o) == Signals(w.ab, p, o) +
        if AboutSender(m.verb) != p && m.option == o
        then OnSignal(State(w.a, p, o), Accepts(w.a, p, o), Signal(Enabling(m.verb), false)).1 else []
  {
    var m := w.ba[0];
    var performs := !AboutSender(m.verb);
    var (s, ss) :=
      OnSignal(State(w.a, performs, m.option), Accepts(w.a, performs, m.option), Signal(Enabling(m.verb), false));
    SignalsAppend(w.ab, Messages(performs, m.option, ss), p, o);
    SignalsOfMessages(performs, m.option, ss, p, o);
  }

  lemma FlipLink(w: World, p: bool, o: byte)
    requires w.Valid()
    ensures LinkOf(w.Flip(), p, o) == LinkOf(w, !p, o).Flip()
  {
  }

  /** Requests still under way, that is, messages that may yet be answered. */
  function Open(ms: seq<Message>): nat
  {
    if ms == [] then 0 else (if ms[0].answer then 0 else 1) + Open(ms[1..])
  }

  lemma {:induction false} OpenAppend(xs: seq<Message>, ys: seq<Message>)
    ensures Open(xs + ys) == Open(xs) + Open(ys)
    decreases |xs|
  {
    if xs == [] {
      assert xs + ys == ys;
    } else {
      assert (xs + ys)[1..] == xs[1..] + ys;
      OpenAppend(xs[1..], ys);
    }
  }

  ghost predicate Inv(w: World)
  {
    && w.Valid()
    && (forall p, o :: LinkOf(w, p, o).Inv())
    && w.handled + |w.ab| + |w.ba| <= w.requests + w.replies
    && w.replies + Open(w.ab) + Open(w.ba) <= w.requests
  }

  lemma FlipInv(w: World)
    requires Inv(w)
    ensures Inv(w.Flip())
  {
    forall p, o
      ensures LinkOf(w.Flip(), p, o).Inv()
    {
      FlipLink(w, p, o);
      assert LinkOf(w, !p, o).Inv();
    }
  }

  lemma AskInv(w: World, verb: byte, option: byte)
    requires Inv(w) && Enabling(verb)
    ensures Inv(AskA(w, verb, option))
  {
    var w' := AskA(w, verb, option);
    AskValid(w, verb, option);
    forall p, o
      ensures LinkOf(w', p, o).Inv()
    {
      AskLink(w, verb, option, p, o);
      AskKeepsInv(LinkOf(w, p, o));
    }
    var (_, ms) := Request(w.a, verb, option);
    OpenAppend(w.ab, ms);
    OpenAtMost(ms);
  }

  lemma {:induction false} OpenAtMost(ms: seq<Message>)
    ensures Open(ms) <= |ms|
    ensures (forall i :: 0 <= i < |ms| ==> ms[i].answer) ==> Open(ms) == 0
    decreases |ms|
  {
    if ms != [] {
      OpenAtMost(ms[1..]);
    }
  }

  lemma TakeInv(w: World)
    requires Inv(w)
    ensures Inv(TakeA(w))
  {
    if w.ba != [] {
      var w' := TakeA(w);
      TakeValid(w);
      forall p, o
        ensures LinkOf(w', p, o).Inv()
      {
        TakeLink(w, p, o);
        assert LinkOf(w, p, o).Inv();
        if AboutSender(w.ba[0].verb) != p && w.ba[0].option == o {
          TakeKeepsInv(LinkOf(w, p, o));
        }
      }
      ReplyOnlyToRequests(w);
      var (_, ms) := Handle(w.a, w.ba[0].verb, w.ba[0].option);
      OpenAppend(w.ab, ms);
      OpenAtMost(ms);
    }
  }

  /** A message is answered at most once, and an answer never is. */
  lemma ReplyOnlyToRequests(w: World)
    requires Inv(w) && w.ba != []
    ensures var ms := Handle(w.a, w.ba[0].verb, w.ba[0].option).1;
      && |ms| <= (if w.ba[0].answer then 0 else 1)
      && (forall i :: 0 <= i < |ms| ==> ms[i].answer)
  {
    var m := w.ba[0];
    var l := LinkOf(w, !AboutSender(m.verb), m.option);
    assert l.Inv();
    TakeKeepsInv(l);
    assert l.back[0] == Signal(Enabling(m.verb), m.answer);
  }

  predicate EnableOnly(steps: seq<Step>)
  {
    forall i :: 0 <= i < |steps| && steps[i].Ask? ==> Enabling(steps[i].verb)
  }

  /** Which options A and B are willing to perform themselves and to see performed. */
  datatype Policies = Policies(localA: seq<bool>, remoteA: seq<bool>, localB: seq<bool>, remoteB: seq<bool>)
  {
    predicate Valid()
    {
      |localA| == |remoteA| == |localB| == |remoteB| == 256
    }
  }

  function Initial(ps: Policies): (w: World)
    requires ps.Valid()
    ensures w.Valid()
  {
    var off := seq(256, _ => OFF);
    World(Negotiator(off, off, ps.localA, ps.remoteA), Negotiator(off, off, ps.localB, ps.remoteB),
          [], [], {}, {}, 0, 0, 0)
  }

  lemma {:induction false} RunInv(w: World, steps: seq<Step>)
    requires Inv(w) && EnableOnly(steps)
    ensures Inv(Run(w, steps))
    decreases |steps|
  {
    if steps != [] {
      var w' := Run(w, steps[..|steps| - 1]);
      RunInv(w, steps[..|steps| - 1]);
      FlipInv(w');
      match steps[|steps| - 1]
      case Ask(byA, verb, option) =>
        if byA {
          AskInv(w', verb, option);
        } else {
          AskInv(w'.Flip(), verb, option);
          FlipInv(AskA(w'.Flip(), verb, option));
        }
      case Take(byA) =>
        if byA {
          TakeInv(w');
        } else {
          TakeInv(w'.Flip());
          FlipInv(TakeA(w'.Flip()));
        }
    }
  }

  /** With any policies and any interleaving of enabling requests: there are never more replies
      than requests, and the messages handled and still under way together number at most two
      per request. So the wire falls silent after at most that many deliveries. */
  lemma EnablingDrains(ps: Policies, steps: seq<Step>)
    requires ps.Valid() && EnableOnly(steps)
    ensures var w := Run(Initial(ps), steps);
      w.replies <= w.requests && w.handled + |w.ab| + |w.ba| <= 2 * w.requests
  {
    RunInv(Initial(ps), steps);
  }

  /** Whenever nothing is under way for an option in one role, the performer's view and the
      other side's view agree, no request is left open, and the option is on whenever an asking
      side met an accepting one, and only if one did or both asked. */
  lemma EnablingSettles(ps: Policies, steps: seq<Step>, performs: bool, option: byte)
    requires ps.Valid() && EnableOnly(steps)
    requires var w := Run(Initial(ps), steps);
      Signals(w.ab, performs, option) == [] && Signals(w.ba, !performs, option) == []
    ensures var w := Run(Initial(ps), steps);
      LinkOf(w, performs, option).Settled()
  {
    var w := Run(Initial(ps), steps);
    RunInv(Initial(ps), steps);
    QuietIsSettled(LinkOf(w, performs, option));
  }

  // ---- The code ----

  function WireMessages(ms: seq<Message>): bytes
  {
    if ms == [] then [] else Negotiate(ms[0].verb, ms[0].option) + WireMessages(ms[1..])
  }

  class OptionNegotiator {
    const us: array<OptionState>
    const him: array<OptionState>
    const local: seq<bool>
    const remote: seq<bool>

    ghost function View(): Negotiator
      reads us, him
    {
      Negotiator(us[..], him[..], local, remote)
    }

    ghost predicate Valid()
      reads us, him
    {
      us != him && View().Valid()
    }

    constructor (local: seq<bool>, remote: seq<bool>)
      requires |local| == |remote| == 256
      ensures Valid() && fresh(us) && fresh(him)
      ensures View() == Negotiator(seq(256, _ => OFF), seq(256, _ => OFF), local, remote)
    {
      us := new OptionState[256](_ => OFF);
      him := new OptionState[256](_ => OFF);
      this.local, this.remote := local, remote;
    }

    /** `request`. */
    method Ask(verb: byte, option: byte) returns (send: bytes)
      requires Valid()
      modifies us, him
      ensures Valid()
      ensures var (n, ms) := Request(old(View()), verb, option); View() == n && send == WireMessages(ms)
    {
      if verb == WILL {
        send := RequestEnable(us, verb, option);
      } else if verb == WONT {
        send := RequestDisable(us, verb, option);
      } else if verb == DO {
        send := RequestEnable(him, verb, option);
      } else if verb == DONT {
        send := RequestDisable(him, verb, option);
      } else {
        send := [];
      }
    }

    /** `handle`. */
    method Answer(verb: byte, option: byte) returns (send: bytes)
      requires Valid()
      modifies us, him
      ensures Valid()
      ensures var (n, ms) := Handle(old(View()), verb, option); View() == n && send == WireMessages(ms)
    {
      if verb == DO {
        send := Enable(us, local[option], WILL, WONT, option);
      } else if verb == DONT {
        send := Disable(us, WONT, option);
      } else if verb == WILL {
        send := Enable(him, remote[option], DO, DONT, option);
      } else if verb == WONT {
        send := Disable(him, DONT, option);
      } else {
        send := [];
      }
    }

    static method RequestEnable(states: array<OptionState>, verb: byte, option: byte) returns (send: bytes)
      requires states.Length == 256
      modifies states
      ensures var (s, ss) := AskEnable(old(states[option]));
        states[..] == old(states[..])[option := s] && send == if ss == [] then [] else Negotiate(verb, option)
    {
      var s := states[option];
      if s.enabled || s.pending {
        return [];
      }
      states[option] := s.(pending := true);
      return Negotiate(verb, option);
    }

    static method RequestDisable(states: array<OptionState>, verb: byte, option: byte) returns (send: bytes)
      requires states.Length == 256
      modifies states
      ensures var (s, ss) := AskDisable(old(states[option]));
        states[..] == old(states[..])[option := s] && send == if ss == [] then [] else Negotiate(verb, option)
    {
      var s := states[option];
      if !s.enabled && !s.pending {
        return [];
      }
      states[option] := OptionState(false, false);
      return Negotiate(verb, option);
    }

    static method Enable(states: array<OptionState>, accepted: bool, acceptVerb: byte, refuseVerb: byte, option: byte)
      returns (send: bytes)
      requires states.Length == 256
      modifies states
      ensures var (s, ss) := OnEnable(old(states[option]), accepted);
        states[..] == old(states[..])[option := s] &&
        send == if ss == [] then [] else Negotiate(if ss[0].enable then acceptVerb else refuseVerb, option)
    {
      var s := states[option];
      if s.pending {
        states[option] := OptionState(true, false);
        return [];
      }
      if !accepted {
        return Negotiate(refuseVerb, option);
      }
      if s.enabled {
        return [];
      }
      states[option] := s.(enabled := true);
      return Negotiate(acceptVerb, option);
    }

    static method Disable(states: array<OptionState>, verb: byte, option: byte) returns (send: bytes)
      requires states.Length == 256
      modifies states
      ensures var (s, ss) := OnDisable(old(states[option]));
        states[..] == old(states[..])[option := s] && send == if ss == [] then [] else Negotiate(verb, option)
    {
      var s := states[option];
      if s.enabled {
        states[option] := s.(enabled := false);
        return Negotiate(verb, option);
      }
      states[option] := s.(pending := false);
      return [];
    }
  }
}
