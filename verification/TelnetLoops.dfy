/** When negotiations come to an end. A negotiator sends nothing but answers to what it
    receives, yet two of them can answer each other without end. */
module TelnetLoops {
  import opened Bytes
  import opened TelnetCodec
  import opened TelnetNegotiation

  // ---- Two accepting ends ----

  lemma RunSnoc(w: World, steps: seq<Step>, step: Step)
    requires w.Valid()
    ensures Run(w, steps + [step]) == Next(Run(w, steps), step)
  {
    assert (steps + [step])[..|steps|] == steps;
  }

  /** Both ends off, with an enable and a disable under way from A. */
  ghost predicate Bouncing(w: World, o: byte)
  {
    && w.Valid() && w.a.us[o] == OFF && w.b.him[o] == OFF && w.a.local[o] && w.b.remote[o]
    && w.ba == [] && |w.ab| == 2
    && w.ab[0].verb == WILL && w.ab[1].verb == WONT && w.ab[0].option == o && w.ab[1].option == o
  }

  function Rounds(o: byte, n: nat): seq<Step>
  {
    if n == 0 then [Ask(true, WILL, o), Ask(true, WONT, o)]
    else Rounds(o, n - 1) + [Take(false)] + [Take(false)] + [Take(true)] + [Take(true)]
  }

  lemma FirstHalf(w: World, o: byte)
    requires Bouncing(w, o)
    ensures var w1 := Next(w, Take(false));
      w1.Valid() && w1.a == w.a && w1.b == w.b.(him := w.b.him[o := OptionState(true, false)]) &&
      w1.ab == [w.ab[1]] && w1.ba == [Message(DO, o, true)] && w1.handled == w.handled + 1 && w1.requests == w.requests
  {
    assert w.ab[1..] == [w.ab[1]];
    TakeValid(w.Flip());
  }

  lemma BounceBack(w: World, o: byte)
    requires Bouncing(w, o)
    ensures var w1 := Next(w, Take(false));
      w1.Valid() && var w2 := Next(w1, Take(false));
      w2.Valid() && w2.a == w.a && w2.b == w.b && w2.ab == [] &&
        w2.ba == [Message(DO, o, true), Message(DONT, o, true)] &&
      w2.handled == w.handled + 2 && w2.requests == w.requests
  {
    FirstHalf(w, o);
    var w1 := Next(w, Take(false));
    TakeValid(w1.Flip());
    assert w1.b.him[o := OFF] == w.b.him;
    assert [w.ab[1]][1..] == [];
  }

  /** From A's side the same happens again, so the situation repeats. */
  lemma BounceForth(w: World, o: byte)
    requires w.Valid() && w.a.us[o] == OFF && w.a.local[o] && w.ab == []
    requires w.ba == [Message(DO, o, true), Message(DONT, o, true)]
    ensures var w1 := Next(w, Take(true));
      w1.Valid() && var w2 := Next(w1, Take(true));
      w2.Valid() && w2.a == w.a && w2.b == w.b && w2.ba == [] &&
        w2.ab == [Message(WILL, o, true), Message(WONT, o, true)] &&
      w2.handled == w.handled + 2 && w2.requests == w.requests
  {
    TakeValid(w);
    var w1 := Next(w, Take(true));
    assert w1.ba == [Message(DONT, o, true)] && w1.ab == [Message(WILL, o, true)];
    assert w1.a == w.a.(us := w.a.us[o := OptionState(true, false)]);
    TakeValid(w1);
    assert w1.a.us[o := OFF] == w.a.us;
    assert [Message(DONT, o, true)][1..] == [];
  }

  /** A WILL withdrawn by a WONT before the answer arrives: two accepting peers then answer each
      other without end. Two requests suffice for arbitrarily many deliveries. */
  lemma {:induction false} PingPong(ps: Policies, o: byte, n: nat)
    requires ps.Valid() && ps.localA[o] && ps.remoteB[o]
    ensures var w := Run(Initial(ps), Rounds(o, n));
      Bouncing(w, o) && w.requests == 2 && w.handled == 4 * n
    decreases n
  {
    var w0 := Initial(ps);
    if n == 0 {
      assert Rounds(o, 0) == [] + [Ask(true, WILL, o)] + [Ask(true, WONT, o)];
      RunSnoc(w0, [], Ask(true, WILL, o));
      RunSnoc(w0, [] + [Ask(true, WILL, o)], Ask(true, WONT, o));
    } else {
      PingPong(ps, o, n - 1);
      var w := Run(w0, Rounds(o, n - 1));
      BounceBack(w, o);
      var w2 := Next(Next(w, Take(false)), Take(false));
      BounceForth(w2, o);
      var s := Rounds(o, n - 1);
      RunSnoc(w0, s, Take(false));
      RunSnoc(w0, s + [Take(false)], Take(false));
      RunSnoc(w0, s + [Take(false)] + [Take(false)], Take(true));
      RunSnoc(w0, s + [Take(false)] + [Take(false)] + [Take(true)], Take(true));
    }
  }

  // ---- A refusing end ----

  /** The options that a negotiator is counted on to refuse, in each role. */
  datatype Refusals = Refusals(us: seq<bool>, him: seq<bool>)
  {
    predicate Of(n: Negotiator)
      requires n.Valid()
    {
      && |us| == |him| == 256
      && (forall o: byte :: us[o] ==> !n.local[o])
      && (forall o: byte :: him[o] ==> !n.remote[o])
    }
  }

  /** Of the two ends of an option, exactly one is counted on to refuse it. */
  predicate Complementary(ra: Refusals, rb: Refusals)
  {
    && |ra.us| == |ra.him| == |rb.us| == |rb.him| == 256
    && (forall o: byte :: rb.him[o] == !ra.us[o])
    && (forall o: byte :: rb.us[o] == !ra.him[o])
  }

  /** What a signal can still give rise to, itself included. */
  function Cost(enable: bool, refused: bool): nat
  {
    if enable then if refused then 3 else 4 else if refused then 1 else 2
  }

  function SignalsCost(ss: seq<Signal>, refused: bool): nat
  {
    if ss == [] then 0 else Cost(ss[0].enable, refused) + SignalsCost(ss[1..], refused)
  }

  function Load(s: OptionState, refuses: bool): nat
  {
    if refuses && s.enabled then 2 else 0
  }

  /** Receiving lowers the potential of an option by one at least. */
  lemma ReceivingLowers(s: OptionState, accepted: bool, signal: Signal, refuses: bool)
    requires refuses ==> !accepted
    ensures var (s', ss) := OnSignal(s, accepted, signal);
      SignalsCost(ss, !refuses) + Load(s', refuses) < Cost(signal.enable, refuses) + Load(s, refuses)
  {
    var (s', ss) := OnSignal(s, accepted, signal);
    OneSignal(ss, !refuses);
  }

  /** A request raises it by four at most. */
  lemma AskingRaises(s: OptionState, enable: bool, refuses: bool)
    ensures var (s', ss) := if enable then AskEnable(s) else AskDisable(s);
      SignalsCost(ss, !refuses) + Load(s', refuses) <= 4 + Load(s, refuses)
  {
    var (s', ss) := if enable then AskEnable(s) else AskDisable(s);
    OneSignal(ss, !refuses);
  }

  lemma OneSignal(ss: seq<Signal>, refused: bool)
    requires |ss| <= 1
    ensures SignalsCost(ss, refused) == if ss == [] then 0 else Cost(ss[0].enable, refused)
  {
  }

  /** Is a message about something that its receiver is counted on to refuse? */
  predicate Refused(m: Message, r: Refusals)
    requires |r.us| == |r.him| == 256
  {
    if AboutSender(m.verb) then r.him[m.option] else r.us[m.option]
  }

  function ChannelCost(ms: seq<Message>, r: Refusals): nat
    requires |r.us| == |r.him| == 256
  {
    if ms == [] then 0 else Cost(Enabling(ms[0].verb), Refused(ms[0], r)) + ChannelCost(ms[1..], r)
  }

  function StatesLoad(states: seq<OptionState>, refusals: seq<bool>): nat
    requires |states| == |refusals|
  {
    if states == [] then 0 else Load(states[0], refusals[0]) + StatesLoad(states[1..], refusals[1..])
  }

  function EndLoad(n: Negotiator, r: Refusals): nat
    requires n.Valid() && |r.us| == |r.him| == 256
  {
    StatesLoad(n.us, r.us) + StatesLoad(n.him, r.him)
  }

  function Potential(w: World, ra: Refusals, rb: Refusals): nat
    requires w.Valid() && |ra.us| == |ra.him| == |rb.us| == |rb.him| == 256
  {
    ChannelCost(w.ab, rb) + ChannelCost(w.ba, ra) + EndLoad(w.a, ra) + EndLoad(w.b, rb)
  }

  lemma {:induction false} ChannelCostAppend(xs: seq<Message>, ys: seq<Message>, r: Refusals)
    requires |r.us| == |r.him| == 256
    ensures ChannelCost(xs + ys, r) == ChannelCost(xs, r) + ChannelCost(ys, r)
    decreases |xs|
  {
    if xs == [] {
      assert xs + ys == ys;
    } else {
      assert (xs + ys)[1..] == xs[1..] + ys;
      ChannelCostAppend(xs[1..], ys, r);
    }
  }

  /** Messages about one option cost as much as their signals. */
  lemma {:induction false} MessagesCost(performs: bool, option: byte, ss: seq<Signal>, r: Refusals)
    requires |r.us| == |r.him| == 256
    ensures ChannelCost(Messages(performs, option, ss), r) ==
      SignalsCost(ss, if performs then r.him[option] else r.us[option])
    decreases |ss|
  {
    if ss != [] {
      assert Messages(performs, option, ss)[1..] == Messages(performs, option, ss[1..]);
      MessagesCost(performs, option, ss[1..], r);
    }
  }

  lemma {:induction false} StatesLoadUpdate(states: seq<OptionState>, refusals: seq<bool>, i: nat, s: OptionState)
    requires i < |states| == |refusals|
    ensures StatesLoad(states[i := s], refusals) + Load(states[i], refusals[i]) ==
      StatesLoad(states, refusals) + Load(s, refusals[i])
    decreases |states|
  {
    if i == 0 {
      assert states[i := s][1..] == states[1..];
    } else {
      assert states[i := s][1..] == states[1..][i - 1 := s];
      StatesLoadUpdate(states[1..], refusals[1..], i - 1, s);
    }
  }

  lemma EndLoadUpdate(n: Negotiator, performs: bool, option: byte, s: OptionState, r: Refusals)
    requires n.Valid() && |r.us| == |r.him| == 256
    ensures var refuses := if performs then r.us[option] else r.him[option];
      EndLoad(Update(n, performs, option, s), r) + Load(State(n, performs, option), refuses) ==
        EndLoad(n, r) + Load(s, refuses)
  {
    if performs {
      StatesLoadUpdate(n.us, r.us, option, s);
    } else {
      StatesLoadUpdate(n.him, r.him, option, s);
    }
  }

  /** A sends messages about one option and changes its state. */
  lemma PotentialAfter(w: World, w': World, performs: bool, option: byte, s: OptionState, ss: seq<Signal>,
                       ra: Refusals, rb: Refusals)
    requires w.Valid() && w'.Valid() && Complementary(ra, rb)
    requires w'.a == Update(w.a, performs, option, s) && w'.b == w.b
    requires w'.ab == w.ab + Messages(performs, option, ss)
    ensures var refuses := if performs then ra.us[option] else ra.him[option];
      Potential(w', ra, rb) + ChannelCost(w.ba, ra) + Load(State(w.a, performs, option), refuses) ==
        Potential(w, ra, rb) + ChannelCost(w'.ba, ra) + SignalsCost(ss, !refuses) + Load(s, refuses)
  {
    ChannelCostAppend(w.ab, Messages(performs, option, ss), rb);
    MessagesCost(performs, option, ss, rb);
    EndLoadUpdate(w.a, performs, option, s, ra);
  }

  lemma TakeLowers(w: World, ra: Refusals, rb: Refusals)
    requires w.Valid() && w.ba != [] && Complementary(ra, rb) && ra.Of(w.a)
    ensures TakeA(w).Valid() && Potential(TakeA(w), ra, rb) < Potential(w, ra, rb)
  {
    TakeValid(w);
    var m := w.ba[0];
    var performs := !AboutSender(m.verb);
    var state, accepted := State(w.a, performs, m.option), Accepts(w.a, performs, m.option);
    var signal := Signal(Enabling(m.verb), false);
    var (s, ss) := OnSignal(state, accepted, signal);
    PotentialAfter(w, TakeA(w), performs, m.option, s, ss, ra, rb);
    ReceivingLowers(state, accepted, signal, Refused(m, ra));
  }

  lemma AskRaises(w: World, verb: byte, option: byte, ra: Refusals, rb: Refusals)
    requires w.Valid() && Complementary(ra, rb)
    ensures AskA(w, verb, option).Valid()
    ensures Potential(AskA(w, verb, option), ra, rb) <= Potential(w, ra, rb) + 4
  {
    AskValid(w, verb, option);
    if IsVerb(verb) {
      var performs := AboutSender(verb);
      var state := State(w.a, performs, option);
      var (s, ss) := if Enabling(verb) then AskEnable(state) else AskDisable(state);
      PotentialAfter(w, AskA(w, verb, option), performs, option, s, ss, ra, rb);
      AskingRaises(state, Enabling(verb), if performs then ra.us[option] else ra.him[option]);
    } else {
      assert w.ab + [] == w.ab;
    }
  }

  /** Every delivery so far, and every one still to come, is paid for by a request. */
  ghost predicate Paid(w: World, ra: Refusals, rb: Refusals)
  {
    && w.Valid() && Complementary(ra, rb) && ra.Of(w.a) && rb.Of(w.b)
    && w.handled + Potential(w, ra, rb) <= 4 * w.requests
  }

  lemma FlipPaid(w: World, ra: Refusals, rb: Refusals)
    requires Paid(w, ra, rb)
    ensures Paid(w.Flip(), rb, ra)
  {
    forall o: byte
      ensures ra.him[o] == !rb.us[o] && ra.us[o] == !rb.him[o]
    {
    }
  }

  lemma AskPaid(w: World, verb: byte, option: byte, ra: Refusals, rb: Refusals)
    requires Paid(w, ra, rb)
    ensures Paid(AskA(w, verb, option), ra, rb)
  {
    AskRaises(w, verb, option, ra, rb);
  }

  lemma TakePaid(w: World, ra: Refusals, rb: Refusals)
    requires Paid(w, ra, rb)
    ensures Paid(TakeA(w), ra, rb)
  {
    if w.ba != [] {
      TakeLowers(w, ra, rb);
    }
  }

  lemma StepPaid(w: World, step: Step, ra: Refusals, rb: Refusals)
    requires Paid(w, ra, rb)
    ensures Paid(Next(w, step), ra, rb)
  {
    FlipPaid(w, ra, rb);
    match step
    case Ask(byA, verb, option) =>
      if byA {
        AskPaid(w, verb, option, ra, rb);
      } else {
        AskPaid(w.Flip(), verb, option, rb, ra);
        FlipPaid(AskA(w.Flip(), verb, option), rb, ra);
      }
    case Take(byA) =>
      if byA {
        TakePaid(w, ra, rb);
      } else {
        TakePaid(w.Flip(), rb, ra);
        FlipPaid(TakeA(w.Flip()), rb, ra);
      }
  }

  lemma {:induction false} RunPaid(w: World, steps: seq<Step>, ra: Refusals, rb: Refusals)
    requires Paid(w, ra, rb)
    ensures Paid(Run(w, steps), ra, rb)
    decreases |steps|
  {
    if steps != [] {
      RunPaid(w, steps[..|steps| - 1], ra, rb);
      StepPaid(Run(w, steps[..|steps| - 1]), steps[|steps| - 1], ra, rb);
    }
  }

  // ---- The exact condition ----

  /** Both ends are willing to have the option on, in one of its two roles. */
  predicate MutuallyAccepted(ps: Policies, o: byte)
    requires ps.Valid()
  {
    (ps.localA[o] && ps.remoteB[o]) || (ps.remoteA[o] && ps.localB[o])
  }

  lemma {:induction false} NothingOn(states: seq<OptionState>, refusals: seq<bool>)
    requires |states| == |refusals| && forall i :: 0 <= i < |states| ==> states[i] == OFF
    ensures StatesLoad(states, refusals) == 0
    decreases |states|
  {
    if states != [] {
      NothingOn(states[1..], refusals[1..]);
    }
  }

  /** If no option is accepted by both ends, the wire falls silent after at most four deliveries
      per request, whatever is requested, WONT and DONT included. */
  lemma RefusalDrains(ps: Policies, steps: seq<Step>)
    requires ps.Valid() && forall o: byte :: !MutuallyAccepted(ps, o)
    ensures var w := Run(Initial(ps), steps); w.handled + |w.ab| + |w.ba| <= 4 * w.requests
  {
    var ra := Refusals(seq(256, o requires 0 <= o < 256 => !ps.localA[o]),
      seq(256, o requires 0 <= o < 256 => !ps.remoteA[o]));
    var rb := Refusals(ps.remoteA, ps.localA);
    var w0 := Initial(ps);
    assert Paid(w0, ra, rb) by {
      NothingOn(w0.a.us, ra.us);
      NothingOn(w0.a.him, ra.him);
      NothingOn(w0.b.us, rb.us);
      NothingOn(w0.b.him, rb.him);
      forall o: byte
        ensures (rb.us[o] ==> !w0.b.local[o]) && (rb.him[o] ==> !w0.b.remote[o])
      {
        assert !MutuallyAccepted(ps, o);
      }
    }
    RunPaid(w0, steps, ra, rb);
    CostsAtLeastOne(Run(w0, steps).ab, rb);
    CostsAtLeastOne(Run(w0, steps).ba, ra);
  }

  lemma {:induction false} CostsAtLeastOne(ms: seq<Message>, r: Refusals)
    requires |r.us| == |r.him| == 256
    ensures |ms| <= ChannelCost(ms, r)
    decreases |ms|
  {
    if ms != [] {
      CostsAtLeastOne(ms[1..], r);
    }
  }

  /** The same run with the two ends exchanged. */
  function Mirrored(steps: seq<Step>): seq<Step>
  {
    if steps == [] then []
    else
      var step := steps[|steps| - 1];
      Mirrored(steps[..|steps| - 1]) +
      [if step.Ask? then Ask(!step.byA, step.verb, step.option) else Take(!step.byA)]
  }

  lemma {:induction false} RunMirrored(w: World, steps: seq<Step>)
    requires w.Valid()
    ensures Run(w.Flip(), Mirrored(steps)) == Run(w, steps).Flip()
    decreases |steps|
  {
    if steps != [] {
      var init, step := steps[..|steps| - 1], steps[|steps| - 1];
      var step' := if step.Ask? then Ask(!step.byA, step.verb, step.option) else Take(!step.byA);
      RunMirrored(w, init);
      RunSnoc(w.Flip(), Mirrored(init), step');
      assert Run(w, init).Flip().Flip() == Run(w, init);
    }
  }

  /** If both ends accept an option, two requests can cause any number of deliveries. */
  lemma MutualLoops(ps: Policies, o: byte, n: nat)
    requires ps.Valid() && MutuallyAccepted(ps, o)
    ensures exists steps: seq<Step> :: Run(Initial(ps), steps).requests == 2 && Run(Initial(ps), steps).handled == 4 * n
  {
    if ps.localA[o] && ps.remoteB[o] {
      PingPong(ps, o, n);
      var steps := Rounds(o, n);
      assert Run(Initial(ps), steps).requests == 2;
    } else {
      var flipped := Policies(ps.localB, ps.remoteB, ps.localA, ps.remoteA);
      PingPong(flipped, o, n);
      RunMirrored(Initial(flipped), Rounds(o, n));
      assert Initial(flipped).Flip() == Initial(ps);
      var steps := Mirrored(Rounds(o, n));
      assert Run(Initial(ps), steps).requests == 2;
    }
  }

  /** Every run with finitely many requests of any kind drains exactly if the policies have no
      option that both ends accept. */
  lemma DrainsIff(ps: Policies)
    requires ps.Valid()
    ensures (forall steps: seq<Step> :: Run(Initial(ps), steps).handled <= 4 * Run(Initial(ps), steps).requests) <==>
      forall o: byte :: !MutuallyAccepted(ps, o)
  {
    if o: byte :| MutuallyAccepted(ps, o) {
      MutualLoops(ps, o, 3);
      var steps: seq<Step> :| Run(Initial(ps), steps).requests == 2 && Run(Initial(ps), steps).handled == 12;
      assert Run(Initial(ps), steps).handled > 4 * Run(Initial(ps), steps).requests;
    } else {
      forall steps: seq<Step>
        ensures Run(Initial(ps), steps).handled <= 4 * Run(Initial(ps), steps).requests
      {
        RefusalDrains(ps, steps);
      }
    }
  }
}
