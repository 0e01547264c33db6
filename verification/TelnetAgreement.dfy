/** Whatever is requested, enabled or withdrawn, in whatever order: two negotiators that have
    nothing more to say to each other about an option agree on it. */
module TelnetAgreement {
  import opened Bytes
  import opened TelnetNegotiation

  ghost predicate Coming(ss: seq<Signal>, enable: bool)
  {
    exists i :: 0 <= i < |ss| && ss[i].enable == enable
  }

  lemma ComingAppend(xs: seq<Signal>, ys: seq<Signal>, enable: bool)
    ensures Coming(xs + ys, enable) <==> Coming(xs, enable) || Coming(ys, enable)
  {
    if Coming(xs, enable) {
      var i :| 0 <= i < |xs| && xs[i].enable == enable;
      assert (xs + ys)[i].enable == enable;
    } else if Coming(ys, enable) {
      var i :| 0 <= i < |ys| && ys[i].enable == enable;
      assert (xs + ys)[|xs| + i].enable == enable;
    }
  }

  lemma ComingHead(ss: seq<Signal>, enable: bool)
    requires ss != []
    ensures Coming(ss, enable) <==> ss[0].enable == enable || Coming(ss[1..], enable)
  {
    ComingAppend([ss[0]], ss[1..], enable);
    assert [ss[0]] + ss[1..] == ss;
    ComingOne(ss[0], enable);
  }

  lemma ComingOne(s: Signal, enable: bool)
    ensures Coming([s], enable) <==> s.enable == enable
  {
    assert [s][0] == s;
  }

  /** An end that is on, or waits to be, has a peer that is on, or has an enable on its way to
      the peer, or has a disable coming to it. */
  ghost predicate Held(l: Link)
  {
    && !(l.mine.enabled && l.mine.pending)
    && (l.mine.enabled || l.mine.pending ==> l.theirs.enabled || Coming(l.out, true) || Coming(l.back, false))
  }

  ghost predicate Tied(l: Link)
  {
    Held(l) && Held(l.Flip())
  }

  /** My end sends `ss` and changes to `s`. */
  lemma SendTied(l: Link, s: OptionState, ss: seq<Signal>, back: seq<Signal>)
    requires Tied(l) && |ss| <= 1 && !(s.enabled && s.pending)
    requires forall e :: Coming(back, e) ==> Coming(l.back, e)
    requires Coming(l.back, true) && !Coming(back, true) ==> s.enabled || (ss != [] && !ss[0].enable)
    requires l.mine.enabled && !s.enabled ==> ss != [] && !ss[0].enable
    requires s.enabled || s.pending ==>
      (ss != [] && ss[0].enable) ||
      ((l.mine.enabled || l.mine.pending) && (Coming(l.back, false) ==> Coming(back, false)))
    ensures Tied(l.(mine := s, out := l.out + ss, back := back))
  {
    ComingAppend(l.out, ss, true);
    ComingAppend(l.out, ss, false);
    if ss != [] {
      assert ss == [ss[0]];
      ComingOne(ss[0], true);
      ComingOne(ss[0], false);
    }
  }

  lemma AskTied(l: Link)
    requires Tied(l)
    ensures Tied(l.Ask())
  {
    var (s, ss) := AskEnable(l.mine);
    SendTied(l, s, ss, l.back);
    assert l.Ask() == l.(mine := s, out := l.out + ss, back := l.back).(asked := true);
  }

  lemma WithdrawTied(l: Link)
    requires Tied(l)
    ensures Tied(l.Withdraw())
  {
    var (s, ss) := AskDisable(l.mine);
    SendTied(l, s, ss, l.back);
  }

  lemma TakeTied(l: Link)
    requires Tied(l) && l.back != []
    ensures Tied(l.Take())
  {
    var (s, ss) := OnSignal(l.mine, l.accepts, l.back[0]);
    ComingHead(l.back, true);
    ComingHead(l.back, false);
    SendTied(l, s, ss, l.back[1..]);
  }

  lemma QuietAgrees(l: Link)
    requires Tied(l) && l.Quiet()
    ensures l.mine == l.theirs && !l.mine.pending
  {
  }

  ghost predicate AllTied(w: World)
  {
    w.Valid() && forall p, o :: Tied(LinkOf(w, p, o))
  }

  lemma FlipTied(w: World)
    requires AllTied(w)
    ensures AllTied(w.Flip())
  {
    forall p, o
      ensures Tied(LinkOf(w.Flip(), p, o))
    {
      FlipLink(w, p, o);
      assert Tied(LinkOf(w, !p, o));
      assert LinkOf(w, !p, o).Flip().Flip() == LinkOf(w, !p, o);
    }
  }

  lemma AskAllTied(w: World, verb: byte, option: byte)
    requires AllTied(w)
    ensures AllTied(AskA(w, verb, option))
  {
    AskValid(w, verb, option);
    forall p, o
      ensures Tied(LinkOf(AskA(w, verb, option), p, o))
    {
      AskLink(w, verb, option, p, o);
      assert Tied(LinkOf(w, p, o));
      AskTied(LinkOf(w, p, o));
      WithdrawTied(LinkOf(w, p, o));
    }
  }

  lemma TakeAllTied(w: World)
    requires AllTied(w)
    ensures AllTied(TakeA(w))
  {
    if w.ba != [] {
      TakeValid(w);
      forall p, o
        ensures Tied(LinkOf(TakeA(w), p, o))
      {
        TakeLink(w, p, o);
        assert Tied(LinkOf(w, p, o));
        if AboutSender(w.ba[0].verb) != p && w.ba[0].option == o {
          TakeTied(LinkOf(w, p, o));
        }
      }
    }
  }

  lemma StepTied(w: World, step: Step)
    requires AllTied(w)
    ensures AllTied(Next(w, step))
  {
    FlipTied(w);
    match step
    case Ask(byA, verb, option) =>
      if byA {
        AskAllTied(w, verb, option);
      } else {
        AskAllTied(w.Flip(), verb, option);
        FlipTied(AskA(w.Flip(), verb, option));
      }
    case Take(byA) =>
      if byA {
        TakeAllTied(w);
      } else {
        TakeAllTied(w.Flip());
        FlipTied(TakeA(w.Flip()));
      }
  }

  lemma {:induction false} RunTied(w: World, steps: seq<Step>)
    requires AllTied(w)
    ensures AllTied(Run(w, steps))
    decreases |steps|
  {
    if steps != [] {
      RunTied(w, steps[..|steps| - 1]);
      StepTied(Run(w, steps[..|steps| - 1]), steps[|steps| - 1]);
    }
  }

  /** For any policies and any interleaving of WILL, WONT, DO and DONT requests: whenever nothing
      is under way for an option in one role, both ends hold the same view of it and no request
      is left open. */
  lemma NegotiationAgrees(ps: Policies, steps: seq<Step>, performs: bool, option: byte)
    requires ps.Valid()
    requires var w := Run(Initial(ps), steps);
      Signals(w.ab, performs, option) == [] && Signals(w.ba, !performs, option) == []
    ensures var w := Run(Initial(ps), steps);
      && State(w.a, performs, option) == State(w.b, !performs, option)
      && !State(w.a, performs, option).pending
  {
    RunTied(Initial(ps), steps);
    QuietAgrees(LinkOf(Run(Initial(ps), steps), performs, option));
  }
}
