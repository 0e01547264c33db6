/** Switching an option off: a request for it, made while nothing is under way, has the option
    off at both ends as soon as nothing is under way again. */
module TelnetWithdrawal {
  import opened Bytes
  import opened TelnetNegotiation
  import opened TelnetAgreement

  // ---- One option ----

  /** My end has gone off, and nothing on the way can bring either end back on; the peer, if
      still on, has the word coming. */
  ghost predicate Down(l: Link)
  {
    && l.mine == OFF && !l.theirs.pending
    && !Coming(l.out, true) && !Coming(l.back, true)
    && (l.theirs.enabled ==> Coming(l.out, false))
  }

  /** Withdrawing on a quiet link: my end is off at once, and exactly if the option was on one
      disable is under way, which turns the peer off and is answered by one that ends it. */
  lemma WithdrawTurnsOff(l: Link)
    requires Tied(l) && l.Quiet()
    ensures l.Withdraw().mine == OFF && Down(l.Withdraw())
    ensures l.Withdraw().out == if l.mine.enabled then [Signal(false, false)] else []
    ensures l.mine.enabled ==>
      var taken := l.Withdraw().Flip().Take();
      && taken.mine == OFF && taken.out == [Signal(false, true)] && taken.back == []
      && taken.Flip().Take().Quiet() && taken.Flip().Take().mine == OFF == taken.Flip().Take().theirs
  {
    QuietAgrees(l);
    var w := l.Withdraw();
    if l.mine.enabled {
      ComingOne(Signal(false, false), false);
      ComingOne(Signal(false, false), true);
      assert w.out == [Signal(false, false)] && w.out[1..] == [];
    }
  }

  lemma DownMineWithdraws(l: Link)
    requires Down(l)
    ensures Down(l.Withdraw())
  {
    assert l.out + [] == l.out;
  }

  lemma DownMineTakes(l: Link)
    requires Down(l) && l.back != []
    ensures Down(l.Take())
  {
    ComingHead(l.back, true);
    assert l.out + [] == l.out;
  }

  lemma DownTheirsWithdraws(l: Link)
    requires Down(l)
    ensures Down(l.Flip().Withdraw().Flip())
  {
    var (s, ss) := AskDisable(l.theirs);
    ComingAppend(l.back, ss, true);
    if ss != [] {
      ComingOne(ss[0], true);
    }
  }

  lemma DownTheirsTakes(l: Link)
    requires Down(l) && l.out != []
    ensures Down(l.Flip().Take().Flip())
  {
    ComingHead(l.out, true);
    var (s, ss) := OnSignal(l.theirs, l.peerAccepts, l.out[0]);
    ComingAppend(l.back, ss, true);
    if ss != [] {
      ComingOne(ss[0], true);
    }
  }

  // ---- The whole negotiation ----

  /** The option seen from the end that A or B is. */
  function EndLink(w: World, ofA: bool, performs: bool, option: byte): Link
    requires w.Valid()
  {
    if ofA then LinkOf(w, performs, option) else LinkOf(w.Flip(), performs, option)
  }

  /** Does the step ask for the option to be on, in the role that one end performs or not? */
  predicate Enables(step: Step, ofA: bool, performs: bool, option: byte)
  {
    step.Ask? && step.option == option && step.verb == VerbFor(if step.byA == ofA then performs else !performs, true)
  }

  /** The step is taken by the end itself. */
  lemma OwnStepDown(w: World, step: Step, performs: bool, option: byte)
    requires w.Valid() && step.byA && !Enables(step, true, performs, option)
    requires Down(LinkOf(w, performs, option))
    ensures Next(w, step).Valid() && Down(LinkOf(Next(w, step), performs, option))
  {
    match step
    case Ask(_, verb, o) =>
      AskLink(w, verb, o, performs, option);
      DownMineWithdraws(LinkOf(w, performs, option));
    case Take(_) =>
      if w.ba != [] {
        TakeLink(w, performs, option);
        if AboutSender(w.ba[0].verb) != performs && w.ba[0].option == option {
          DownMineTakes(LinkOf(w, performs, option));
        }
      }
  }

  /** The step is taken by the peer. */
  lemma PeerStepDown(w: World, step: Step, performs: bool, option: byte)
    requires w.Valid() && !step.byA && !Enables(step, true, performs, option)
    requires Down(LinkOf(w, performs, option))
    ensures Next(w, step).Valid() && Down(LinkOf(Next(w, step), performs, option))
  {
    var f, l := w.Flip(), LinkOf(w, performs, option);
    FlipLink(w, !performs, option);
    assert LinkOf(f, !performs, option) == l.Flip() && l.Flip().Flip() == l;
    match step
    case Ask(_, verb, o) =>
      AskLink(f, verb, o, !performs, option);
      DownTheirsWithdraws(l);
      FlipLink(AskA(f, verb, o), performs, option);
    case Take(_) =>
      if f.ba != [] {
        TakeLink(f, !performs, option);
        if AboutSender(f.ba[0].verb) == performs && f.ba[0].option == option {
          DownTheirsTakes(l);
        }
        FlipLink(TakeA(f), performs, option);
      }
  }

  lemma StepDown(w: World, step: Step, ofA: bool, performs: bool, option: byte)
    requires w.Valid() && !Enables(step, ofA, performs, option) && Down(EndLink(w, ofA, performs, option))
    ensures Next(w, step).Valid() && Down(EndLink(Next(w, step), ofA, performs, option))
  {
    if ofA {
      EndStepDown(w, step, performs, option);
    } else {
      var mirrored := if step.Ask? then Ask(!step.byA, step.verb, step.option) else Take(!step.byA);
      EndStepDown(w.Flip(), mirrored, performs, option);
      assert w.Flip().Flip() == w;
      assert Next(w.Flip(), mirrored) == Next(w, step).Flip();
    }
  }

  lemma EndStepDown(w: World, step: Step, performs: bool, option: byte)
    requires w.Valid() && !Enables(step, true, performs, option) && Down(LinkOf(w, performs, option))
    ensures Next(w, step).Valid() && Down(LinkOf(Next(w, step), performs, option))
  {
    if step.byA {
      OwnStepDown(w, step, performs, option);
    } else {
      PeerStepDown(w, step, performs, option);
    }
  }

  ghost predicate NeverEnables(steps: seq<Step>, ofA: bool, performs: bool, option: byte)
  {
    forall i :: 0 <= i < |steps| ==> !Enables(steps[i], ofA, performs, option)
  }

  lemma {:induction false} RunDown(w: World, steps: seq<Step>, ofA: bool, performs: bool, option: byte)
    requires w.Valid() && NeverEnables(steps, ofA, performs, option) && Down(EndLink(w, ofA, performs, option))
    ensures Down(EndLink(Run(w, steps), ofA, performs, option))
    decreases |steps|
  {
    if steps != [] {
      var init := steps[..|steps| - 1];
      RunDown(w, init, ofA, performs, option);
      StepDown(Run(w, init), steps[|steps| - 1], ofA, performs, option);
    }
  }

  /** The request of A or B to have the option off. */
  function Disable(ofA: bool, performs: bool, option: byte): Step
  {
    Ask(ofA, VerbFor(performs, false), option)
  }

  lemma DisableDown(w: World, ofA: bool, performs: bool, option: byte)
    requires AllTied(w) && EndLink(w, ofA, performs, option).Quiet()
    ensures Next(w, Disable(ofA, performs, option)).Valid()
    ensures var l := EndLink(w, ofA, performs, option);
      var r := EndLink(Next(w, Disable(ofA, performs, option)), ofA, performs, option);
      && Down(r) && r.back == []
      && r.out == if l.mine.enabled then [Signal(false, false)] else []
  {
    var verb := VerbFor(performs, false);
    FlipTied(w);
    var v := if ofA then w else w.Flip();
    assert AllTied(v);
    AskLink(v, verb, option, performs, option);
    WithdrawTurnsOff(LinkOf(v, performs, option));
  }

  /** Whatever happened before, with any policies: if an end asks for an option to be off while
      nothing is under way for it, the word goes out exactly if the option was on; and if neither
      end asks for the option again, it is off at both ends whenever its channels are empty. */
  lemma DisablingWorks(ps: Policies, before: seq<Step>, ofA: bool, performs: bool, option: byte, after: seq<Step>)
    requires ps.Valid()
    requires EndLink(Run(Initial(ps), before), ofA, performs, option).Quiet()
    requires NeverEnables(after, ofA, performs, option)
    ensures var w := Run(Initial(ps), before);
      var asked := Next(w, Disable(ofA, performs, option));
      && asked.Valid()
      && EndLink(asked, ofA, performs, option).mine == OFF
      && (EndLink(asked, ofA, performs, option).out != [] <==> EndLink(w, ofA, performs, option).mine.enabled)
      && var r := EndLink(Run(asked, after), ofA, performs, option);
         r.mine == OFF && (r.Quiet() ==> r.theirs == OFF)
  {
    var w := Run(Initial(ps), before);
    RunTied(Initial(ps), before);
    DisableDown(w, ofA, performs, option);
    RunDown(Next(w, Disable(ofA, performs, option)), after, ofA, performs, option);
  }
}
