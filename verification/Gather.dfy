/** Launching tasks and waiting for all of them on a timer that the last one cancels: the
    mechanism under `when_all` and `when_any`. Everything runs on one thread, so other
    coroutines only move while the caller is suspended. */
module Gather {
  import opened Options

  type Error = nat

  datatype Outcome<T> = Value(value: T) | Error(error: Error)

  /** A task returns from its body first and runs its completion handler afterwards. */
  datatype Phase = Unlaunched | Posted | Running | Returned | Completed

  datatype Caller = Launching | Waiting | Ready | Resumed

  /** `order` lists the tasks in the order in which their bodies returned. With `posts` unset a
      task could run to its end inside the call that spawns it. */
  datatype State<T> = State(posts: bool, caller: Caller, launched: nat, phases: seq<Phase>, remaining: nat,
                            values: seq<Option<T>>, errors: seq<Option<Error>>, order: seq<nat>)
  {
    function N(): nat
    {
      |phases|
    }

    ghost predicate AllCompleted()
    {
      forall i :: 0 <= i < N() ==> phases[i] == Completed
    }
  }

  function New<T>(n: nat, posts: bool): State<T>
  {
    State(posts, Launching, 0, seq(n, _ => Unlaunched), n, seq(n, _ => None), seq(n, _ => None), [])
  }

  datatype Step<T> =
    | Launch
    | LaunchInline(outcome: Outcome<T>)   // only without the post at the start of a task
    | Wait
    | Begin(i: nat)
    | Return(i: nat, outcome: Outcome<T>)
    | Complete(i: nat)
    | Resume

  predicate Enabled<T>(s: State<T>, step: Step<T>)
  {
    && |s.values| == s.N() && |s.errors| == s.N()
    && match step
       case Launch => s.caller == Launching && s.launched < s.N()
       case LaunchInline(_) => s.caller == Launching && s.launched < s.N() && !s.posts && s.remaining > 0
       case Wait => s.caller == Launching && s.launched == s.N()
       case Begin(i) => s.caller != Launching && i < s.N() && s.phases[i] == Posted
       case Return(i, _) => s.caller != Launching && i < s.N() && s.phases[i] == Running
       case Complete(i) => s.caller != Launching && i < s.N() && s.phases[i] == Returned && s.remaining > 0
       case Resume => s.caller == Ready
  }

  /** The body's result goes into the task's own slot. */
  function Stored<T>(s: State<T>, i: nat, outcome: Outcome<T>): State<T>
    requires i < s.N() == |s.values| == |s.errors|
  {
    match outcome
    case Value(v) => s.(values := s.values[i := Some(v)], order := s.order + [i])
    case Error(e) => s.(errors := s.errors[i := Some(e)], order := s.order + [i])
  }

  /** The completion handler. Cancelling the timer is lost on a caller that is not waiting. */
  function Counted<T>(s: State<T>, i: nat): State<T>
    requires i < s.N() && s.remaining > 0
  {
    s.(phases := s.phases[i := Completed], remaining := s.remaining - 1,
       caller := if s.remaining == 1 && s.caller == Waiting then Ready else s.caller)
  }

  function Next<T>(s: State<T>, step: Step<T>): State<T>
    requires Enabled(s, step)
  {
    match step
    case Launch => s.(phases := s.phases[s.launched := Posted], launched := s.launched + 1)
    case LaunchInline(outcome) => Counted(Stored(s, s.launched, outcome), s.launched).(launched := s.launched + 1)
    case Wait => s.(caller := Waiting)
    case Begin(i) => s.(phases := s.phases[i := Running])
    case Return(i, outcome) => Stored(s, i, outcome).(phases := s.phases[i := Returned])
    case Complete(i) => Counted(s, i)
    case Resume => s.(caller := Resumed)
  }

  predicate IsRun<T>(s: State<T>, steps: seq<Step<T>>)
    decreases |steps|
  {
    steps == [] || (Enabled(s, steps[0]) && IsRun(Next(s, steps[0]), steps[1..]))
  }

  function Run<T>(s: State<T>, steps: seq<Step<T>>): State<T>
    requires IsRun(s, steps)
    decreases |steps|
  {
    if steps == [] then s else Run(Next(s, steps[0]), steps[1..])
  }

  // ---- Invariant ----

  /** How many tasks have not completed. */
  function Open(phases: seq<Phase>): nat
  {
    if phases == [] then 0 else (if phases[0] == Completed then 0 else 1) + Open(phases[1..])
  }

  ghost predicate Inv<T>(s: State<T>)
  {
    && |s.values| == s.N() && |s.errors| == s.N()
    && s.launched <= s.N() && (s.caller != Launching ==> s.launched == s.N())
    && (forall i :: 0 <= i < s.N() ==> (s.phases[i] == Unlaunched <==> s.launched <= i))
    // the counter is exact
    && s.remaining == Open(s.phases)
    // a slot pair is filled, on exactly one side, once the body has returned
    && (forall i :: 0 <= i < s.N() ==>
          if s.phases[i] in {Returned, Completed} then s.values[i].Some? != s.errors[i].Some?
          else s.values[i].None? && s.errors[i].None?)
    && (forall i :: 0 <= i < s.N() ==> (i in s.order <==> s.phases[i] in {Returned, Completed}))
    && (forall k :: 0 <= k < |s.order| ==> s.order[k] < s.N())
    && (forall j, k :: 0 <= j < k < |s.order| ==> s.order[j] != s.order[k])
    // the caller is woken by the last completion, and not before
    && (s.caller in {Ready, Resumed} ==> s.remaining == 0)
    && (s.caller == Waiting && s.posts && s.N() > 0 ==> s.remaining > 0)
    && (s.caller == Launching && s.posts ==> forall i :: 0 <= i < s.N() ==> s.phases[i] in {Unlaunched, Posted})
  }

  lemma {:induction false} OpenUpdate(phases: seq<Phase>, i: nat, p: Phase)
    requires i < |phases|
    ensures Open(phases[i := p]) + (if phases[i] == Completed then 0 else 1) ==
      Open(phases) + (if p == Completed then 0 else 1)
    decreases |phases|
  {
    if i == 0 {
      assert phases[i := p][1..] == phases[1..];
    } else {
      assert phases[i := p][1..] == phases[1..][i - 1 := p];
      OpenUpdate(phases[1..], i - 1, p);
    }
  }

  /** The counter at zero means that every task has completed. */
  lemma {:induction false} ZeroMeansAll(phases: seq<Phase>)
    ensures Open(phases) == 0 <==> forall i :: 0 <= i < |phases| ==> phases[i] == Completed
    ensures Open(phases) <= |phases|
    decreases |phases|
  {
    if phases != [] {
      ZeroMeansAll(phases[1..]);
      assert phases == [phases[0]] + phases[1..];
    }
  }

  lemma LaunchKeeps<T>(s: State<T>)
    requires Inv(s) && Enabled(s, Launch)
    ensures Inv(Next(s, Launch))
  {
    OpenUpdate(s.phases, s.launched, Posted);
  }

  lemma InlineKeeps<T>(s: State<T>, outcome: Outcome<T>)
    requires Inv(s) && Enabled(s, LaunchInline(outcome))
    ensures Inv(Next(s, LaunchInline(outcome)))
  {
    OpenUpdate(s.phases, s.launched, Completed);
    assert s.launched !in s.order;
    var r := Next(s, LaunchInline(outcome));
    assert r.order == s.order + [s.launched] && r.caller == Launching && !r.posts;
  }

  lemma WaitKeeps<T>(s: State<T>)
    requires Inv(s) && Enabled(s, Wait)
    ensures Inv(Next(s, Wait))
  {
    ZeroMeansAll(s.phases);
  }

  lemma BeginKeeps<T>(s: State<T>, i: nat)
    requires Inv(s) && Enabled(s, Begin(i))
    ensures Inv(Next(s, Begin(i)))
  {
    OpenUpdate(s.phases, i, Running);
  }

  lemma ReturnKeeps<T>(s: State<T>, i: nat, outcome: Outcome<T>)
    requires Inv(s) && Enabled(s, Return(i, outcome))
    ensures Inv(Next(s, Return(i, outcome)))
  {
    OpenUpdate(s.phases, i, Returned);
    assert i !in s.order;
  }

  lemma CompleteKeeps<T>(s: State<T>, i: nat)
    requires Inv(s) && Enabled(s, Complete(i))
    ensures Inv(Next(s, Complete(i)))
  {
    OpenUpdate(s.phases, i, Completed);
  }

  lemma StepKeeps<T>(s: State<T>, step: Step<T>)
    requires Inv(s) && Enabled(s, step)
    ensures Inv(Next(s, step)) && Next(s, step).posts == s.posts && Next(s, step).N() == s.N()
  {
    match step
    case Launch => LaunchKeeps(s);
    case LaunchInline(outcome) => InlineKeeps(s, outcome);
    case Wait => WaitKeeps(s);
    case Begin(i) => BeginKeeps(s, i);
    case Return(i, outcome) => ReturnKeeps(s, i, outcome);
    case Complete(i) => CompleteKeeps(s, i);
    case Resume =>
  }

  lemma {:induction false} RunKeeps<T>(s: State<T>, steps: seq<Step<T>>)
    requires Inv(s) && IsRun(s, steps)
    ensures Inv(Run(s, steps)) && Run(s, steps).posts == s.posts && Run(s, steps).N() == s.N()
    decreases |steps|
  {
    if steps != [] {
      StepKeeps(s, steps[0]);
      RunKeeps(Next(s, steps[0]), steps[1..]);
    }
  }

  lemma {:induction false} OpenNew(n: nat)
    ensures Open(seq(n, _ => Unlaunched)) == n
    decreases n
  {
    if n > 0 {
      assert seq(n, _ => Unlaunched)[1..] == seq(n - 1, _ => Unlaunched);
      OpenNew(n - 1);
    }
  }

  lemma NewInv<T>(n: nat, posts: bool)
    ensures Inv(New<T>(n, posts))
  {
    OpenNew(n);
  }

  // ---- What the caller can rely on ----

  /** The caller goes on only after every task has completed. */
  lemma ResumesAfterAll<T>(n: nat, posts: bool, steps: seq<Step<T>>)
    requires IsRun(New(n, posts), steps)
    ensures var s := Run(New(n, posts), steps);
      s.caller in {Ready, Resumed} ==> s.AllCompleted()
  {
    NewInv<T>(n, posts);
    RunKeeps(New(n, posts), steps);
    ZeroMeansAll(Run(New(n, posts), steps).phases);
  }

  /** Stuck: every task is done and the caller waits for a cancellation that has already been. */
  ghost predicate Hangs<T>(s: State<T>)
  {
    s.caller == Waiting && s.N() > 0 && s.AllCompleted()
  }

  /** Because each task first posts itself to the executor, the last completion finds the
      caller waiting. */
  lemma NeverHangs<T>(n: nat, steps: seq<Step<T>>)
    requires IsRun(New(n, true), steps)
    ensures !Hangs(Run(New(n, true), steps))
  {
    NewInv<T>(n, true);
    RunKeeps(New(n, true), steps);
    ZeroMeansAll(Run(New(n, true), steps).phases);
  }

  /** Without that post a task ending at once cancels the timer too early, and the caller hangs. */
  lemma HangsWithoutPost<T>(v: T)
    ensures var steps := [LaunchInline(Value(v)), Wait];
      IsRun(New(1, false), steps) && Hangs(Run(New(1, false), steps))
  {
    var s0: State<T> := New(1, false);
    var s1 := Next(s0, LaunchInline(Value(v)));
    var s2 := Next(s1, Wait);
    var steps: seq<Step<T>> := [LaunchInline(Value(v)), Wait];
    var last: seq<Step<T>> := [Wait];
    assert steps[1..] == last && last[1..] == [];
    assert Enabled(s1, Wait) && IsRun(s2, []) && Run(s2, []) == s2;
    assert IsRun(s1, last) && Run(s1, last) == s2;
    assert s2.phases == [Completed];
  }

  /** No run leaves the caller waiting with all tasks done. */
  ghost predicate NeverHangsWith<T(!new)>(posts: bool)
  {
    forall n: nat, steps: seq<Step<T>> :: IsRun(New(n, posts), steps) ==> !Hangs(Run(New(n, posts), steps))
  }

  /** The post at the start of each task is exactly what keeps the caller from hanging. */
  lemma NeverHangsIff<T(!new)>(posts: bool, v: T)
    ensures NeverHangsWith<T>(posts) <==> posts
  {
    if posts {
      forall n: nat, steps: seq<Step<T>> | IsRun(New(n, true), steps)
        ensures !Hangs(Run(New(n, true), steps))
      {
        NeverHangs(n, steps);
      }
    } else {
      HangsWithoutPost(v);
      var steps := [LaunchInline(Value(v)), Wait];
      assert IsRun(New<T>(1, false), steps) && Hangs(Run(New<T>(1, false), steps));
    }
  }

  // ---- Outcomes ----

  /** What the bodies returned, task by task, as the steps tell. */
  function Outcomes<T>(steps: seq<Step<T>>): map<nat, Outcome<T>>
    decreases |steps|
  {
    if steps == [] then map[]
    else if steps[0].Return? then map[steps[0].i := steps[0].outcome] + Outcomes(steps[1..])
    else Outcomes(steps[1..])
  }

  ghost predicate SlotHolds<T>(s: State<T>, i: nat, o: Outcome<T>)
    requires i < |s.values| == |s.errors|
  {
    match o
    case Value(v) => s.values[i] == Some(v) && s.errors[i] == None
    case Error(e) => s.values[i] == None && s.errors[i] == Some(e)
  }

  lemma StepSlots<T>(s: State<T>, step: Step<T>, i: nat)
    requires Inv(s) && s.posts && Enabled(s, step) && i < s.N()
    ensures var r := Next(s, step);
      && |r.values| == |r.errors| == s.N()
      && if step.Return? && step.i == i
         then SlotHolds(r, i, step.outcome) && s.phases[i] == Running && r.phases[i] == Returned
         else r.values[i] == s.values[i] && r.errors[i] == s.errors[i]
              && (s.phases[i] in {Returned, Completed} ==> r.phases[i] in {Returned, Completed})
  {
  }

  /** From any point on, a slot changes exactly by its task's return, and to its outcome. */
  lemma {:induction false} SlotsFollowOutcomes<T>(s: State<T>, steps: seq<Step<T>>, i: nat)
    requires Inv(s) && s.posts && IsRun(s, steps) && i < s.N()
    ensures var r := Run(s, steps);
      && r.N() == s.N() && |r.values| == |r.errors| == s.N()
      && (if i in Outcomes(steps) then SlotHolds(r, i, Outcomes(steps)[i])
          else r.values[i] == s.values[i] && r.errors[i] == s.errors[i])
      && (i in Outcomes(steps) ==> s.phases[i] !in {Returned, Completed})
    decreases |steps|
  {
    if steps != [] {
      StepKeeps(s, steps[0]);
      StepSlots(s, steps[0], i);
      SlotsFollowOutcomes(Next(s, steps[0]), steps[1..], i);
    }
  }

  /** The caller goes on at most once. */
  function Resumes<T>(steps: seq<Step<T>>): nat
    decreases |steps|
  {
    if steps == [] then 0 else (if steps[0].Resume? then 1 else 0) + Resumes(steps[1..])
  }

  lemma {:induction false} ResumesAtMostOnce<T>(s: State<T>, steps: seq<Step<T>>)
    requires IsRun(s, steps)
    ensures Resumes(steps) <= if s.caller == Resumed then 0 else 1
    decreases |steps|
  {
    if steps != [] {
      ResumesAtMostOnce(Next(s, steps[0]), steps[1..]);
    }
  }
}
