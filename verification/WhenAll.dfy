/** `when_all`: the values of all tasks in input order, or the error of the first failed one. */
module WhenAll {
  import opened Gather
  import opened Options

  datatype Result<T> = Values(values: seq<T>) | Rethrown(error: Error)

  /** The first error from index `i` on. */
  function FirstError(errors: seq<Option<Error>>, i: nat): Option<Error>
    requires i <= |errors|
    decreases |errors| - i
  {
    if i == |errors| then None else if errors[i].Some? then errors[i] else FirstError(errors, i + 1)
  }

  /** The intended result, in terms of what each task returned. */
  ghost predicate Correct<T>(n: nat, outcomes: map<nat, Outcome<T>>, r: Result<T>)
    requires forall i :: 0 <= i < n ==> i in outcomes
  {
    match r
    case Values(vs) => |vs| == n && forall i :: 0 <= i < n ==> outcomes[i] == Value(vs[i])
    case Rethrown(e) =>
      exists i :: 0 <= i < n && outcomes[i] == Error(e) && forall j :: 0 <= j < i ==> outcomes[j].Value?
  }

  lemma {:induction false} FirstErrorAt(errors: seq<Option<Error>>, i: nat)
    requires i <= |errors|
    ensures FirstError(errors, i).None? ==> forall j :: i <= j < |errors| ==> errors[j].None?
    ensures FirstError(errors, i).Some? ==>
      exists k :: i <= k < |errors| && errors[k] == FirstError(errors, i) && forall j :: i <= j < k ==> errors[j].None?
    decreases |errors| - i
  {
    if i < |errors| {
      if errors[i].Some? {
        assert errors[i] == FirstError(errors, i);
      } else {
        FirstErrorAt(errors, i + 1);
      }
    }
  }

  lemma EverySlotFilled<T>(n: nat, steps: seq<Step<T>>)
    requires IsRun(New(n, true), steps) && (n > 0 ==> Run(New(n, true), steps).caller in {Ready, Resumed})
    ensures var s := Run(New(n, true), steps);
      && |s.values| == |s.errors| == n
      && forall i :: 0 <= i < n ==> i in Outcomes(steps) && SlotHolds(s, i, Outcomes(steps)[i])
  {
    var s0: State<T> := New(n, true);
    var s := Run(s0, steps);
    NewInv<T>(n, true);
    RunKeeps(s0, steps);
    ResumesAfterAll(n, true, steps);
    forall i | 0 <= i < n
      ensures i in Outcomes(steps) && SlotHolds(s, i, Outcomes(steps)[i])
    {
      SlotsFollowOutcomes(s0, steps, i);
      assert s.phases[i] == Completed;
    }
  }

  /** In every run the caller that goes on finds one outcome per task, gets the values in input
      order if all succeeded, and otherwise the error with the lowest index. */
  lemma WhenAllResult<T>(n: nat, steps: seq<Step<T>>, r: Result<T>)
    requires IsRun(New(n, true), steps) && (n > 0 ==> Run(New(n, true), steps).caller in {Ready, Resumed})
    requires var s := Run(New(n, true), steps);
      if FirstError(s.errors, 0).Some? then r == Rethrown(FirstError(s.errors, 0).value)
      else r.Values? && |r.values| == |s.values| && forall i :: 0 <= i < |s.values| ==> s.values[i] == Some(r.values[i])
    ensures forall i :: 0 <= i < n ==> i in Outcomes(steps)
    ensures Correct(n, Outcomes(steps), r)
  {
    var s := Run(New(n, true), steps);
    EverySlotFilled(n, steps);
    FirstErrorAt(s.errors, 0);
    if r.Rethrown? {
      var k :| 0 <= k < |s.errors| && s.errors[k] == FirstError(s.errors, 0) &&
        forall j :: 0 <= j < k ==> s.errors[j].None?;
      assert SlotHolds(s, k, Outcomes(steps)[k]);
      assert Outcomes(steps)[k] == Error(r.error);
      forall j | 0 <= j < k
        ensures Outcomes(steps)[j].Value?
      {
        assert SlotHolds(s, j, Outcomes(steps)[j]);
      }
    } else {
      forall i | 0 <= i < n
        ensures Outcomes(steps)[i] == Value(r.values[i])
      {
        assert SlotHolds(s, i, Outcomes(steps)[i]);
      }
    }
  }

  /** `check_and_rethrow_errors`, then the loop that unwraps the values. After a complete wait
      every slot without an error holds a value (`Gather.Inv`). */
  method Collect<T>(values: seq<Option<T>>, errors: seq<Option<Error>>) returns (r: Result<T>)
    requires |values| == |errors|
    requires forall i :: 0 <= i < |values| ==> values[i].Some? != errors[i].Some?
    ensures FirstError(errors, 0).Some? ==> r == Rethrown(FirstError(errors, 0).value)
    ensures FirstError(errors, 0).None? ==>
      r.Values? && |r.values| == |values| && forall i :: 0 <= i < |values| ==> values[i] == Some(r.values[i])
  {
    for i := 0 to |errors|
      invariant FirstError(errors, i) == FirstError(errors, 0)
      invariant forall j :: 0 <= j < i ==> errors[j].None?
    {
      if errors[i].Some? {
        return Rethrown(errors[i].value);
      }
    }
    var result: seq<T> := [];
    for i := 0 to |values|
      invariant |result| == i && forall j :: 0 <= j < i ==> values[j] == Some(result[j])
    {
      result := result + [values[i].value];
    }
    r := Values(result);
  }

  /** What the caller of `when_all` gets once it goes on; without any task it goes on at once. */
  method WhenAll<T>(n: nat, steps: seq<Step<T>>) returns (r: Result<T>)
    requires IsRun(New(n, true), steps) && (n > 0 ==> Run(New(n, true), steps).caller == Resumed)
    ensures forall i :: 0 <= i < n ==> i in Outcomes(steps)
    ensures Correct(n, Outcomes(steps), r)
  {
    if n == 0 {
      return Values([]);
    }
    NewInv<T>(n, true);
    RunKeeps(New(n, true), steps);
    ResumesAfterAll(n, true, steps);
    var s := Run(New(n, true), steps);
    r := Collect(s.values, s.errors);
    WhenAllResult(n, steps, r);
  }

  /** `task_barrier`: the counter, and whether the caller sits in the timer's wait. */
  class TaskBarrier {
    var remaining: nat
    var caller: Caller

    constructor (count: nat)
      ensures remaining == count && caller == Launching
    {
      remaining, caller := count, Launching;
    }

    method Wait<T>(ghost s: State<T>)
      requires Enabled(s, Gather.Wait) && s.caller == caller && s.remaining == remaining
      modifies this`caller
      ensures var r := Next(s, Gather.Wait); remaining == r.remaining && caller == r.caller
    {
      caller := Waiting;
    }

    method OnCompletion<T>(ghost s: State<T>, i: nat)
      requires i < s.N() && 0 < s.remaining == remaining && s.caller == caller
      modifies this
      ensures var r := Counted(s, i); remaining == r.remaining && caller == r.caller
    {
      remaining := remaining - 1;
      if remaining == 0 && caller == Waiting {
        caller := Ready;
      }
    }
  }
}
