/** `when_any`: all tasks run to completion, the first one to succeed wins, and the first one
    to complete, whatever its outcome, asks the others to stop. */
module WhenAny {
  import opened Gather
  import opened Options

  /** `winner` is `completed_index`, with the number of tasks for "none"; `stops` lists the
      tasks whose completion requested the stop. */
  datatype Race<T> = Race(g: State<T>, winner: nat, completed: bool, stops: seq<nat>)

  function Begun<T>(n: nat): Race<T>
  {
    Race(New(n, true), n, false, [])
  }

  function After<T>(a: Race<T>, step: Step<T>): Race<T>
    requires Enabled(a.g, step)
  {
    var g := Gather.Next(a.g, step);
    match step
    case Return(i, Value(_)) => a.(g := g, winner := if a.winner == a.g.N() then i else a.winner)
    case Complete(i) => if a.completed then a.(g := g) else a.(g := g, completed := true, stops := a.stops + [i])
    case _ => a.(g := g)
  }

  predicate IsRace<T>(a: Race<T>, steps: seq<Step<T>>)
    decreases |steps|
  {
    steps == [] || (Enabled(a.g, steps[0]) && IsRace(After(a, steps[0]), steps[1..]))
  }

  function RunRace<T>(a: Race<T>, steps: seq<Step<T>>): Race<T>
    requires IsRace(a, steps)
    decreases |steps|
  {
    if steps == [] then a else RunRace(After(a, steps[0]), steps[1..])
  }

  // ---- Reference: what the sequence of events says ----

  /** The first task whose body returned a value, and that value. */
  function FirstSuccess<T>(steps: seq<Step<T>>): Option<(nat, T)>
    decreases |steps|
  {
    if steps == [] then None
    else if steps[0].Return? && steps[0].outcome.Value? then Some((steps[0].i, steps[0].outcome.value))
    else FirstSuccess(steps[1..])
  }

  /** The first task to complete, successful or not. */
  function FirstCompletion<T>(steps: seq<Step<T>>): Option<nat>
    decreases |steps|
  {
    if steps == [] then None
    else if steps[0].Complete? then Some(steps[0].i)
    else FirstCompletion(steps[1..])
  }

  // ---- The race agrees with it ----

  lemma {:induction false} RaceRun<T>(a: Race<T>, steps: seq<Step<T>>)
    requires IsRace(a, steps)
    ensures Gather.IsRun(a.g, steps) && RunRace(a, steps).g == Gather.Run(a.g, steps)
    decreases |steps|
  {
    if steps != [] {
      RaceRun(After(a, steps[0]), steps[1..]);
    }
  }

  lemma {:induction false} WinnerIsFirstSuccess<T>(a: Race<T>, steps: seq<Step<T>>)
    requires IsRace(a, steps) && a.winner <= a.g.N()
    ensures var r := RunRace(a, steps);
      && r.g.N() == a.g.N() && r.winner <= a.g.N()
      && (a.winner < a.g.N() ==> r.winner == a.winner)
      && (a.winner == a.g.N() ==>
            match FirstSuccess(steps)
            case None => r.winner == a.g.N()
            case Some((i, _)) => r.winner == i && i < a.g.N())
    decreases |steps|
  {
    if steps != [] {
      WinnerIsFirstSuccess(After(a, steps[0]), steps[1..]);
    }
  }

  lemma {:induction false} StopsAtFirstCompletion<T>(a: Race<T>, steps: seq<Step<T>>)
    requires IsRace(a, steps)
    ensures var r := RunRace(a, steps);
      r.stops == a.stops + if !a.completed && FirstCompletion(steps).Some? then [FirstCompletion(steps).value] else []
    decreases |steps|
  {
    if steps != [] {
      StopsAtFirstCompletion(After(a, steps[0]), steps[1..]);
    }
  }

  lemma {:induction false} FirstSuccessIsOutcome<T>(s: State<T>, steps: seq<Step<T>>)
    requires Inv(s) && s.posts && Gather.IsRun(s, steps) && FirstSuccess(steps).Some?
    ensures var (i, v) := FirstSuccess(steps).value; i in Outcomes(steps) && Outcomes(steps)[i] == Value(v) && i < s.N()
    decreases |steps|
  {
    StepKeeps(s, steps[0]);
    var s1 := Gather.Next(s, steps[0]);
    if steps[0].Return? && steps[0].outcome.Value? {
      SlotsFollowOutcomes(s1, steps[1..], steps[0].i);
      assert steps[0].i !in Outcomes(steps[1..]);
    } else {
      FirstSuccessIsOutcome(s1, steps[1..]);
      if steps[0].Return? {
        SlotsFollowOutcomes(s1, steps[1..], steps[0].i);
      }
    }
  }

  /** For every interleaving of the tasks: the caller goes on only when all are done; the winner
      is the first task that returned a value, its slot holds that very value and no error, and
      there is no winner exactly if no task succeeded; the stop was requested exactly once, by
      the first completion of all. */
  lemma WhenAnyResult<T>(n: nat, steps: seq<Step<T>>)
    requires n >= 1 && IsRace(Begun(n), steps)
    ensures var a := RunRace(Begun(n), steps);
      && |a.g.values| == |a.g.errors| == n
      && (a.g.caller in {Ready, Resumed} ==> a.g.AllCompleted())
      && (match FirstSuccess(steps)
          case Some((i, v)) => a.winner == i < n && a.g.values[i] == Some(v) && a.g.errors[i] == None
          case None => a.winner == n)
      && a.stops == (if FirstCompletion(steps).Some? then [FirstCompletion(steps).value] else [])
      && !Hangs(a.g)
  {
    var b: Race<T> := Begun(n);
    RaceRun(b, steps);
    NewInv<T>(n, true);
    RunKeeps(b.g, steps);
    ResumesAfterAll(n, true, steps);
    NeverHangs(n, steps);
    WinnerIsFirstSuccess(b, steps);
    StopsAtFirstCompletion(b, steps);
    if FirstSuccess(steps).Some? {
      FirstSuccessIsOutcome(b.g, steps);
      SlotsFollowOutcomes(b.g, steps, FirstSuccess(steps).value.0);
    }
  }

  // ---- The end of `when_any` ----

  datatype Result<T> = Won(index: nat, value: T) | Rethrown(error: Error) | NoValue

  /** The vector overload with factories. */
  method Conclude<T>(winner: nat, values: seq<Option<T>>, errors: seq<Option<Error>>) returns (r: Result<T>)
    requires winner <= |values| == |errors|
    ensures r.Won? <==> winner < |values| && values[winner].Some? && errors[winner].None?
    ensures r.Won? ==> r.index == winner && values[winner] == Some(r.value)
    ensures r.Rethrown? <==> winner < |values| && errors[winner].Some?
  {
    if winner < |values| && errors[winner].Some? {
      return Rethrown(errors[winner].value);
    }
    if winner < |values| && values[winner].Some? {
      return Won(winner, values[winner].value);
    }
    return NoValue;
  }

  /** What the caller of `when_any` gets: the first success, or the complaint that there is no
      value exactly if every task failed. The branch that rethrows is never taken. */
  method WhenAny<T>(n: nat, steps: seq<Step<T>>) returns (r: Result<T>)
    requires n >= 1 && IsRace(Begun(n), steps) && RunRace(Begun(n), steps).g.caller == Resumed
    ensures match FirstSuccess(steps)
      case Some((i, v)) => r == Won(i, v)
      case None => r == NoValue
  {
    WhenAnyResult(n, steps);
    var a := RunRace(Begun(n), steps);
    r := Conclude(a.winner, a.g.values, a.g.errors);
  }

  lemma {:induction false} NoSuccessNoValue<T>(steps: seq<Step<T>>)
    requires FirstSuccess(steps).None?
    ensures forall i :: i in Outcomes(steps) ==> Outcomes(steps)[i].Error?
    decreases |steps|
  {
    if steps != [] {
      NoSuccessNoValue(steps[1..]);
    }
  }

  /** The overload for plain awaitables reads the winner's slot without a check. For the caller
      that goes on this is inside the vector exactly if some task returned a value. */
  lemma UncheckedReadInRangeIff<T>(n: nat, steps: seq<Step<T>>)
    requires n >= 1 && IsRace(Begun(n), steps) && RunRace(Begun(n), steps).g.caller == Resumed
    ensures var a := RunRace(Begun(n), steps);
      a.winner < |a.g.values| <==> exists i :: i in Outcomes(steps) && Outcomes(steps)[i].Value?
  {
    WhenAnyResult(n, steps);
    if FirstSuccess(steps).Some? {
      var b: Race<T> := Begun(n);
      RaceRun(b, steps);
      NewInv<T>(n, true);
      FirstSuccessIsOutcome(b.g, steps);
    } else {
      NoSuccessNoValue(steps);
    }
  }

  /** One task, and it fails. */
  function FailingSteps<T>(e: Error): seq<Step<T>>
  {
    [Launch] + ([Wait] + ([Begin(0)] + ([Return(0, Error(e))] + ([Complete(0)] + ([Resume] + [])))))
  }

  lemma RaceOne<T>(a: Race<T>, s: Step<T>, rest: seq<Step<T>>)
    requires Enabled(a.g, s) && IsRace(After(a, s), rest)
    ensures IsRace(a, [s] + rest) && RunRace(a, [s] + rest) == RunRace(After(a, s), rest)
  {
    assert ([s] + rest)[1..] == rest;
  }

  /** If the only task fails, the caller goes on and reads behind the end of the vector. */
  lemma UncheckedReadOutOfRange<T>(e: Error)
    ensures IsRace(Begun<T>(1), FailingSteps(e))
    ensures var a := RunRace(Begun<T>(1), FailingSteps(e));
      a.g.caller == Resumed && a.winner == 1 == |a.g.values|
  {
    var a0: Race<T> := Begun(1);
    var a1 := After(a0, Launch);
    var a2 := After(a1, Wait);
    var a3 := After(a2, Begin(0));
    var a4 := After(a3, Return(0, Error(e)));
    var a5 := After(a4, Complete(0));
    var a6 := After(a5, Resume);
    assert IsRace(a6, []) && RunRace(a6, []) == a6;
    RaceOne(a5, Resume, []);
    RaceOne(a4, Complete(0), [Resume] + []);
    RaceOne(a3, Return(0, Error(e)), [Complete(0)] + ([Resume] + []));
    RaceOne(a2, Begin(0), [Return(0, Error(e))] + ([Complete(0)] + ([Resume] + [])));
    RaceOne(a1, Wait, [Begin(0)] + ([Return(0, Error(e))] + ([Complete(0)] + ([Resume] + []))));
    RaceOne(a0, Launch, [Wait] + ([Begin(0)] + ([Return(0, Error(e))] + ([Complete(0)] + ([Resume] + [])))));
  }

  class RaceBarrier {
    var remaining: nat
    var completed: bool
    var stops: nat
    var caller: Caller

    constructor (count: nat)
      ensures remaining == count && !completed && stops == 0 && caller == Launching
    {
      remaining, completed, stops, caller := count, false, 0, Launching;
    }

    /** The completion handler: the first one through requests the stop. */
    method OnCompletion<T>(ghost a: Race<T>, i: nat)
      requires Enabled(a.g, Complete(i))
      requires a.g.remaining == remaining && a.g.caller == caller && a.completed == completed && |a.stops| == stops
      modifies this
      ensures var r := After(a, Complete(i));
        remaining == r.g.remaining && caller == r.g.caller && completed == r.completed && stops == |r.stops|
    {
      if !completed {
        completed := true;
        stops := stops + 1;
      }
      remaining := remaining - 1;
      if remaining == 0 && caller == Waiting {
        caller := Ready;
      }
    }
  }
}
