/** The request executors: retry loops that lease one connection per attempt. */
module Executors {
  import opened Leases

  type Error = nat

  const CONNECTION_REFUSED: Error := 111

  /** How far an attempt gets. The string and buffer executors read header and body in one
      go; the file executor can also fail on the header, the status or the target file. */
  datatype Outcome =
    | NoLease(ec: Error)
    | SendFailed(ec: Error)
    | HeaderFailed(ec: Error)
    | BadStatus
    | OpenFailed(ec: Error)
    | BodyFailed(ec: Error)
    | Received(keepAlive: bool)

  datatype Result = Failed(ec: Error) | Succeeded

  /** At least one attempt is made, whatever is configured. */
  function Limit(maxTries: int): int
  {
    if 1 < maxTries then maxTries else 1
  }

  /** The loop ends early on a response, and when the target file cannot be opened. */
  predicate Final(o: Outcome)
  {
    o.Received? || o.OpenFailed?
  }

  function ResultOf(o: Outcome): Result
  {
    match o
    case Received(_) => Succeeded
    case BadStatus => Failed(CONNECTION_REFUSED)
    case _ => Failed(o.ec)
  }

  /** A connection is worth keeping after a complete response with keep-alive on both sides. */
  predicate Keeps(o: Outcome, keepAlive: bool)
  {
    o.Received? && o.keepAlive && keepAlive
  }

  /** What attempt `i` does to its lease variable. */
  function AttemptOps(i: nat, o: Outcome, keepAlive: bool): seq<Op>
  {
    if o.NoLease? then []
      else if Keeps(o, keepAlive) then [Acquire(i), Destroy(i)] else [Acquire(i), MarkInvalid(i), Destroy(i)]
  }

  function OpsOf(script: nat -> Outcome, n: nat, keepAlive: bool): seq<Op>
  {
    if n == 0 then [] else OpsOf(script, n - 1, keepAlive) + AttemptOps(n - 1, script(n - 1), keepAlive)
  }

  /** At no point of the run are there two lease variables. */
  ghost predicate NeverTwo(s: State, ops: seq<Op>)
    requires IsRun(s, ops)
    decreases |ops|
  {
    |s.vars| <= 1 && (ops != [] ==> NeverTwo(Next(s, ops[0]), ops[1..]))
  }

  lemma {:induction false} RunAppend(s: State, xs: seq<Op>, ys: seq<Op>)
    requires IsRun(s, xs) && IsRun(Run(s, xs), ys)
    ensures IsRun(s, xs + ys) && Run(s, xs + ys) == Run(Run(s, xs), ys)
    ensures NeverTwo(s, xs) && NeverTwo(Run(s, xs), ys) ==> NeverTwo(s, xs + ys)
    decreases |xs|
  {
    if xs == [] {
      assert xs + ys == ys;
    } else {
      assert (xs + ys)[1..] == xs[1..] + ys;
      RunAppend(Next(s, xs[0]), xs[1..], ys);
    }
  }

  lemma OneOp(s: State, op: Op)
    requires Enabled(s, op)
    ensures IsRun(s, [op]) && Run(s, [op]) == Next(s, op)
    ensures |s.vars| <= 1 && |Next(s, op).vars| <= 1 ==> NeverTwo(s, [op])
  {
    assert [op][1..] == [];
  }

  lemma AttemptBalanced(s: State, i: nat, o: Outcome, keepAlive: bool)
    requires s.vars == map[]
    ensures var ops := AttemptOps(i, o, keepAlive);
      && IsRun(s, ops) && NeverTwo(s, ops)
      && Run(s, ops).vars == map[]
      && Run(s, ops).next == s.next + (if o.NoLease? then 0 else 1)
      && Run(s, ops).log == s.log + if o.NoLease? then [] else [Return(s.next, Keeps(o, keepAlive))]
  {
    if !o.NoLease? {
      var s1 := Next(s, Acquire(i));
      OneOp(s, Acquire(i));
      if Keeps(o, keepAlive) {
        OneOp(s1, Destroy(i));
        RunAppend(s, [Acquire(i)], [Destroy(i)]);
        assert [Acquire(i)] + [Destroy(i)] == AttemptOps(i, o, keepAlive);
      } else {
        var s2 := Next(s1, MarkInvalid(i));
        OneOp(s1, MarkInvalid(i));
        OneOp(s2, Destroy(i));
        RunAppend(s1, [MarkInvalid(i)], [Destroy(i)]);
        RunAppend(s, [Acquire(i)], [MarkInvalid(i)] + [Destroy(i)]);
        assert [Acquire(i)] + ([MarkInvalid(i)] + [Destroy(i)]) == AttemptOps(i, o, keepAlive);
      }
    }
  }

  /** A complete run on lease variables: never two at a time, none left over, and every slot
      handed out was returned, in order. */
  ghost predicate Balanced(ops: seq<Op>, log: seq<Return>)
  {
    && IsRun(START, ops) && NeverTwo(START, ops)
    && Run(START, ops).vars == map[] && Run(START, ops).log == log && Run(START, ops).next == |log|
  }

  lemma BalancedExtend(ops: seq<Op>, log: seq<Return>, i: nat, o: Outcome, keepAlive: bool)
    requires Balanced(ops, log)
    ensures Balanced(ops + AttemptOps(i, o, keepAlive),
                     log + if o.NoLease? then [] else [Return(|log|, Keeps(o, keepAlive))])
  {
    var more := AttemptOps(i, o, keepAlive);
    AttemptBalanced(Run(START, ops), i, o, keepAlive);
    RunAppend(START, ops, more);
  }

  /** Whatever happens in the attempts, the execution's use of leases is balanced, and the
      pool gets one return per attempt that got a lease. */
  lemma {:induction false} LeaseBalanced(script: nat -> Outcome, n: nat, keepAlive: bool)
    ensures Balanced(OpsOf(script, n, keepAlive), Returns(script, n, keepAlive))
    decreases n
  {
    if n > 0 {
      LeaseBalanced(script, n - 1, keepAlive);
      BalancedExtend(OpsOf(script, n - 1, keepAlive), Returns(script, n - 1, keepAlive),
        n - 1, script(n - 1), keepAlive);
    }
  }

  /** The returns the pool sees: one per attempt that got a lease. */
  function Returns(script: nat -> Outcome, n: nat, keepAlive: bool): seq<Return>
  {
    if n == 0 then []
    else
      var before := Returns(script, n - 1, keepAlive);
      before + if script(n - 1).NoLease? then [] else [Return(|before|, Keeps(script(n - 1), keepAlive))]
  }

  /** As long as no attempt was final, every connection was thrown away. */
  lemma {:induction false} NothingKeptBeforeTheEnd(script: nat -> Outcome, n: nat, keepAlive: bool)
    requires forall i :: 0 <= i < n ==> !Final(script(i))
    ensures forall k :: 0 <= k < |Returns(script, n, keepAlive)| ==> !Returns(script, n, keepAlive)[k].kept
    decreases n
  {
    if n > 0 {
      NothingKeptBeforeTheEnd(script, n - 1, keepAlive);
    }
  }

  /** How many attempts the loop makes: up to the first final one, within the limit. */
  ghost predicate Attempts(script: nat -> Outcome, limit: int, n: nat)
  {
    && 1 <= n <= limit
    && (forall i :: 0 <= i < n - 1 ==> !Final(script(i)))
    && (Final(script(n - 1)) || n == limit)
  }

  /** Over a whole execution at most the last return keeps its connection, and it does exactly
      when that attempt received a complete response with keep-alive on both sides. */
  lemma KeptIff(script: nat -> Outcome, limit: int, n: nat, keepAlive: bool)
    requires Attempts(script, limit, n)
    ensures var r := Returns(script, n, keepAlive);
      && (forall k :: 0 <= k < |r| - 1 ==> !r[k].kept)
      && ((exists k :: 0 <= k < |r| && r[k].kept) <==> script(n - 1) == Received(true) && keepAlive)
  {
    var r := Returns(script, n, keepAlive);
    NothingKeptBeforeTheEnd(script, n - 1, keepAlive);
    assert r == Returns(script, n - 1, keepAlive) +
      if script(n - 1).NoLease? then [] else
        [Return(|Returns(script, n - 1, keepAlive)|, Keeps(script(n - 1), keepAlive))];
    if Keeps(script(n - 1), keepAlive) {
      assert r[|r| - 1].kept;
    }
  }

  // ---- What the caller gets ----

  /** Attempt `i` brings the response, and neither an earlier response nor a file that cannot be
      opened has ended the loop before. */
  ghost predicate Wins(script: nat -> Outcome, i: nat)
  {
    script(i).Received? && forall j :: 0 <= j < i ==> !script(j).Received? && !script(j).OpenFailed?
  }

  /** Attempt `i` ends the loop because the target file cannot be opened. */
  ghost predicate Aborts(script: nat -> Outcome, i: nat)
  {
    script(i).OpenFailed? && forall j :: 0 <= j < i ==> !script(j).Received? && !script(j).OpenFailed?
  }

  /** The execution succeeds exactly if some attempt within the limit brings the response, with
      no abort before it; it then made the attempts up to that one. Every other attempt is
      followed by the next one as long as the limit allows. */
  lemma SucceedsIff(script: nat -> Outcome, limit: int, n: nat)
    requires Attempts(script, limit, n)
    ensures ResultOf(script(n - 1)).Succeeded? <==> exists i: nat :: i < limit && Wins(script, i)
    ensures forall i: nat :: i < limit && (Wins(script, i) || Aborts(script, i)) ==> n == i + 1
    ensures (forall i: nat :: i < limit ==> !script(i).Received? && !script(i).OpenFailed?) ==> n == limit
  {
    if ResultOf(script(n - 1)).Succeeded? {
      assert Wins(script, n - 1);
    }
    forall i: nat | i < limit && (Wins(script, i) || Aborts(script, i))
      ensures n == i + 1
    {
      assert !(i < n - 1) && !(n - 1 < i);
    }
  }

  /** A failing execution reports the error of its last attempt: the error code of whatever
      failed there, or "connection refused" for an unwelcome status. */
  lemma ReportsLastError(o: Outcome)
    requires !o.Received?
    ensures !o.BadStatus? ==> ResultOf(o) == Failed(o.ec)
    ensures o.BadStatus? ==> ResultOf(o) == Failed(CONNECTION_REFUSED)
  {
  }

  /** `WebClient::execute` and `BufferExecutor::execute`; `script` says how each attempt goes. */
  method Execute(maxTries: int, keepAlive: bool, script: nat -> Outcome) returns (result: Result, ops: seq<Op>, n: nat)
    requires forall i :: script(i).NoLease? || script(i).SendFailed? || script(i).BodyFailed? || script(i).Received?
    ensures Attempts(script, Limit(maxTries), n) && (n == 1 || n <= maxTries)
    ensures ops == OpsOf(script, n, keepAlive)
    ensures result == ResultOf(script(n - 1))
    ensures result.Succeeded? <==> exists i: nat :: i < Limit(maxTries) && script(i).Received?
    ensures result.Succeeded? ==> script(n - 1).Received? && forall i: nat :: i < n - 1 ==> !script(i).Received?
    ensures !result.Succeeded? ==> n >= 1 && n >= maxTries && result == Failed(script(n - 1).ec)
  {
    var lastEc: Error := 0;
    var maxAttempts := if 1 < maxTries then maxTries else 1;
    ops := [];
    var attempt: nat := 0;
    while attempt < maxAttempts
      invariant attempt <= maxAttempts
      invariant ops == OpsOf(script, attempt, keepAlive)
      invariant forall i :: 0 <= i < attempt ==> !Final(script(i))
      invariant attempt > 0 ==> Failed(lastEc) == ResultOf(script(attempt - 1))
    {
      var o := script(attempt);
      if o.NoLease? {
        lastEc := o.ec;
        attempt := attempt + 1;
        continue;
      }
      var lease := attempt;
      ops := ops + [Acquire(lease)];
      if o.SendFailed? {
        ops := ops + [MarkInvalid(lease)];
        lastEc := o.ec;
        ops := ops + [Destroy(lease)];
        attempt := attempt + 1;
        continue;
      }
      if o.BodyFailed? {
        ops := ops + [MarkInvalid(lease)];
        lastEc := o.ec;
        ops := ops + [Destroy(lease)];
        attempt := attempt + 1;
        continue;
      }
      if !o.keepAlive || !keepAlive {
        ops := ops + [MarkInvalid(lease)];
      }
      ops := ops + [Destroy(lease)];
      n := attempt + 1;
      assert script(n - 1).Received?;
      return Succeeded, ops, n;
    }
    n := attempt;
    result := Failed(lastEc);
  }

  /** One turn of the loop in `FileExecutor::execute`: what it does to its lease, whether it ends
      the loop, and the result so far. */
  method FileAttempt(lease: nat, o: Outcome, keepAlive: bool) returns (ops: seq<Op>, ended: bool, result: Result)
    ensures ops == AttemptOps(lease, o, keepAlive)
    ensures ended <==> Final(o)
    ensures result == ResultOf(o)
  {
    if o.NoLease? {
      return [], false, Failed(o.ec);
    }
    ops := [Acquire(lease)];
    if o.SendFailed? || o.HeaderFailed? || o.BodyFailed? {
      ops := ops + [MarkInvalid(lease)];
      ops := ops + [Destroy(lease)];
      return ops, false, Failed(o.ec);
    }
    if o.BadStatus? {
      ops := ops + [MarkInvalid(lease)];
      ops := ops + [Destroy(lease)];
      return ops, false, Failed(CONNECTION_REFUSED);
    }
    if o.OpenFailed? {
      ops := ops + [MarkInvalid(lease)];
      ops := ops + [Destroy(lease)];
      return ops, true, Failed(o.ec);
    }
    if !o.keepAlive || !keepAlive {
      ops := ops + [MarkInvalid(lease)];
    }
    ops := ops + [Destroy(lease)];
    return ops, true, Succeeded;
  }

  /** `FileExecutor::execute`. */
  method ExecuteToFile(maxTries: int, keepAlive: bool, script: nat -> Outcome)
    returns (result: Result, ops: seq<Op>, n: nat)
    ensures Attempts(script, Limit(maxTries), n) && (n == 1 || n <= maxTries)
    ensures ops == OpsOf(script, n, keepAlive)
    ensures result.Succeeded? <==> exists i: nat :: i < Limit(maxTries) && Wins(script, i)
    ensures forall i: nat :: i < Limit(maxTries) && (Wins(script, i) || Aborts(script, i)) ==> n == i + 1
    ensures !result.Succeeded? ==>
      && !script(n - 1).Received? && ((n >= 1 && n >= maxTries) || script(n - 1).OpenFailed?)
      && result == Failed(if script(n - 1).BadStatus? then CONNECTION_REFUSED else script(n - 1).ec)
  {
    var maxAttempts := if 1 < maxTries then maxTries else 1;
    var ended := false;
    result, ops, n := Failed(0), [], 0;
    while n < maxAttempts && !ended
      invariant n <= maxAttempts
      invariant ops == OpsOf(script, n, keepAlive)
      invariant forall i :: 0 <= i < n - 1 ==> !Final(script(i))
      invariant n == 0 ==> !ended
      invariant n > 0 ==> result == ResultOf(script(n - 1)) && ended == Final(script(n - 1))
      decreases maxAttempts - n
    {
      var more;
      more, ended, result := FileAttempt(n, script(n), keepAlive);
      ops := ops + more;
      n := n + 1;
    }
    SucceedsIff(script, maxAttempts, n);
  }
}
