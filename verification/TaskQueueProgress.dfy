/** Queued tasks can always still be started. */
module TaskQueueProgress {
  import opened TaskQueue

  ghost predicate RunsOn<T>(c: Coroutine<T>, client: nat)
  {
    (c.Handle? || c.Working?) && c.client == client
  }

  ghost predicate InUse<T>(pending: seq<Coroutine<T>>, client: nat)
  {
    exists i :: 0 <= i < |pending| && RunsOn(pending[i], client)
  }

  /** A client is unavailable only as long as a task is about to run or runs on it. */
  ghost predicate Busy<T>(q: Queue<T>)
  {
    forall k :: 0 <= k < |q.clients| && !q.clients[k].available ==> InUse(q.pending, q.clients[k].id)
  }

  lemma InUseSpawn<T>(pending: seq<Coroutine<T>>, c: Coroutine<T>, client: nat)
    ensures InUse(pending, client) || RunsOn(c, client) ==> InUse(pending + [c], client)
  {
    if InUse(pending, client) {
      var i :| 0 <= i < |pending| && RunsOn(pending[i], client);
      assert (pending + [c])[i] == pending[i];
    } else if RunsOn(c, client) {
      assert (pending + [c])[|pending|] == c;
    }
  }

  lemma InUseEnded<T>(pending: seq<Coroutine<T>>, i: nat, client: nat)
    requires i < |pending|
    ensures InUse(pending, client) && !RunsOn(pending[i], client) ==> InUse(pending[..i] + pending[i + 1..], client)
  {
    if InUse(pending, client) && !RunsOn(pending[i], client) {
      var j :| 0 <= j < |pending| && RunsOn(pending[j], client);
      var rest := pending[..i] + pending[i + 1..];
      assert rest[if j < i then j else j - 1] == pending[j];
    }
  }

  lemma InUseReplaced<T>(pending: seq<Coroutine<T>>, i: nat, c: Coroutine<T>, client: nat)
    requires i < |pending|
    ensures InUse(pending, client) && (RunsOn(pending[i], client) ==> RunsOn(c, client)) ==>
      InUse(pending[i := c], client)
    ensures RunsOn(c, client) ==> InUse(pending[i := c], client)
  {
    assert pending[i := c][i] == c;
    if InUse(pending, client) {
      var j :| 0 <= j < |pending| && RunsOn(pending[j], client);
      assert j != i ==> pending[i := c][j] == pending[j];
    }
  }

  /** New coroutines do no harm. */
  lemma SpawnBusy<T>(q: Queue<T>, c: Coroutine<T>)
    requires Busy(q)
    ensures Busy(Spawn(q, c))
  {
    forall k | 0 <= k < |q.clients| && !q.clients[k].available
      ensures InUse(q.pending + [c], q.clients[k].id)
    {
      InUseSpawn(q.pending, c, q.clients[k].id);
    }
  }

  /** A coroutine without a task ends. */
  lemma EndedBusy<T>(q: Queue<T>, i: nat)
    requires Busy(q) && i < |q.pending| && !q.pending[i].Handle? && !q.pending[i].Working?
    ensures Busy(Ended(q, i))
  {
    forall k | 0 <= k < |q.clients| && !q.clients[k].available
      ensures InUse(Ended(q, i).pending, q.clients[k].id)
    {
      InUseEnded(q.pending, i, q.clients[k].id);
    }
  }

  /** A task is given to a client which may have become unavailable thereby. */
  lemma DispatchBusy<T>(q: Queue<T>, client: nat)
    requires q.tasks != []
    requires forall k :: 0 <= k < |q.clients| && !q.clients[k].available && q.clients[k].id != client ==>
      InUse(q.pending, q.clients[k].id)
    ensures Busy(Dispatch(q, client))
  {
    var c := Handle(q.tasks[0], client);
    forall k | 0 <= k < |q.clients| && !q.clients[k].available
      ensures InUse(q.pending + [c], q.clients[k].id)
    {
      InUseSpawn(q.pending, c, q.clients[k].id);
    }
  }

  lemma ProcessBusy<T>(q: Queue<T>, i: nat)
    requires Busy(q) && i < |q.pending| && q.pending[i].Process?
    ensures Busy(Processed(q, i))
  {
    EndedBusy(q, i);
    var r := Ended(q, i);
    if q.endpoint && q.tasks != [] {
      var k := FreeClient(q.clients, 0);
      if k < |q.clients| {
        DispatchBusy(r.(clients := q.clients[k := q.clients[k].(available := false)]), q.clients[k].id);
      } else if |q.clients| < q.maxClients {
        SpawnBusy(r.(nextClient := q.nextClient + 1), Connecting(q.nextClient));
      } else {
        SpawnBusy(r, Backoff);
      }
    }
  }

  lemma ConnectBusy<T>(q: Queue<T>, i: nat)
    requires Busy(q) && i < |q.pending| && q.pending[i].Connecting?
    ensures Busy(AfterConnect(q, i))
  {
    EndedBusy(q, i);
    var id := q.pending[i].client;
    var r := Ended(q, i);
    if q.tasks == [] {
      SpawnBusy(r.(clients := q.clients + [Client(id, true)]), Backoff);
    } else {
      DispatchBusy(r.(clients := q.clients + [Client(id, false)]), id);
    }
  }

  lemma ReplacedBusy<T>(q: Queue<T>, i: nat, c: Coroutine<T>, clients: seq<Client>)
    requires Busy(q) && i < |q.pending| && c.Working? && RunsOn(q.pending[i], c.client)
    requires clients == q.clients || clients == SetAvailable(q.clients, c.client, false)
    ensures Busy(q.(pending := q.pending[i := c], clients := clients))
  {
    forall k | 0 <= k < |clients| && !clients[k].available
      ensures InUse(q.pending[i := c], clients[k].id)
    {
      InUseReplaced(q.pending, i, c, clients[k].id);
    }
  }

  lemma SucceedBusy<T>(q: Queue<T>, i: nat)
    requires Busy(q) && i < |q.pending| && q.pending[i].Working?
    ensures Busy(Succeeded(q, i))
  {
    var c := q.pending[i];
    var r := Ended(q, i).(clients := SetAvailable(q.clients, c.client, true), finished := q.finished + [c.task]);
    assert Busy(r) by {
      forall k | 0 <= k < |r.clients| && !r.clients[k].available
        ensures InUse(r.pending, r.clients[k].id)
      {
        InUseEnded(q.pending, i, r.clients[k].id);
      }
    }
    if q.tasks != [] {
      DispatchBusy(r, c.client);
    }
  }

  lemma FailBusy<T>(q: Queue<T>, i: nat, closed: set<nat>)
    requires Busy(q) && i < |q.pending| && q.pending[i].Working?
    ensures Busy(Failed(q, i, closed))
  {
    var c := q.pending[i];
    var clients := RemoveClients(q.clients, c.client, closed);
    var r := Ended(q, i).(clients := clients, finished := q.finished + [c.task]);
    assert Busy(r) by {
      forall k | 0 <= k < |clients| && !clients[k].available
        ensures InUse(r.pending, clients[k].id)
      {
        assert clients[k] in clients;
        RemovedIff(q.clients, c.client, closed, clients[k]);
        var j :| 0 <= j < |q.clients| && q.clients[j] == clients[k];
        InUseEnded(q.pending, i, clients[k].id);
      }
    }
    SpawnBusy(r, Process);
  }

  lemma StepBusy<T>(q: Queue<T>, s: Step<T>)
    requires Busy(q) && Enabled(q, s)
    ensures Busy(Next(q, s))
  {
    match s
    case Add(t, front) =>
      SpawnBusy(q.(tasks := if front then [t] + q.tasks else q.tasks + [t], added := q.added + [t]), Process);
    case SetEndPoint(isSet) => SpawnBusy(q.(endpoint := isSet), Process);
    case StartProcess(i) => ProcessBusy(q, i);
    case Connected(i) => ConnectBusy(q, i);
    case ConnectFailed(i) => EndedBusy(q, i); SpawnBusy(Ended(q, i), Backoff);
    case BackoffOver(i) => EndedBusy(q, i); SpawnBusy(Ended(q, i), Process);
    case StartHandle(i) =>
      var c := q.pending[i];
      ReplacedBusy(q, i, Working(c.task, c.client, 0), SetAvailable(q.clients, c.client, false));
    case Progress(i) => ReplacedBusy(q, i, q.pending[i].(stage := q.pending[i].stage + 1), q.clients);
    case Succeed(i) => SucceedBusy(q, i);
    case Fail(i, closed) => FailBusy(q, i, closed);
  }

  /** What every step keeps and what makes progress possible. */
  ghost predicate Live<T>(q: Queue<T>)
  {
    Busy(q) && NotStranded(q) && q.maxClients >= 1
  }

  lemma StepLive<T>(q: Queue<T>, s: Step<T>)
    requires Live(q) && Enabled(q, s)
    ensures Live(Next(q, s))
  {
    StepBusy(q, s);
    StepNotStranded(q, s);
  }

  lemma {:induction false} RunLive<T>(q: Queue<T>, steps: seq<Step<T>>)
    requires Live(q) && IsRun(q, steps)
    ensures Live(Run(q, steps))
    decreases |steps|
  {
    if steps != [] {
      StepLive(q, steps[0]);
      RunLive(Next(q, steps[0]), steps[1..]);
    }
  }

  // ---- From any live state the front task can be started ----

  lemma Cons<T>(q: Queue<T>, s: Step<T>, rest: seq<Step<T>>)
    requires Enabled(q, s) && IsRun(Next(q, s), rest)
    ensures IsRun(q, [s] + rest) && Run(q, [s] + rest) == Run(Next(q, s), rest)
  {
    assert ([s] + rest)[1..] == rest;
  }

  lemma One<T>(q: Queue<T>, s: Step<T>)
    requires Enabled(q, s)
    ensures IsRun(q, [s]) && Run(q, [s]) == Next(q, s)
  {
    assert [s] + [] == [s];
    Cons(q, s, []);
  }

  /** The front task has been handed to a client. */
  ghost predicate Shifted<T>(q: Queue<T>, r: Queue<T>)
    requires q.tasks != []
  {
    r.tasks == q.tasks[1..] && r.started == q.started + [q.tasks[0]]
  }

  /** Nothing has been started, but the task of coroutine `i` runs and will, when it is done,
      leave its client to the front task. */
  ghost predicate AboutToShift<T>(q: Queue<T>, r: Queue<T>, i: nat)
  {
    r.tasks == q.tasks && r.started == q.started && i < |r.pending| && r.pending[i].Working?
  }

  /** A step by which nothing is added, nothing fails and the endpoint stays. */
  ghost predicate Fortunate<T>(s: Step<T>)
  {
    !s.Add? && !s.SetEndPoint? && !s.ConnectFailed? && !s.Fail?
  }

  ghost predicate AllFortunate<T>(steps: seq<Step<T>>)
  {
    forall i :: 0 <= i < |steps| ==> Fortunate(steps[i])
  }

  ghost predicate AllInternal<T>(steps: seq<Step<T>>)
  {
    forall i :: 0 <= i < |steps| ==> Internal(steps[i]) && Fortunate(steps[i])
  }

  ghost predicate Advances<T>(q: Queue<T>, steps: seq<Step<T>>, i: nat)
    requires q.tasks != []
  {
    IsRun(q, steps) && AllInternal(steps) && (Shifted(q, Run(q, steps)) || AboutToShift(q, Run(q, steps), i))
  }

  /** From a coroutine that has a task. */
  lemma FromTask<T>(q: Queue<T>, i: nat) returns (steps: seq<Step<T>>)
    requires q.tasks != [] && i < |q.pending| && (q.pending[i].Handle? || q.pending[i].Working?)
    ensures Advances(q, steps, i)
  {
    if q.pending[i].Handle? {
      steps := [StartHandle(i)];
      One(q, StartHandle(i));
    } else {
      steps := [];
    }
  }

  /** From a run of `processTasks`: there is a free client, or room for a new one, or a busy one. */
  lemma FromProcess<T>(q: Queue<T>, i: nat) returns (steps: seq<Step<T>>, j: nat)
    requires Live(q) && q.endpoint && q.tasks != [] && i < |q.pending| && q.pending[i].Process?
    ensures Advances(q, steps, j)
  {
    j := 0;
    var r := Processed(q, i);
    if FreeClient(q.clients, 0) < |q.clients| {
      steps := [StartProcess(i)];
      One(q, StartProcess(i));
    } else if |q.clients| < q.maxClients {
      var last := |r.pending| - 1;
      steps := [StartProcess(i)] + [Connected(last)];
      One(r, Connected(last));
      Cons(q, StartProcess(i), [Connected(last)]);
    } else {
      assert !q.clients[0].available;
      j :| 0 <= j < |q.pending| && RunsOn(q.pending[j], q.clients[0].id);
      steps := FromTask(q, j);
    }
  }

  lemma Advance<T>(q: Queue<T>) returns (steps: seq<Step<T>>, i: nat)
    requires Live(q) && q.endpoint && q.tasks != []
    ensures Advances(q, steps, i)
  {
    i := 0;
    match q.pending[0]
    case Process => steps, i := FromProcess(q, 0);
    case Connecting(_) =>
      steps := [Connected(0)];
      One(q, Connected(0));
    case Backoff =>
      var r := Next(q, BackoffOver(0));
      StepLive(q, BackoffOver(0));
      var rest;
      rest, i := FromProcess(r, |r.pending| - 1);
      steps := [BackoffOver(0)] + rest;
      Cons(q, BackoffOver(0), rest);
    case Handle(_, _) => steps := FromTask(q, 0);
    case Working(_, _, _) => steps := FromTask(q, 0);
  }

  lemma {:induction false} RunAppend<T>(q: Queue<T>, xs: seq<Step<T>>, ys: seq<Step<T>>)
    requires IsRun(q, xs) && IsRun(Run(q, xs), ys)
    ensures IsRun(q, xs + ys) && Run(q, xs + ys) == Run(Run(q, xs), ys)
    decreases |xs|
  {
    if xs == [] {
      assert xs + ys == ys;
    } else {
      assert (xs + ys)[1..] == xs[1..] + ys;
      RunAppend(Next(q, xs[0]), xs[1..], ys);
    }
  }

  /** If nothing fails from now on, the task at the front can be the next to start. */
  ghost predicate CanStart<T(!new)>(q: Queue<T>)
    requires q.tasks != []
  {
    exists steps: seq<Step<T>> :: IsRun(q, steps) && AllFortunate(steps) && Shifted(q, Run(q, steps))
  }

  lemma LiveCanStart<T(!new)>(q: Queue<T>)
    requires Live(q) && q.endpoint && q.tasks != []
    ensures CanStart(q)
  {
    var steps, i := Advance(q);
    var r := Run(q, steps);
    if !Shifted(q, r) {
      One(r, Succeed(i));
      RunAppend(q, steps, [Succeed(i)]);
      assert AllFortunate(steps + [Succeed(i)]);
    } else {
      assert AllFortunate(steps);
    }
  }

  // ---- A queue without clients ----

  ghost predicate Idling<T>(q: Queue<T>)
  {
    && q.maxClients == 0 && q.clients == []
    && forall i :: 0 <= i < |q.pending| ==> q.pending[i].Process? || q.pending[i].Backoff?
  }

  lemma {:induction false} IdlesOn<T>(q: Queue<T>, steps: seq<Step<T>>)
    requires Idling(q) && IsRun(q, steps)
    ensures Run(q, steps).started == q.started
    decreases |steps|
  {
    if steps != [] {
      IdlesOn(Next(q, steps[0]), steps[1..]);
    }
  }

  /** Whatever has happened, queued tasks with an endpoint to go to can still be started. */
  ghost predicate AlwaysCanStart<T(!new)>(maxClients: nat)
  {
    forall steps: seq<Step<T>> :: IsRun(New(maxClients, true), steps) ==>
      var q := Run(New(maxClients, true), steps);
      q.endpoint && q.tasks != [] ==> CanStart(q)
  }

  /** In every run, under any pattern of connect failures and task errors, the front task can
      still be started: exactly if the queue is allowed at least one client. */
  lemma NeverStrandedIff<T(!new)>(maxClients: nat, some: T)
    ensures AlwaysCanStart<T>(maxClients) <==> maxClients >= 1
  {
    var q0 := New<T>(maxClients, true);
    if maxClients >= 1 {
      forall steps: seq<Step<T>> | IsRun(q0, steps)
        ensures var q := Run(q0, steps); q.endpoint && q.tasks != [] ==> CanStart(q)
      {
        RunLive(q0, steps);
        var q := Run(q0, steps);
        if q.endpoint && q.tasks != [] {
          LiveCanStart(q);
        }
      }
    } else {
      var steps := [Add(some, false)];
      One(q0, Add(some, false));
      var q := Run(q0, steps);
      assert q.tasks == [some] && Idling(q);
      forall more: seq<Step<T>> | IsRun(q, more)
        ensures !Shifted(q, Run(q, more))
      {
        IdlesOn(q, more);
      }
    }
  }
}
