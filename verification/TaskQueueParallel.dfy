/** How many coroutines look for work, and how many tasks can run side by side. */
module TaskQueueParallel {
  import opened TaskQueue
  import P = TaskQueueProgress

  // ---- Coroutines looking for work ----

  predicate Searches<T>(c: Coroutine<T>)
  {
    c.Process? || c.Connecting? || c.Backoff?
  }

  function Searchers<T>(pending: seq<Coroutine<T>>): nat
  {
    if pending == [] then 0 else (if Searches(pending[0]) then 1 else 0) + Searchers(pending[1..])
  }

  lemma {:induction false} SearchersAppend<T>(xs: seq<Coroutine<T>>, ys: seq<Coroutine<T>>)
    ensures Searchers(xs + ys) == Searchers(xs) + Searchers(ys)
    decreases |xs|
  {
    if xs == [] {
      assert xs + ys == ys;
    } else {
      assert (xs + ys)[1..] == xs[1..] + ys;
      SearchersAppend(xs[1..], ys);
    }
  }

  lemma SearchersOne<T>(c: Coroutine<T>)
    ensures Searchers([c]) == if Searches(c) then 1 else 0
  {
    assert [c][1..] == [];
  }

  lemma SpawnSearchers<T>(pending: seq<Coroutine<T>>, c: Coroutine<T>)
    ensures Searchers(pending + [c]) == Searchers(pending) + if Searches(c) then 1 else 0
  {
    SearchersAppend(pending, [c]);
    SearchersOne(c);
  }

  lemma EndSearchers<T>(pending: seq<Coroutine<T>>, i: nat)
    requires i < |pending|
    ensures Searchers(pending[..i] + pending[i + 1..]) + (if Searches(pending[i]) then 1 else 0) == Searchers(pending)
  {
    SearchersAppend(pending[..i], pending[i + 1..]);
    SearchersAppend(pending[..i], [pending[i]] + pending[i + 1..]);
    SearchersAppend([pending[i]], pending[i + 1..]);
    SearchersOne(pending[i]);
    assert pending == pending[..i] + ([pending[i]] + pending[i + 1..]);
  }

  lemma ReplaceSearchers<T>(pending: seq<Coroutine<T>>, i: nat, c: Coroutine<T>)
    requires i < |pending| && Searches(c) == Searches(pending[i])
    ensures Searchers(pending[i := c]) == Searchers(pending)
  {
    EndSearchers(pending, i);
    EndSearchers(pending[i := c], i);
    assert pending[i := c][..i] + pending[i := c][i + 1..] == pending[..i] + pending[i + 1..];
  }

  /** The step finds the queue without an endpoint or without tasks, and so gives up. */
  predicate FindsNothing<T>(q: Queue<T>, s: Step<T>)
  {
    s.StartProcess? && (!q.endpoint || q.tasks == [])
  }

  /** A search goes on, through connects, failures and waiting times, until it has started a task
      or found nothing to do when it began anew; every failed task and every endpoint begins one,
      and so does a task that is added while fewer tasks wait than clients are allowed. */
  lemma SearchGoesOn<T>(q: Queue<T>, s: Step<T>)
    requires Enabled(q, s)
    ensures var r := Next(q, s);
      var dispatched := (s.StartProcess? || s.Connected?) && r.started != q.started;
      Searchers(r.pending) == Searchers(q.pending)
        - (if FindsNothing(q, s) || dispatched then 1 else 0)
        + (if s.Fail? || s.SetEndPoint? || (s.Add? && |q.tasks| < q.maxClients) then 1 else 0)
    ensures (s.StartProcess? || s.Connected?) && Next(q, s).started != q.started ==>
      q.tasks != [] && Next(q, s).started == q.started + [q.tasks[0]]
  {
    match s
    case Add(_, _) => SpawnSearchers(q.pending, Process);
    case SetEndPoint(_) => SpawnSearchers(q.pending, Process);
    case StartProcess(i) => ProcessSearchers(q, i);
    case Connected(i) => ConnectSearchers(q, i);
    case ConnectFailed(i) => TurnSearchers(q, i, Backoff);
    case BackoffOver(i) => TurnSearchers(q, i, Process);
    case StartHandle(i) => ReplaceSearchers(q.pending, i, Working(q.pending[i].task, q.pending[i].client, 0));
    case Progress(i) => ReplaceSearchers(q.pending, i, q.pending[i].(stage := q.pending[i].stage + 1));
    case Succeed(i) => SucceedSearchers(q, i);
    case Fail(i, _) => TurnSearchers(q, i, Process);
  }

  /** The coroutine at place `i` ends and another one is spawned. */
  lemma TurnSearchers<T>(q: Queue<T>, i: nat, c: Coroutine<T>)
    requires i < |q.pending|
    ensures Searchers(Ended(q, i).pending + [c]) + (if Searches(q.pending[i]) then 1 else 0) ==
      Searchers(q.pending) + if Searches(c) then 1 else 0
  {
    EndSearchers(q.pending, i);
    SpawnSearchers(Ended(q, i).pending, c);
  }

  lemma ProcessSearchers<T>(q: Queue<T>, i: nat)
    requires i < |q.pending| && q.pending[i].Process?
    ensures var r := Processed(q, i);
      Searchers(r.pending) + (if !q.endpoint || q.tasks == [] || r.started != q.started then 1 else 0) ==
        Searchers(q.pending)
    ensures Processed(q, i).started != q.started ==>
      q.tasks != [] && Processed(q, i).started == q.started + [q.tasks[0]]
  {
    EndSearchers(q.pending, i);
    if q.endpoint && q.tasks != [] {
      var k := FreeClient(q.clients, 0);
      if k < |q.clients| {
        TurnSearchers(q, i, Handle(q.tasks[0], q.clients[k].id));
        assert q.started + [q.tasks[0]] != q.started;
      } else if |q.clients| < q.maxClients {
        TurnSearchers(q, i, Connecting(q.nextClient));
      } else {
        TurnSearchers(q, i, Backoff);
      }
    }
  }

  lemma ConnectSearchers<T>(q: Queue<T>, i: nat)
    requires i < |q.pending| && q.pending[i].Connecting?
    ensures var r := AfterConnect(q, i);
      Searchers(r.pending) + (if r.started != q.started then 1 else 0) == Searchers(q.pending)
    ensures AfterConnect(q, i).started != q.started ==>
      q.tasks != [] && AfterConnect(q, i).started == q.started + [q.tasks[0]]
  {
    if q.tasks == [] {
      TurnSearchers(q, i, Backoff);
    } else {
      TurnSearchers(q, i, Handle(q.tasks[0], q.pending[i].client));
      assert q.started + [q.tasks[0]] != q.started;
    }
  }

  lemma SucceedSearchers<T>(q: Queue<T>, i: nat)
    requires i < |q.pending| && q.pending[i].Working?
    ensures Searchers(Succeeded(q, i).pending) == Searchers(q.pending)
  {
    EndSearchers(q.pending, i);
    if q.tasks != [] {
      SpawnSearchers(Ended(q, i).pending, Handle(q.tasks[0], q.pending[i].client));
    }
  }

  // ---- Clients and their tasks ----

  function Marked(c: Client, id: nat, available: bool): Client
  {
    if c.id == id then c.(available := available) else c
  }

  /** From the moment a task begins until it is done its client counts as unavailable; when it is
      done and nothing waits the client is available, and when something waits the client goes on
      to the task at the front. Other clients are not touched. */
  lemma TaskHoldsClient<T>(q: Queue<T>, i: nat, k: nat)
    requires i < |q.pending| && (q.pending[i].Handle? || q.pending[i].Working?) && k < |q.clients|
    ensures q.pending[i].Handle? ==>
      var r := Next(q, StartHandle(i));
      && |r.clients| == |q.clients|
      && r.clients[k] == Marked(q.clients[k], q.pending[i].client, false)
      && r.pending[i] == Working(q.pending[i].task, q.pending[i].client, 0)
    ensures q.pending[i].Working? ==>
      var r := Next(q, Succeed(i));
      && |r.clients| == |q.clients|
      && r.clients[k] == Marked(q.clients[k], q.pending[i].client, true)
      && (q.tasks != [] ==> r.pending[|r.pending| - 1] == Handle(q.tasks[0], q.pending[i].client))
  {
  }

  // ---- Tasks side by side ----

  /** As many tasks as clients are allowed, added to a new queue. */
  function Adds<T>(ts: seq<T>): seq<Step<T>>
  {
    if ts == [] then [] else Adds(ts[..|ts| - 1]) + [Add(ts[|ts| - 1], false)]
  }

  function Repeated<T>(s: Step<T>, n: nat): seq<Step<T>>
  {
    seq(n, _ => s)
  }

  function Beginners<T>(n: nat): seq<Coroutine<T>>
  {
    seq(n, _ => Process)
  }

  lemma {:induction false} AddsSpawn<T>(ts: seq<T>, maxClients: nat)
    requires |ts| <= maxClients
    ensures IsRun(New(maxClients, true), Adds(ts))
    ensures Run(New(maxClients, true), Adds(ts)) ==
      New(maxClients, true).(tasks := ts, added := ts, pending := Beginners(|ts|))
    decreases |ts|
  {
    var q0 := New<T>(maxClients, true);
    if ts == [] {
      assert Beginners<T>(0) == q0.pending;
    } else {
      var init, t := ts[..|ts| - 1], ts[|ts| - 1];
      AddsSpawn(init, maxClients);
      var q := Run(q0, Adds(init));
      P.One(q, Add(t, false));
      P.RunAppend(q0, Adds(init), [Add(t, false)]);
      assert init + [t] == ts;
      assert Beginners<T>(|init|) + [Process] == Beginners<T>(|ts|);
    }
  }

  /** `m` coroutines have yet to begin, and the others are connecting. */
  ghost predicate Opening<T>(q: Queue<T>, ts: seq<T>, m: nat)
  {
    && q.endpoint && q.clients == [] && q.tasks == ts && q.started == [] && |ts| <= q.maxClients
    && m <= |ts| == |q.pending|
    && (forall i :: 0 <= i < m ==> q.pending[i].Process?)
    && (forall i :: m <= i < |ts| ==> q.pending[i].Connecting?)
  }

  lemma {:induction false} AllOpen<T>(q: Queue<T>, ts: seq<T>, m: nat)
    requires Opening(q, ts, m)
    ensures IsRun(q, Repeated(StartProcess(0), m)) && Opening(Run(q, Repeated(StartProcess(0), m)), ts, 0)
    decreases m
  {
    var steps := Repeated<T>(StartProcess(0), m);
    if m > 0 {
      var r := Next(q, StartProcess(0));
      assert r.pending == q.pending[1..] + [Connecting(q.nextClient)];
      AllOpen(r, ts, m - 1);
      assert steps == [StartProcess(0)] + Repeated(StartProcess(0), m - 1);
      P.Cons(q, StartProcess(0), Repeated(StartProcess(0), m - 1));
    }
  }

  /** The first `n` tasks are on their clients, and for each of the others one is connecting. */
  ghost predicate Filling<T>(q: Queue<T>, ts: seq<T>, n: nat)
  {
    && n <= |ts| == |q.pending| && q.tasks == ts[n..] && q.started == ts[..n]
    && (forall i :: 0 <= i < |ts| - n ==> q.pending[i].Connecting?)
    && (forall i :: |ts| - n <= i < |ts| ==> q.pending[i].Handle? && q.pending[i].task == ts[i - (|ts| - n)])
  }

  lemma {:induction false} AllFill<T>(q: Queue<T>, ts: seq<T>, n: nat)
    requires Filling(q, ts, n)
    ensures var steps := Repeated<T>(Connected(0), |ts| - n);
      IsRun(q, steps) && Filling(Run(q, steps), ts, |ts|)
    decreases |ts| - n
  {
    if n < |ts| {
      var r := Next(q, Connected(0));
      assert r.pending == q.pending[1..] + [Handle(ts[n], q.pending[0].client)];
      assert r.tasks == ts[n + 1..] && r.started == ts[..n + 1];
      AllFill(r, ts, n + 1);
      assert Repeated<T>(Connected(0), |ts| - n) == [Connected(0)] + Repeated(Connected(0), |ts| - n - 1);
      P.Cons(q, Connected(0), Repeated(Connected(0), |ts| - n - 1));
    }
  }

  /** As many tasks as clients are allowed can be under way at the same time: added one after the
      other, they can all be on a client of their own before the first of them has begun. */
  lemma AllRunAtOnce<T>(ts: seq<T>, maxClients: nat)
    requires |ts| <= maxClients
    ensures var steps := Adds(ts) + Repeated(StartProcess(0), |ts|) + Repeated(Connected(0), |ts|);
      && IsRun(New(maxClients, true), steps)
      && var q := Run(New(maxClients, true), steps);
         && q.tasks == [] && |q.pending| == |ts|
         && forall i :: 0 <= i < |ts| ==> q.pending[i].Handle? && q.pending[i].task == ts[i]
  {
    var q0 := New<T>(maxClients, true);
    AddsSpawn(ts, maxClients);
    var q1 := Run(q0, Adds(ts));
    AllOpen(q1, ts, |ts|);
    var q2 := Run(q1, Repeated(StartProcess(0), |ts|));
    P.RunAppend(q0, Adds(ts), Repeated(StartProcess(0), |ts|));
    assert ts[0..] == ts && ts[..0] == [];
    AllFill(q2, ts, 0);
    P.RunAppend(q0, Adds(ts) + Repeated(StartProcess(0), |ts|), Repeated(Connected(0), |ts|));
  }
}
