/** The task queue: tasks wait in a deque until a connected client is free to run them. The
    steps are the stretches of coroutine code between two suspensions. */
module TaskQueue {

  datatype Client = Client(id: nat, available: bool)

  /** A coroutine the executor still has to resume. `stage` counts how often a running task
      has suspended again. */
  datatype Coroutine<T> =
    | Process
    | Connecting(client: nat)
    | Backoff
    | Handle(task: T, client: nat)
    | Working(task: T, client: nat, stage: nat)

  datatype Queue<T> = Queue(tasks: seq<T>, clients: seq<Client>, endpoint: bool, maxClients: nat,
                                pending: seq<Coroutine<T>>, nextClient: nat,
                                added: seq<T>, started: seq<T>, finished: seq<T>)

  function New<T>(maxClients: nat, endpoint: bool): Queue<T>
  {
    Queue([], [], endpoint, maxClients, [], 0, [], [], [])
  }

  // ---- Pieces of the code ----

  function Spawn<T>(q: Queue<T>, c: Coroutine<T>): Queue<T>
  {
    q.(pending := q.pending + [c])
  }

  function AddTask<T>(q: Queue<T>, t: T, front: bool): Queue<T>
  {
    var r := q.(tasks := if front then [t] + q.tasks else q.tasks + [t], added := q.added + [t]);
    if |q.tasks| < q.maxClients then Spawn(r, Process) else r
  }

  /** The first client that is free, or the number of clients. */
  function FreeClient(clients: seq<Client>, i: nat): (r: nat)
    requires i <= |clients|
    ensures i <= r <= |clients|
    ensures r < |clients| ==> clients[r].available
    ensures forall k :: i <= k < r ==> !clients[k].available
    decreases |clients| - i
  {
    if i == |clients| || clients[i].available then i else FreeClient(clients, i + 1)
  }

  function SetAvailable(clients: seq<Client>, id: nat, available: bool): seq<Client>
  {
    seq(|clients|, i requires 0 <= i < |clients| => if clients[i].id == id then Client(id, available) else clients[i])
  }

  /** `removeClient`: the failed client goes, and every client found closed with it. */
  function RemoveClients(clients: seq<Client>, id: nat, closed: set<nat>): seq<Client>
  {
    if clients == [] then []
    else
      (if clients[0].id == id || clients[0].id in closed then [] else [clients[0]])
      + RemoveClients(clients[1..], id, closed)
  }

  /** Exactly the failed client and the closed ones are gone. */
  lemma {:induction false} RemovedIff(clients: seq<Client>, id: nat, closed: set<nat>, c: Client)
    ensures c in RemoveClients(clients, id, closed) <==> c in clients && c.id != id && c.id !in closed
    decreases |clients|
  {
    if clients != [] {
      RemovedIff(clients[1..], id, closed, c);
      assert clients == [clients[0]] + clients[1..];
    }
  }

  /** `takeTask`, with the coroutine that is spawned to handle it. */
  function Dispatch<T>(q: Queue<T>, client: nat): Queue<T>
    requires q.tasks != []
  {
    Spawn(q.(tasks := q.tasks[1..], started := q.started + [q.tasks[0]]), Handle(q.tasks[0], client))
  }

  /** The coroutine at place `i` ends. */
  function Ended<T>(q: Queue<T>, i: nat): Queue<T>
    requires i < |q.pending|
  {
    q.(pending := q.pending[..i] + q.pending[i + 1..])
  }

  // ---- Steps ----

  datatype Step<T> =
    | Add(task: T, front: bool)
    | SetEndPoint(isSet: bool)
    | StartProcess(i: nat)
    | Connected(i: nat)
    | ConnectFailed(i: nat)
    | BackoffOver(i: nat)
    | StartHandle(i: nat)
    | Progress(i: nat)                      // the task resumes and suspends again
    | Succeed(i: nat)                       // the task returns without error
    | Fail(i: nat, closed: set<nat>)        // the task returns an error

  predicate Enabled<T>(q: Queue<T>, s: Step<T>)
  {
    match s
    case Add(_, _) => true
    case SetEndPoint(_) => true
    case StartProcess(i) => i < |q.pending| && q.pending[i].Process?
    case Connected(i) => i < |q.pending| && q.pending[i].Connecting?
    case ConnectFailed(i) => i < |q.pending| && q.pending[i].Connecting?
    case BackoffOver(i) => i < |q.pending| && q.pending[i].Backoff?
    case StartHandle(i) => i < |q.pending| && q.pending[i].Handle?
    case Progress(i) => i < |q.pending| && q.pending[i].Working?
    case Succeed(i) => i < |q.pending| && q.pending[i].Working?
    case Fail(i, _) => i < |q.pending| && q.pending[i].Working?
  }

  /** `processTasks` from its start to its first suspension or its end. */
  function Processed<T>(q: Queue<T>, i: nat): Queue<T>
    requires i < |q.pending|
  {
    var r := Ended(q, i);
    if !q.endpoint || q.tasks == [] then r
    else
      var k := FreeClient(q.clients, 0);
      if k < |q.clients| then
        Dispatch(r.(clients := q.clients[k := q.clients[k].(available := false)]), q.clients[k].id)
      else if |q.clients| < q.maxClients then
        Spawn(r.(nextClient := q.nextClient + 1), Connecting(q.nextClient))
      else
        Spawn(r, Backoff)
  }

  /** `processTasks` after a successful connect; by now the deque may be empty. */
  function AfterConnect<T>(q: Queue<T>, i: nat): Queue<T>
    requires i < |q.pending| && q.pending[i].Connecting?
  {
    var id := q.pending[i].client;
    var r := Ended(q, i);
    if q.tasks == [] then Spawn(r.(clients := q.clients + [Client(id, true)]), Backoff)
    else Dispatch(r.(clients := q.clients + [Client(id, false)]), id)
  }

  function Succeeded<T>(q: Queue<T>, i: nat): Queue<T>
    requires i < |q.pending| && q.pending[i].Working?
  {
    var c := q.pending[i];
    var r := Ended(q, i).(clients := SetAvailable(q.clients, c.client, true), finished := q.finished + [c.task]);
    if q.tasks == [] then r else Dispatch(r, c.client)
  }

  function Failed<T>(q: Queue<T>, i: nat, closed: set<nat>): Queue<T>
    requires i < |q.pending| && q.pending[i].Working?
  {
    var c := q.pending[i];
    Spawn(Ended(q, i).(clients := RemoveClients(q.clients, c.client, closed),
      finished := q.finished + [c.task]), Process)
  }

  function Next<T>(q: Queue<T>, s: Step<T>): Queue<T>
    requires Enabled(q, s)
  {
    match s
    case Add(t, front) => AddTask(q, t, front)
    case SetEndPoint(isSet) => Spawn(q.(endpoint := isSet), Process)
    case StartProcess(i) => Processed(q, i)
    case Connected(i) => AfterConnect(q, i)
    case ConnectFailed(i) => Spawn(Ended(q, i), Backoff)
    case BackoffOver(i) => Spawn(Ended(q, i), Process)
    case StartHandle(i) =>
      var c := q.pending[i];
      q.(pending := q.pending[i := Working(c.task, c.client, 0)], clients := SetAvailable(q.clients, c.client, false))
    case Progress(i) =>
      q.(pending := q.pending[i := q.pending[i].(stage := q.pending[i].stage + 1)])
    case Succeed(i) => Succeeded(q, i)
    case Fail(i, closed) => Failed(q, i, closed)
  }

  // ---- Conservation ----

  /** How long a running task counts as in flight: to its end, or up to one of its stages. */
  datatype Span = ToTheEnd | UpTo(stage: nat)

  ghost predicate Counts<T>(c: Coroutine<T>, span: Span)
  {
    c.Handle? || (c.Working? && (span.ToTheEnd? || c.stage < span.stage))
  }

  ghost function Carried<T>(c: Coroutine<T>, span: Span): multiset<T>
  {
    if Counts(c, span) then multiset{c.task} else multiset{}
  }

  ghost function InFlight<T>(pending: seq<Coroutine<T>>, span: Span): multiset<T>
  {
    if pending == [] then multiset{} else Carried(pending[0], span) + InFlight(pending[1..], span)
  }

  /** The tasks that still have to do something. */
  ghost function Outstanding<T>(q: Queue<T>, span: Span): multiset<T>
  {
    multiset(q.tasks) + InFlight(q.pending, span)
  }

  /** Every task ever added is queued, in flight or finished, and nowhere twice. */
  ghost predicate Conserved<T>(q: Queue<T>)
  {
    Outstanding(q, ToTheEnd) + multiset(q.finished) == multiset(q.added)
  }

  /** Queued tasks with an endpoint to go to have a coroutine on the way to them. */
  ghost predicate NotStranded<T>(q: Queue<T>)
  {
    q.endpoint && q.tasks != [] ==> q.pending != []
  }

  lemma {:induction false} InFlightAppend<T>(xs: seq<Coroutine<T>>, ys: seq<Coroutine<T>>, span: Span)
    ensures InFlight(xs + ys, span) == InFlight(xs, span) + InFlight(ys, span)
    decreases |xs|
  {
    if xs == [] {
      assert xs + ys == ys;
    } else {
      assert (xs + ys)[1..] == xs[1..] + ys;
      InFlightAppend(xs[1..], ys, span);
    }
  }

  lemma InFlightOne<T>(c: Coroutine<T>, span: Span)
    ensures InFlight([c], span) == Carried(c, span)
  {
    assert InFlight([c][1..], span) == multiset{};
  }

  lemma InFlightSplit<T>(pending: seq<Coroutine<T>>, i: nat, span: Span)
    requires i < |pending|
    ensures InFlight(pending, span) == InFlight(pending[..i] + pending[i + 1..], span) + Carried(pending[i], span)
  {
    assert pending == pending[..i] + ([pending[i]] + pending[i + 1..]);
    InFlightAppend(pending[..i], [pending[i]] + pending[i + 1..], span);
    InFlightAppend([pending[i]], pending[i + 1..], span);
    InFlightAppend(pending[..i], pending[i + 1..], span);
    InFlightOne(pending[i], span);
  }

  lemma SpawnOutstanding<T>(q: Queue<T>, c: Coroutine<T>, span: Span)
    ensures Outstanding(Spawn(q, c), span) == Outstanding(q, span) + Carried(c, span)
  {
    InFlightAppend(q.pending, [c], span);
    InFlightOne(c, span);
  }

  lemma EndedOutstanding<T>(q: Queue<T>, i: nat, span: Span)
    requires i < |q.pending|
    ensures Outstanding(q, span) == Outstanding(Ended(q, i), span) + Carried(q.pending[i], span)
  {
    InFlightSplit(q.pending, i, span);
  }

  lemma DispatchOutstanding<T>(q: Queue<T>, client: nat, span: Span)
    requires q.tasks != []
    ensures Outstanding(Dispatch(q, client), span) == Outstanding(q, span)
  {
    assert q.tasks == [q.tasks[0]] + q.tasks[1..];
    SpawnOutstanding(q.(tasks := q.tasks[1..], started := q.started + [q.tasks[0]]), Handle(q.tasks[0], client), span);
  }

  lemma Cancel<T>(a: multiset<T>, b: multiset<T>, c: multiset<T>)
    requires a + c == b + c
    ensures a == b
  {
    forall x
      ensures a[x] == b[x]
    {
      assert (a + c)[x] == (b + c)[x];
    }
  }

  lemma ReplaceOutstanding<T>(q: Queue<T>, i: nat, c: Coroutine<T>, span: Span)
    requires i < |q.pending|
    ensures Outstanding(q.(pending := q.pending[i := c]), span) + Carried(q.pending[i], span) ==
      Outstanding(q, span) + Carried(c, span)
  {
    InFlightSplit(q.pending, i, span);
    InFlightSplit(q.pending[i := c], i, span);
    assert q.pending[i := c][..i] + q.pending[i := c][i + 1..] == q.pending[..i] + q.pending[i + 1..];
  }

  lemma AddOutstanding<T>(q: Queue<T>, t: T, front: bool, span: Span)
    ensures Outstanding(AddTask(q, t, front), span) == Outstanding(q, span) + multiset{t}
  {
    var r := q.(tasks := if front then [t] + q.tasks else q.tasks + [t], added := q.added + [t]);
    SpawnOutstanding(r, Process, span);
  }

  lemma ProcessOutstanding<T>(q: Queue<T>, i: nat, span: Span)
    requires i < |q.pending| && q.pending[i].Process?
    ensures Outstanding(Processed(q, i), span) == Outstanding(q, span)
  {
    EndedOutstanding(q, i, span);
    var r := Ended(q, i);
    if q.endpoint && q.tasks != [] {
      var k := FreeClient(q.clients, 0);
      if k < |q.clients| {
        DispatchOutstanding(r.(clients := q.clients[k := q.clients[k].(available := false)]), q.clients[k].id, span);
      } else if |q.clients| < q.maxClients {
        SpawnOutstanding(r.(nextClient := q.nextClient + 1), Connecting(q.nextClient), span);
      } else {
        SpawnOutstanding(r, Backoff, span);
      }
    }
  }

  lemma ConnectOutstanding<T>(q: Queue<T>, i: nat, span: Span)
    requires i < |q.pending| && q.pending[i].Connecting?
    ensures Outstanding(AfterConnect(q, i), span) == Outstanding(q, span)
  {
    EndedOutstanding(q, i, span);
    var id := q.pending[i].client;
    if q.tasks == [] {
      SpawnOutstanding(Ended(q, i).(clients := q.clients + [Client(id, true)]), Backoff, span);
    } else {
      DispatchOutstanding(Ended(q, i).(clients := q.clients + [Client(id, false)]), id, span);
    }
  }

  lemma SucceedOutstanding<T>(q: Queue<T>, i: nat, span: Span)
    requires i < |q.pending| && q.pending[i].Working?
    ensures Outstanding(Succeeded(q, i), span) + Carried(q.pending[i], span) == Outstanding(q, span)
  {
    EndedOutstanding(q, i, span);
    var c := q.pending[i];
    if q.tasks != [] {
      DispatchOutstanding(Ended(q, i).(clients := SetAvailable(q.clients, c.client, true),
        finished := q.finished + [c.task]),
                          c.client, span);
    }
  }

  lemma FailOutstanding<T>(q: Queue<T>, i: nat, closed: set<nat>, span: Span)
    requires i < |q.pending| && q.pending[i].Working?
    ensures Outstanding(Failed(q, i, closed), span) + Carried(q.pending[i], span) == Outstanding(q, span)
  {
    EndedOutstanding(q, i, span);
    var c := q.pending[i];
    SpawnOutstanding(Ended(q, i).(clients := RemoveClients(q.clients, c.client, closed),
      finished := q.finished + [c.task]),
                     Process, span);
  }

  lemma TasklessOutstanding<T>(q: Queue<T>, i: nat, c: Coroutine<T>, span: Span)
    requires i < |q.pending| && Carried(q.pending[i], span) == Carried(c, span)
    ensures Outstanding(Spawn(Ended(q, i), c), span) == Outstanding(q, span)
  {
    EndedOutstanding(q, i, span);
    SpawnOutstanding(Ended(q, i), c, span);
  }

  lemma StartHandleOutstanding<T>(q: Queue<T>, i: nat, span: Span)
    requires i < |q.pending| && q.pending[i].Handle? && span != UpTo(0)
    ensures Outstanding(Next(q, StartHandle(i)), span) == Outstanding(q, span)
  {
    var c := Working(q.pending[i].task, q.pending[i].client, 0);
    var r := q.(pending := q.pending[i := c]);
    ReplaceOutstanding(q, i, c, span);
    Cancel(Outstanding(r, span), Outstanding(q, span), Carried(c, span));
    assert Next(q, StartHandle(i)).pending == r.pending && Next(q, StartHandle(i)).tasks == r.tasks;
  }

  lemma EndPointOutstanding<T>(q: Queue<T>, isSet: bool, span: Span)
    ensures Outstanding(Next(q, SetEndPoint(isSet)), span) == Outstanding(q, span)
  {
    SpawnOutstanding(q.(endpoint := isSet), Process, span);
  }

  /** Steps that belong to the queue itself move tasks along without adding or ending any. */
  predicate Internal<T>(s: Step<T>)
  {
    s.SetEndPoint? || s.StartProcess? || s.Connected? || s.ConnectFailed? || s.BackoffOver? || s.StartHandle?
  }

  lemma InternalOutstanding<T>(q: Queue<T>, s: Step<T>, span: Span)
    requires Enabled(q, s) && Internal(s) && span != UpTo(0)
    ensures Outstanding(Next(q, s), span) == Outstanding(q, span)
  {
    match s
    case SetEndPoint(isSet) => EndPointOutstanding(q, isSet, span);
    case StartProcess(i) => ProcessOutstanding(q, i, span);
    case Connected(i) => ConnectOutstanding(q, i, span);
    case ConnectFailed(i) => TasklessOutstanding(q, i, Backoff, span);
    case BackoffOver(i) => TasklessOutstanding(q, i, Process, span);
    case StartHandle(i) => StartHandleOutstanding(q, i, span);
  }

  lemma ProgressOutstanding<T>(q: Queue<T>, i: nat)
    requires i < |q.pending| && q.pending[i].Working?
    ensures Outstanding(Next(q, Progress(i)), ToTheEnd) == Outstanding(q, ToTheEnd)
  {
    var c := q.pending[i].(stage := q.pending[i].stage + 1);
    var r := q.(pending := q.pending[i := c]);
    ReplaceOutstanding(q, i, c, ToTheEnd);
    assert Carried(c, ToTheEnd) == Carried(q.pending[i], ToTheEnd);
    Cancel(Outstanding(r, ToTheEnd), Outstanding(q, ToTheEnd), Carried(c, ToTheEnd));
    assert Next(q, Progress(i)) == r;
  }

  lemma FinishConserves<T>(q: Queue<T>, s: Step<T>)
    requires Conserved(q) && Enabled(q, s) && (s.Succeed? || s.Fail?)
    ensures Conserved(Next(q, s))
  {
    var r, t := Next(q, s), q.pending[s.i].task;
    if s.Succeed? {
      SucceedOutstanding(q, s.i, ToTheEnd);
    } else {
      FailOutstanding(q, s.i, s.closed, ToTheEnd);
    }
    assert r.finished == q.finished + [t] && r.added == q.added;
    assert Outstanding(r, ToTheEnd) + multiset(r.finished) ==
      Outstanding(r, ToTheEnd) + multiset{t} + multiset(q.finished);
  }

  lemma InternalConserves<T>(q: Queue<T>, s: Step<T>)
    requires Conserved(q) && Enabled(q, s) && Internal(s)
    ensures Conserved(Next(q, s))
  {
    InternalOutstanding(q, s, ToTheEnd);
  }

  lemma AddConserves<T>(q: Queue<T>, t: T, front: bool)
    requires Conserved(q)
    ensures Conserved(AddTask(q, t, front))
  {
    AddOutstanding(q, t, front, ToTheEnd);
  }

  lemma StepConserves<T>(q: Queue<T>, s: Step<T>)
    requires Conserved(q) && Enabled(q, s)
    ensures Conserved(Next(q, s))
  {
    match s
    case Add(t, front) => AddConserves(q, t, front);
    case Progress(i) => ProgressOutstanding(q, i);
    case Succeed(_) => FinishConserves(q, s);
    case Fail(_, _) => FinishConserves(q, s);
    case _ => InternalConserves(q, s);
  }

  /** No step strands a queued task, provided at least one client is allowed. */
  lemma StepNotStranded<T>(q: Queue<T>, s: Step<T>)
    requires NotStranded(q) && Enabled(q, s) && q.maxClients >= 1
    ensures NotStranded(Next(q, s)) && Next(q, s).maxClients == q.maxClients
  {
  }

  /** With only back insertions, tasks are started in the order in which they were added. */
  ghost predicate InOrder<T>(q: Queue<T>)
  {
    q.started + q.tasks == q.added
  }

  lemma StepInOrder<T>(q: Queue<T>, s: Step<T>)
    requires InOrder(q) && Enabled(q, s) && !(s.Add? && s.front)
    ensures InOrder(Next(q, s))
  {
    if q.tasks != [] {
      assert q.started + [q.tasks[0]] + q.tasks[1..] == q.started + q.tasks;
    }
    if s.Add? {
      assert q.started + (q.tasks + [s.task]) == q.started + q.tasks + [s.task];
    }
  }

  // ---- Every run ----

  predicate IsRun<T>(q: Queue<T>, steps: seq<Step<T>>)
    decreases |steps|
  {
    steps == [] || (Enabled(q, steps[0]) && IsRun(Next(q, steps[0]), steps[1..]))
  }

  function Run<T>(q: Queue<T>, steps: seq<Step<T>>): Queue<T>
    requires IsRun(q, steps)
    decreases |steps|
  {
    if steps == [] then q else Run(Next(q, steps[0]), steps[1..])
  }

  lemma {:induction false} RunConserves<T>(q: Queue<T>, steps: seq<Step<T>>)
    requires IsRun(q, steps) && Conserved(q)
    ensures Conserved(Run(q, steps))
    ensures InOrder(q) && (forall i :: 0 <= i < |steps| && steps[i].Add? ==> !steps[i].front) ==> InOrder(Run(q, steps))
    decreases |steps|
  {
    if steps != [] {
      StepConserves(q, steps[0]);
      if InOrder(q) && (forall i :: 0 <= i < |steps| && steps[i].Add? ==> !steps[i].front) {
        StepInOrder(q, steps[0]);
      }
      RunConserves(Next(q, steps[0]), steps[1..]);
    }
  }

  /** In every run, under any pattern of connect failures and task errors, each added task is in
      exactly one place: queued, in flight or finished. */
  lemma TasksConserved<T>(maxClients: nat, endpoint: bool, steps: seq<Step<T>>)
    requires IsRun(New(maxClients, endpoint), steps)
    ensures Conserved(Run(New(maxClients, endpoint), steps))
  {
    RunConserves(New(maxClients, endpoint), steps);
  }

  /** If tasks are only added at the back, they are started first come, first served. */
  lemma FirstComeFirstServed<T>(maxClients: nat, endpoint: bool, steps: seq<Step<T>>)
    requires IsRun(New(maxClients, endpoint), steps)
    requires forall i :: 0 <= i < |steps| && steps[i].Add? ==> !steps[i].front
    ensures var q := Run(New(maxClients, endpoint), steps); q.started + q.tasks == q.added
  {
    RunConserves(New(maxClients, endpoint), steps);
  }
}
