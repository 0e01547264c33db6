/** An event in the table can always still be settled. */
module EventQueueProgress {
  import opened EventQueue
  import Q = TaskQueueProgress

  /** A handler is at one of its four suspensions. */
  ghost predicate StageOk(c: TaskQueue.Coroutine<Job>)
  {
    c.Working? && c.task.Send? ==> c.stage <= READING_DONE
  }

  ghost predicate StagesOk(q: TaskQueue.Queue<Job>)
  {
    forall i :: 0 <= i < |q.pending| ==> StageOk(q.pending[i])
  }

  ghost predicate Live(w: World)
  {
    Accounted(w) && Q.Live(w.queue) && StagesOk(w.queue)
  }

  /** Every step of the event queue is one or two steps of its task queue. */
  lemma StepQueueLive(w: World, s: Step)
    requires Q.Live(w.queue) && Enabled(w, s)
    ensures Q.Live(Next(w, s).queue)
  {
    match s
    case AddEvent(id, event) => Q.StepLive(w.queue, TaskQueue.Add(Send(id, event), false));
    case AddBarrier(event) => Q.StepLive(w.queue, TaskQueue.Add(Barrier(event), false));
    case Queue(s') => Q.StepLive(w.queue, s');
    case BarrierRun(i) => Q.StepLive(w.queue, TaskQueue.Succeed(i));
    case DoneRead(i) => Q.StepLive(w.queue, TaskQueue.Succeed(i));
    case Written(i, _, now, closed) =>
      Q.StepLive(w.queue, TaskQueue.Progress(i));
      FailedQueueLive(w, i, now, closed);
    case HeaderRead(i, _, now, closed) =>
      Q.StepLive(w.queue, TaskQueue.Progress(i));
      Q.StepLive(w.queue, TaskQueue.Succeed(i));
      FailedQueueLive(w, i, now, closed);
    case ProviderDone(i, _, now, closed) =>
      Q.StepLive(w.queue, TaskQueue.Progress(i));
      FailedQueueLive(w, i, now, closed);
  }

  lemma FailedQueueLive(w: World, i: nat, now: uint64, closed: set<nat>)
    requires Q.Live(w.queue)
    requires i < |w.queue.pending| && w.queue.pending[i].Working? && w.queue.pending[i].task.Send?
    ensures Q.Live(SendFailed(w, i, now, closed).queue)
  {
    var id := w.queue.pending[i].task.id;
    Q.StepLive(w.queue, TaskQueue.Add(Send(id, Lookup(w.events, id)), true));
    var w' := Resend(w, id, now);
    assert w'.queue.pending[i] == w.queue.pending[i];
    Q.StepLive(w'.queue, TaskQueue.Fail(i, closed));
  }

  lemma EndedStages(q: TaskQueue.Queue<Job>, i: nat)
    requires StagesOk(q) && i < |q.pending|
    ensures StagesOk(TaskQueue.Ended(q, i))
  {
  }

  lemma QueueStages(q: TaskQueue.Queue<Job>, s: TaskQueue.Step<Job>)
    requires StagesOk(q) && TaskQueue.Enabled(q, s)
    requires s.Progress? ==> q.pending[s.i].stage < READING_DONE
    ensures StagesOk(TaskQueue.Next(q, s))
    ensures !s.SetEndPoint? ==> TaskQueue.Next(q, s).endpoint == q.endpoint
  {
    if !s.Add? && !s.SetEndPoint? {
      EndedStages(q, s.i);
    }
  }

  lemma FailedStages(w: World, i: nat, now: uint64, closed: set<nat>)
    requires StagesOk(w.queue)
    requires i < |w.queue.pending| && w.queue.pending[i].Working? && w.queue.pending[i].task.Send?
    ensures var q := SendFailed(w, i, now, closed).queue; StagesOk(q) && q.endpoint == w.queue.endpoint
  {
    var id := w.queue.pending[i].task.id;
    QueueStages(w.queue, TaskQueue.Add(Send(id, Lookup(w.events, id)), true));
    var w' := Resend(w, id, now);
    assert w'.queue.pending[i] == w.queue.pending[i];
    QueueStages(w'.queue, TaskQueue.Fail(i, closed));
  }

  lemma StepStages(w: World, s: Step)
    requires StagesOk(w.queue) && Enabled(w, s)
    ensures StagesOk(Next(w, s).queue)
    ensures !(s.Queue? && s.s.SetEndPoint?) ==> Next(w, s).queue.endpoint == w.queue.endpoint
  {
    match s
    case AddEvent(id, event) => QueueStages(w.queue, TaskQueue.Add(Send(id, event), false));
    case AddBarrier(event) => QueueStages(w.queue, TaskQueue.Add(Barrier(event), false));
    case Queue(s') => QueueStages(w.queue, s');
    case BarrierRun(i) => QueueStages(w.queue, TaskQueue.Succeed(i));
    case DoneRead(i) => QueueStages(w.queue, TaskQueue.Succeed(i));
    case Written(i, _, now, closed) =>
      QueueStages(w.queue, TaskQueue.Progress(i));
      FailedStages(w, i, now, closed);
    case HeaderRead(i, _, now, closed) =>
      QueueStages(w.queue, TaskQueue.Progress(i));
      QueueStages(w.queue, TaskQueue.Succeed(i));
      FailedStages(w, i, now, closed);
    case ProviderDone(i, _, now, closed) =>
      QueueStages(w.queue, TaskQueue.Progress(i));
      FailedStages(w, i, now, closed);
  }

  lemma StepLive(w: World, s: Step)
    requires Live(w) && Enabled(w, s) && !Reuses(w, s)
    ensures Live(Next(w, s))
  {
    StepKeepsIff(w, s);
    StepQueueLive(w, s);
    StepStages(w, s);
  }

  lemma {:induction false} RunLive(w: World, steps: seq<Step>)
    requires Live(w) && IsRun(w, steps) && NeverReuses(w, steps)
    ensures Live(Run(w, steps))
    decreases |steps|
  {
    if steps != [] {
      StepLive(w, steps[0]);
      RunLive(Next(w, steps[0]), steps[1..]);
    }
  }

  // ---- Continuations ----

  /** A step by which nothing is added, nothing fails and the endpoint stays. */
  ghost predicate Fortunate(s: Step)
  {
    match s
    case AddEvent(_, _) => false
    case AddBarrier(_) => false
    case Queue(s') => Q.Fortunate(s')
    case Written(_, ok, _, _) => ok
    case HeaderRead(_, answer, _, _) => !answer.Broken?
    case ProviderDone(_, ok, _, _) => ok
    case _ => true
  }

  ghost predicate AllFortunate(steps: seq<Step>)
  {
    forall i :: 0 <= i < |steps| ==> Fortunate(steps[i])
  }

  /** A continuation in which nothing fails. */
  ghost predicate Leads(w: World, steps: seq<Step>, r: World)
  {
    && IsRun(w, steps) && AllFortunate(steps) && Run(w, steps) == r
    && Live(r) && r.queue.endpoint == w.queue.endpoint
  }

  lemma Append(w: World, xs: seq<Step>, m: World, ys: seq<Step>, r: World)
    requires Leads(w, xs, m) && Leads(m, ys, r)
    ensures Leads(w, xs + ys, r)
  {
    RunAppend(w, xs, ys);
  }

  lemma {:induction false} RunAppend(w: World, xs: seq<Step>, ys: seq<Step>)
    requires IsRun(w, xs) && IsRun(Run(w, xs), ys)
    ensures IsRun(w, xs + ys) && Run(w, xs + ys) == Run(Run(w, xs), ys)
    decreases |xs|
  {
    if xs == [] {
      assert xs + ys == ys;
    } else {
      assert (xs + ys)[1..] == xs[1..] + ys;
      RunAppend(Next(w, xs[0]), xs[1..], ys);
    }
  }

  lemma One(w: World, s: Step)
    requires Live(w) && Enabled(w, s) && Fortunate(s)
    ensures Leads(w, [s], Next(w, s))
  {
    StepLive(w, s);
    StepStages(w, s);
    assert [s][1..] == [];
    assert IsRun(Next(w, s), []) && Run(Next(w, s), []) == Next(w, s);
  }

  /** Steps of the task queue alone. */
  lemma {:induction false} Lift(w: World, qs: seq<TaskQueue.Step<Job>>) returns (steps: seq<Step>)
    requires Live(w) && TaskQueue.IsRun(w.queue, qs) && Q.AllInternal(qs)
    ensures Leads(w, steps, w.(queue := TaskQueue.Run(w.queue, qs)))
    decreases |qs|
  {
    steps := [];
    if qs != [] {
      One(w, Queue(qs[0]));
      var w1 := Next(w, Queue(qs[0]));
      var rest := Lift(w1, qs[1..]);
      Append(w, [Queue(qs[0])], w1, rest, w.(queue := TaskQueue.Run(w.queue, qs)));
      steps := [Queue(qs[0])] + rest;
    }
  }

  /** A running task is done: it has settled its event, and the front task has its client. */
  ghost predicate Finished(w: World, i: nat, r: World)
    requires i < |w.queue.pending| && w.queue.pending[i].Working?
  {
    && (w.queue.tasks != [] ==> r.queue.tasks == w.queue.tasks[1..])
    && (var c := w.queue.pending[i]; c.task.Send? && c.stage < READING_DONE ==> c.task.id !in r.events)
  }

  lemma FinishLast(w: World, i: nat) returns (steps: seq<Step>, r: World)
    requires Live(w) && i < |w.queue.pending| && w.queue.pending[i].Working?
    requires w.queue.pending[i].task.Barrier? || w.queue.pending[i].stage in {READING_HEADER, READING_DONE}
    ensures Leads(w, steps, r) && Finished(w, i, r) && r.events.Keys <= w.events.Keys
  {
    var c := w.queue.pending[i];
    var s := if c.task.Barrier? then BarrierRun(i)
             else if c.stage == READING_HEADER then HeaderRead(i, Done, 0, {}) else DoneRead(i);
    One(w, s);
    steps, r := [s], Next(w, s);
  }

  /** A handler that writes or whose provider works reaches its next suspension. */
  lemma Proceed(w: World, i: nat) returns (s: Step, m: World)
    requires Live(w) && (Sending(w.queue, i, WRITING) || Sending(w.queue, i, IN_PROVIDER))
    ensures Leads(w, [s], m) && m.queue.tasks == w.queue.tasks
    ensures var c := w.queue.pending[i];
      && i < |m.queue.pending| && m.queue.pending[i] == c.(stage := c.stage + 1)
      && (c.stage == IN_PROVIDER ==> m.events == w.events - {c.task.id})
  {
    s := if w.queue.pending[i].stage == WRITING then Written(i, true, 0, {}) else ProviderDone(i, true, 0, {});
    One(w, s);
    m := Next(w, s);
  }

  lemma Finish(w: World, i: nat) returns (steps: seq<Step>, r: World)
    requires Live(w) && i < |w.queue.pending| && w.queue.pending[i].Working?
    ensures Leads(w, steps, r) && Finished(w, i, r)
  {
    var c := w.queue.pending[i];
    assert StageOk(c);
    if c.task.Send? && (c.stage == WRITING || c.stage == IN_PROVIDER) {
      var s, m := Proceed(w, i);
      var rest;
      rest, r := FinishLast(m, i);
      steps := [s] + rest;
      Append(w, [s], m, rest, r);
    } else {
      steps, r := FinishLast(w, i);
    }
  }

  /** The front task can be started. */
  lemma Shift(w: World) returns (steps: seq<Step>, r: World)
    requires Live(w) && w.queue.endpoint && w.queue.tasks != []
    ensures Leads(w, steps, r) && r.queue.tasks == w.queue.tasks[1..]
  {
    var qs, i := Q.Advance(w.queue);
    steps := Lift(w, qs);
    r := w.(queue := TaskQueue.Run(w.queue, qs));
    if !Q.Shifted(w.queue, r.queue) {
      var m, more := r, [];
      more, r := Finish(m, i);
      Append(w, steps, m, more, r);
      steps := steps + more;
    }
  }

  lemma {:induction false} FindInFlight(pending: seq<TaskQueue.Coroutine<Job>>, job: Job) returns (i: nat)
    requires job in TaskQueue.InFlight(pending, UNSETTLED)
    ensures i < |pending| && TaskQueue.Counts(pending[i], UNSETTLED) && pending[i].task == job
    decreases |pending|
  {
    if TaskQueue.Counts(pending[0], UNSETTLED) && pending[0].task == job {
      i := 0;
    } else {
      i := FindInFlight(pending[1..], job);
      i := i + 1;
    }
  }

  /** From any live state an event can be brought out of the table: its task moves up in the
      queue as the tasks before it are started, starts itself, and is answered. */
  lemma {:induction false} Settle(w: World, id: uint64) returns (steps: seq<Step>, r: World)
    requires Live(w) && w.queue.endpoint
    ensures Leads(w, steps, r) && id !in r.events
    decreases |w.queue.tasks|
  {
    if id !in w.events {
      steps, r := [], w;
    } else {
      var job := Send(id, w.events[id]);
      assert TaskQueue.Outstanding(w.queue, UNSETTLED)[job] == 1;
      if job in w.queue.tasks {
        var first, m := Shift(w);
        var rest;
        rest, r := Settle(m, id);
        Append(w, first, m, rest, r);
        steps := first + rest;
      } else {
        var i := FindInFlight(w.queue.pending, job);
        var first := [];
        var m := w;
        if w.queue.pending[i].Handle? {
          first := [Queue(TaskQueue.StartHandle(i))];
          One(w, Queue(TaskQueue.StartHandle(i)));
          m := Next(w, Queue(TaskQueue.StartHandle(i)));
        }
        var rest;
        rest, r := Finish(m, i);
        Append(w, first, m, rest, r);
        steps := first + rest;
      }
    }
  }

  /** In every run without a reused id, with an endpoint and at least one client allowed: however
      many sends and connects have failed, if nothing fails from now on, every event in the table
      can still be confirmed by the peer. */
  lemma EventNeverStranded(maxClients: nat, endpoint: bool, steps: seq<Step>, id: uint64)
    requires maxClients >= 1
    requires IsRun(Init(maxClients, endpoint), steps) && NeverReuses(Init(maxClients, endpoint), steps)
    requires Run(Init(maxClients, endpoint), steps).queue.endpoint
    ensures var w := Run(Init(maxClients, endpoint), steps);
      exists more: seq<Step> :: IsRun(w, more) && AllFortunate(more) && id !in Run(w, more).events
  {
    RunLive(Init(maxClients, endpoint), steps);
    var more, r := Settle(Run(Init(maxClients, endpoint), steps), id);
  }
}
