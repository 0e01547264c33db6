/** The event queue: each event is sent by a task that re-queues itself until the peer has
    confirmed the event or the event is too old. */
module EventQueue {
  import opened TaskQueue

  type uint64 = x: int | 0 <= x < 0x1_0000_0000_0000_0000

  datatype Job = Send(id: uint64, event: string) | Barrier(event: string)

  /** Where `sendEventHandler` can be suspended. In the last stage the event is already settled. */
  const WRITING: nat := 0
  const READING_HEADER: nat := 1
  const IN_PROVIDER: nat := 2
  const READING_DONE: nat := 3

  const UNSETTLED: Span := UpTo(READING_DONE)

  datatype World = World(queue: Queue<Job>, events: map<uint64, string>)

  // ---- The age test ----

  const TIME_TO_LIVE := 60

  /** Division as in C++, towards zero. */
  function Quotient(a: int, b: int): int
    requires b > 0
  {
    if a >= 0 then a / b else -((-a) / b)
  }

  /** `now - id` is taken as a 64-bit signed number of milliseconds and cut to seconds. */
  function Age(now: uint64, id: uint64): int
  {
    var d := (now - id) % 0x1_0000_0000_0000_0000;
    Quotient(if d < 0x8000_0000_0000_0000 then d else d - 0x1_0000_0000_0000_0000, 1000)
  }

  predicate Expired(now: uint64, id: uint64)
  {
    Age(now, id) > TIME_TO_LIVE
  }

  /** Ids are clock readings in microseconds, so an event is given up 61 milliseconds after its
      creation, not 61 seconds. The difference is one of 64 bits with a sign: half a range later
      the id counts as one from the future, and those never expire. */
  lemma ExpiredIff(now: uint64, id: uint64)
    ensures var elapsed := if now >= id then now - id else now - id + 0x1_0000_0000_0000_0000;
      Expired(now, id) <==> 61_000 <= elapsed < 0x8000_0000_0000_0000
  {
    if now >= id {
      assert (now - id) % 0x1_0000_0000_0000_0000 == now - id;
    } else {
      assert (now - id) % 0x1_0000_0000_0000_0000 == now - id + 0x1_0000_0000_0000_0000;
    }
  }

  /** One second after its creation an event is already given up. */
  lemma ExpiredAfterOneSecond()
    ensures Expired(1_700_000_001_000_000, 1_700_000_000_000_000)
  {
    ExpiredIff(1_700_000_001_000_000, 1_700_000_000_000_000);
  }

  // ---- Steps ----

  datatype Answer = Broken | Done | Request

  datatype Step =
    | AddEvent(id: uint64, event: string)
    | AddBarrier(event: string)
    | Queue(s: TaskQueue.Step<Job>)                      // the task queue's own steps
    | BarrierRun(i: nat)
    | Written(i: nat, ok: bool, now: uint64, closed: set<nat>)
    | HeaderRead(i: nat, answer: Answer, now: uint64, closed: set<nat>)
    | ProviderDone(i: nat, ok: bool, now: uint64, closed: set<nat>)
    | DoneRead(i: nat)

  predicate Sending(q: TaskQueue.Queue<Job>, i: nat, stage: nat)
  {
    i < |q.pending| && q.pending[i].Working? && q.pending[i].task.Send? && q.pending[i].stage == stage
  }

  predicate Enabled(w: World, s: Step)
  {
    match s
    case AddEvent(_, _) => true
    case AddBarrier(_) => true
    case Queue(s') => Internal(s') && TaskQueue.Enabled(w.queue, s')
    case BarrierRun(i) => i < |w.queue.pending| && w.queue.pending[i].Working? && w.queue.pending[i].task.Barrier?
    case Written(i, _, _, _) => Sending(w.queue, i, WRITING)
    case HeaderRead(i, _, _, _) => Sending(w.queue, i, READING_HEADER)
    case ProviderDone(i, _, _, _) => Sending(w.queue, i, IN_PROVIDER)
    case DoneRead(i) => Sending(w.queue, i, READING_DONE)
  }

  /** `events[id]` inserts an empty string if there is no such event. */
  function Lookup(events: map<uint64, string>, id: uint64): string
  {
    if id in events then events[id] else ""
  }

  function Resend(w: World, id: uint64, now: uint64): World
  {
    if Expired(now, id) then w.(events := w.events - {id})
    else w.(events := w.events[id := Lookup(w.events, id)],
            queue := AddTask(w.queue, Send(id, Lookup(w.events, id)), true))
  }

  /** The handler re-queues its event and returns an error. */
  function SendFailed(w: World, i: nat, now: uint64, closed: set<nat>): World
    requires i < |w.queue.pending| && w.queue.pending[i].Working? && w.queue.pending[i].task.Send?
  {
    var w' := Resend(w, w.queue.pending[i].task.id, now);
    w'.(queue := Failed(w'.queue, i, closed))
  }

  function Next(w: World, s: Step): World
    requires Enabled(w, s)
  {
    match s
    case AddEvent(id, event) =>
      World(AddTask(w.queue, Send(id, event), false), w.events[id := event])
    case AddBarrier(event) =>
      w.(queue := AddTask(w.queue, Barrier(event), false))
    case Queue(s') =>
      w.(queue := TaskQueue.Next(w.queue, s'))
    case BarrierRun(i) =>
      w.(queue := Succeeded(w.queue, i))
    case Written(i, ok, now, closed) =>
      if ok then w.(queue := TaskQueue.Next(w.queue, Progress(i))) else SendFailed(w, i, now, closed)
    case HeaderRead(i, answer, now, closed) =>
      if answer.Broken? then SendFailed(w, i, now, closed)
      else if answer.Done? then w.(events := w.events - {w.queue.pending[i].task.id}, queue := Succeeded(w.queue, i))
      else w.(queue := TaskQueue.Next(w.queue, Progress(i)))
    case ProviderDone(i, ok, now, closed) =>
      if !ok then SendFailed(w, i, now, closed)
      else w.(events := w.events - {w.queue.pending[i].task.id}, queue := TaskQueue.Next(w.queue, Progress(i)))
    case DoneRead(i) =>
      w.(queue := Succeeded(w.queue, i))
  }

  // ---- Every event has exactly one task that still has to settle it ----

  ghost predicate Accounted(w: World)
  {
    forall id, event :: Outstanding(w.queue, UNSETTLED)[Send(id, event)] ==
      if id in w.events && w.events[id] == event then 1 else 0
  }

  /** A handler that has not settled its event finds it, with the text it is sending. */
  lemma HandlerFindsEvent(w: World, i: nat)
    requires Accounted(w)
    requires i < |w.queue.pending| && w.queue.pending[i].Working? && w.queue.pending[i].task.Send?
    requires w.queue.pending[i].stage < READING_DONE
    ensures var job := w.queue.pending[i].task; job.id in w.events && w.events[job.id] == job.event
  {
    var job := w.queue.pending[i].task;
    EndedOutstanding(w.queue, i, UNSETTLED);
    assert Outstanding(w.queue, UNSETTLED)[job] >= 1;
    assert job == Send(job.id, job.event);
  }

  /** An event added under an id that is still in the table shares its entry with the other. */
  predicate Reuses(w: World, s: Step)
  {
    s.AddEvent? && s.id in w.events
  }

  lemma AddKeepsIff(w: World, id: uint64, event: string)
    requires Accounted(w)
    ensures Accounted(Next(w, AddEvent(id, event))) <==> id !in w.events
  {
    var r := Next(w, AddEvent(id, event));
    AddOutstanding(w.queue, Send(id, event), false, UNSETTLED);
    if id in w.events {
      var there := Send(id, w.events[id]);
      assert Outstanding(w.queue, UNSETTLED)[there] == 1;
      assert Outstanding(r.queue, UNSETTLED)[there] == if w.events[id] == event then 2 else 1;
    }
  }

  lemma QuietKeeps(w: World, s: Step)
    requires Accounted(w) && Enabled(w, s) && (s.AddBarrier? || s.Queue? || s.BarrierRun? || s.DoneRead?)
    ensures Accounted(Next(w, s))
  {
    match s
    case AddBarrier(event) => AddOutstanding(w.queue, Barrier(event), false, UNSETTLED);
    case Queue(s') => InternalOutstanding(w.queue, s', UNSETTLED);
    case BarrierRun(i) => SucceedOutstanding(w.queue, i, UNSETTLED);
    case DoneRead(i) => SucceedOutstanding(w.queue, i, UNSETTLED);
  }

  lemma FailKeeps(w: World, i: nat, now: uint64, closed: set<nat>)
    requires Accounted(w)
    requires i < |w.queue.pending| && w.queue.pending[i].Working? && w.queue.pending[i].task.Send?
    requires w.queue.pending[i].stage < READING_DONE
    ensures Accounted(SendFailed(w, i, now, closed))
    ensures !Expired(now, w.queue.pending[i].task.id) ==> SendFailed(w, i, now, closed).events == w.events
  {
    var job := w.queue.pending[i].task;
    HandlerFindsEvent(w, i);
    var w' := Resend(w, job.id, now);
    AddOutstanding(w.queue, job, true, UNSETTLED);
    assert w'.queue.pending[i] == w.queue.pending[i];
    FailOutstanding(w'.queue, i, closed, UNSETTLED);
    SettleCounts(w, w', SendFailed(w, i, now, closed), job);
  }

  /** A failed send within the time to live goes to the front of the queue, with its event. */
  lemma RetriedFirst(w: World, i: nat, now: uint64, closed: set<nat>)
    requires Accounted(w)
    requires i < |w.queue.pending| && w.queue.pending[i].Working? && w.queue.pending[i].task.Send?
    requires w.queue.pending[i].stage < READING_DONE && !Expired(now, w.queue.pending[i].task.id)
    ensures SendFailed(w, i, now, closed).queue.tasks == [w.queue.pending[i].task] + w.queue.tasks
  {
    HandlerFindsEvent(w, i);
  }

  /** New events and barriers queue up behind everything that waits, so a barrier is passed only
      after the events before it have been taken up. */
  lemma QueuesBehind(w: World, s: Step)
    requires s.AddEvent? || s.AddBarrier?
    ensures Next(w, s).queue.tasks ==
      w.queue.tasks + [if s.AddEvent? then Send(s.id, s.event) else Barrier(s.event)]
  {
  }

  /** As long as nothing fails, a handler goes through its suspensions in order, on the same
      client, and ends after the final word of the peer: right behind the header if that is the
      final word, and otherwise once the provider is through and the peer has confirmed. */
  lemma HandlerProceeds(w: World, s: Step)
    requires Enabled(w, s) && (s.Written? || s.HeaderRead? || s.ProviderDone? || s.DoneRead?)
    ensures var c := w.queue.pending[s.i];
      var goesOn := (s.Written? && s.ok) || (s.HeaderRead? && s.answer.Request?) || (s.ProviderDone? && s.ok);
      var ends := (s.HeaderRead? && s.answer.Done?) || s.DoneRead?;
      && (goesOn ==> Next(w, s).queue == w.queue.(pending := w.queue.pending[s.i := c.(stage := c.stage + 1)]))
      && (!goesOn ==> Next(w, s).queue.finished == w.queue.finished + [c.task])
      && (!goesOn && !ends ==> Next(w, s).queue.pending[|Next(w, s).queue.pending| - 1].Process?)
  {
  }

  /** The counting behind a failed or successful send. */
  lemma SettleCounts(w: World, w': World, r: World, job: Job)
    requires Accounted(w) && job.Send? && job.id in w.events && w.events[job.id] == job.event
    requires Outstanding(r.queue, UNSETTLED) + multiset{job} == Outstanding(w'.queue, UNSETTLED)
    requires (r.events == w.events &&
      Outstanding(w'.queue, UNSETTLED) == Outstanding(w.queue, UNSETTLED) + multiset{job})
      || (r.events == w.events - {job.id} && Outstanding(w'.queue, UNSETTLED) == Outstanding(w.queue, UNSETTLED))
    ensures Accounted(r)
  {
    forall id, event
      ensures Outstanding(r.queue, UNSETTLED)[Send(id, event)] ==
        if id in r.events && r.events[id] == event then 1 else 0
    {
      var j := Send(id, event);
      assert (Outstanding(r.queue, UNSETTLED) + multiset{job})[j] == Outstanding(w'.queue, UNSETTLED)[j];
    }
  }

  lemma ProgressKeeps(w: World, i: nat, stage: nat)
    requires Accounted(w) && Sending(w.queue, i, stage) && stage + 1 < READING_DONE
    ensures Accounted(w.(queue := TaskQueue.Next(w.queue, Progress(i))))
  {
    var c := w.queue.pending[i].(stage := stage + 1);
    var q := w.queue.(pending := w.queue.pending[i := c]);
    ReplaceOutstanding(w.queue, i, c, UNSETTLED);
    Cancel(Outstanding(q, UNSETTLED), Outstanding(w.queue, UNSETTLED), Carried(c, UNSETTLED));
    assert TaskQueue.Next(w.queue, Progress(i)) == q;
  }

  lemma DoneKeeps(w: World, i: nat)
    requires Accounted(w) && Sending(w.queue, i, READING_HEADER)
    ensures Accounted(w.(events := w.events - {w.queue.pending[i].task.id}, queue := Succeeded(w.queue, i)))
  {
    HandlerFindsEvent(w, i);
    SucceedOutstanding(w.queue, i, UNSETTLED);
    SettleCounts(w, w,
      w.(events := w.events - {w.queue.pending[i].task.id}, queue := Succeeded(w.queue, i)), w.queue.pending[i].task);
  }

  lemma ProvidedKeeps(w: World, i: nat)
    requires Accounted(w) && Sending(w.queue, i, IN_PROVIDER)
    ensures Accounted(w.(events := w.events - {w.queue.pending[i].task.id},
      queue := TaskQueue.Next(w.queue, Progress(i))))
  {
    HandlerFindsEvent(w, i);
    var job := w.queue.pending[i].task;
    var c := w.queue.pending[i].(stage := READING_DONE);
    var q := w.queue.(pending := w.queue.pending[i := c]);
    ReplaceOutstanding(w.queue, i, c, UNSETTLED);
    assert TaskQueue.Next(w.queue, Progress(i)) == q;
    SettleCounts(w, w, w.(events := w.events - {job.id}, queue := q), job);
  }

  /** A step breaks the accounts exactly if it adds an event under an id still in the table. */
  lemma StepKeepsIff(w: World, s: Step)
    requires Accounted(w) && Enabled(w, s)
    ensures Accounted(Next(w, s)) <==> !Reuses(w, s)
  {
    match s
    case AddEvent(id, event) => AddKeepsIff(w, id, event);
    case Written(i, ok, now, closed) =>
      if ok { ProgressKeeps(w, i, WRITING); } else { FailKeeps(w, i, now, closed); }
    case HeaderRead(i, answer, now, closed) =>
      if answer.Broken? { FailKeeps(w, i, now, closed); }
      else if answer.Done? { DoneKeeps(w, i); }
      else { ProgressKeeps(w, i, READING_HEADER); }
    case ProviderDone(i, ok, now, closed) =>
      if ok { ProvidedKeeps(w, i); } else { FailKeeps(w, i, now, closed); }
    case _ => QuietKeeps(w, s);
  }

  /** The task has failed and its event is past its time. */
  predicate GivesUp(w: World, s: Step)
    requires Enabled(w, s)
  {
    && ((s.Written? && !s.ok) || (s.HeaderRead? && s.answer.Broken?) || (s.ProviderDone? && !s.ok))
    && Expired(s.now, w.queue.pending[s.i].task.id)
  }

  predicate Confirms(w: World, s: Step)
    requires Enabled(w, s)
  {
    (s.HeaderRead? && s.answer.Done?) || (s.ProviderDone? && s.ok)
  }

  /** An event leaves the table exactly when its own task is answered with Done, its provider
      succeeds, or its task fails past the time to live; its text never changes. */
  lemma LeavesIff(w: World, s: Step, id: uint64)
    requires Accounted(w) && Enabled(w, s) && !Reuses(w, s) && id in w.events
    ensures id !in Next(w, s).events <==> (GivesUp(w, s) || Confirms(w, s)) && w.queue.pending[s.i].task.id == id
    ensures id in Next(w, s).events ==> Next(w, s).events[id] == w.events[id]
  {
    match s
    case Written(i, ok, now, closed) => HandlerFindsEvent(w, i);
    case HeaderRead(i, answer, now, closed) => HandlerFindsEvent(w, i);
    case ProviderDone(i, ok, now, closed) => HandlerFindsEvent(w, i);
    case _ =>
  }

  // ---- Every run ----

  predicate IsRun(w: World, steps: seq<Step>)
    decreases |steps|
  {
    steps == [] || (Enabled(w, steps[0]) && IsRun(Next(w, steps[0]), steps[1..]))
  }

  function Run(w: World, steps: seq<Step>): World
    requires IsRun(w, steps)
    decreases |steps|
  {
    if steps == [] then w else Run(Next(w, steps[0]), steps[1..])
  }

  function Init(maxClients: nat, endpoint: bool): World
  {
    World(New(maxClients, endpoint), map[])
  }

  /** No step of the run adds an event under an id that is in the table at that time. */
  predicate NeverReuses(w: World, steps: seq<Step>)
    requires IsRun(w, steps)
    decreases |steps|
  {
    steps == [] || (!Reuses(w, steps[0]) && NeverReuses(Next(w, steps[0]), steps[1..]))
  }

  /** The accounts are right in every state of the run. */
  ghost predicate AlwaysAccounted(w: World, steps: seq<Step>)
    requires IsRun(w, steps)
    decreases |steps|
  {
    Accounted(w) && (steps == [] || AlwaysAccounted(Next(w, steps[0]), steps[1..]))
  }

  lemma {:induction false} RunKeepsIff(w: World, steps: seq<Step>)
    requires Accounted(w) && IsRun(w, steps)
    ensures AlwaysAccounted(w, steps) <==> NeverReuses(w, steps)
    ensures NeverReuses(w, steps) ==> Accounted(Run(w, steps))
    decreases |steps|
  {
    if steps != [] {
      StepKeepsIff(w, steps[0]);
      if Accounted(Next(w, steps[0])) {
        RunKeepsIff(Next(w, steps[0]), steps[1..]);
      }
    }
  }

  /** Throughout a run an event in the table has exactly one queued or running task that has not
      settled it yet, with the event's own text, and an id not in the table has none: exactly if
      no event was added under an id that was in the table. */
  lemma EventsAccountedIff(maxClients: nat, endpoint: bool, steps: seq<Step>)
    requires IsRun(Init(maxClients, endpoint), steps)
    ensures AlwaysAccounted(Init(maxClients, endpoint), steps) <==> NeverReuses(Init(maxClients, endpoint), steps)
    ensures NeverReuses(Init(maxClients, endpoint), steps) ==> Accounted(Run(Init(maxClients, endpoint), steps))
  {
    RunKeepsIff(Init(maxClients, endpoint), steps);
  }

  /** Two events in the same microsecond: the second takes the entry of the first. */
  lemma SharedIdLosesAnEvent(id: uint64, first: string, second: string)
    requires first != second
    ensures var w0 := Init(1, true);
      var w1 := Next(w0, AddEvent(id, first));
      var w2 := Next(w1, AddEvent(id, second));
      !Accounted(w2) && w2.events == map[id := second] && w2.queue.tasks == [Send(id, first), Send(id, second)]
  {
    var w0 := Init(1, true);
    var w1 := Next(w0, AddEvent(id, first));
    AddKeepsIff(w0, id, first);
    AddKeepsIff(w1, id, second);
  }

  /** In every such run, re-sending looks up an event that is there. */
  lemma ResendAlwaysFinds(maxClients: nat, endpoint: bool, steps: seq<Step>, i: nat)
    requires IsRun(Init(maxClients, endpoint), steps) && NeverReuses(Init(maxClients, endpoint), steps)
    requires var q := Run(Init(maxClients, endpoint), steps).queue;
      Sending(q, i, WRITING) || Sending(q, i, READING_HEADER) || Sending(q, i, IN_PROVIDER)
    ensures var w := Run(Init(maxClients, endpoint), steps);
      var job := w.queue.pending[i].task;
      job.id in w.events && w.events[job.id] == job.event
  {
    EventsAccountedIff(maxClients, endpoint, steps);
    HandlerFindsEvent(Run(Init(maxClients, endpoint), steps), i);
  }
}
