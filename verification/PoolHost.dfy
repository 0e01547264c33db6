/** The connection pool's bookkeeping for one endpoint, as a machine whose steps are the
    stretches of code between two suspensions. */
module PoolHost {
  import opened Options

  type Time = int
  type Conn = nat
  type Task = nat

  datatype IdleEntry = IdleEntry(conn: Conn, lastUsed: Time)

  /** `HostState`; a waiter is identified by the acquire call whose timer it is. */
  datatype Host = Host(active: nat, idle: seq<IdleEntry>, waiters: seq<Task>)

  const NEW_HOST := Host(0, [], [])

  datatype Config = Config(maxPerHost: nat, idleTimeout: int)

  /** `extractIdleConnection`: pop from the back until an entry is young enough. */
  function Extract(idle: seq<IdleEntry>, now: Time, timeout: int): (r: (Option<Conn>, seq<IdleEntry>))
    ensures r.0.None? ==> r.1 == []
    decreases |idle|
  {
    if idle == [] then (None, [])
    else
      var entry := idle[|idle| - 1];
      if now - entry.lastUsed <= timeout then (Some(entry.conn), idle[..|idle| - 1])
      else Extract(idle[..|idle| - 1], now, timeout)
  }

  /** `notifyWaiter`. */
  function PopWaiter(h: Host): Host
  {
    if h.waiters == [] then h else h.(waiters := h.waiters[1..])
  }

  /** `returnConnection`; the decrement is guarded in the source. */
  function Returned(h: Host, kept: Option<IdleEntry>): Host
  {
    PopWaiter(h.(active := if h.active > 0 then h.active - 1 else 0,
                 idle := if kept.Some? then h.idle + [kept.value] else h.idle))
  }

  // ---- The coroutines around it ----

  /** Where a suspended `acquire` stands. A queued waiter's timer may fire; its completion is
      then pending, and cancelling the timer no longer reaches it. */
  datatype Phase = Connecting | Queued | Fired | Notified

  datatype Acquire = Acquire(start: Time, phase: Phase)

  /** `leases` are the live leases, named by their connection, with their validity flag. */
  datatype Pool = Pool(config: Config, clock: Time, host: Host, leases: map<Conn, bool>, acquires: map<Task, Acquire>,
                       nextConn: Conn, nextTask: Task)
  {
    ghost function In(phase: Phase): set<Task>
    {
      set t | t in acquires && acquires[t].phase == phase
    }

    /** Slots in which a connection could be handed out: idle ones and ones never opened. */
    function Free(): int
    {
      config.maxPerHost - host.active
    }

    /** `activeCount` is exact, and never exceeds the limit together with the idle ones. */
    ghost predicate Conserved()
    {
      && host.active == |leases| + |In(Connecting)|
      && host.active + |host.idle| <= config.maxPerHost
    }

    /** A connection is idle once, or leased, or neither. */
    ghost predicate Exclusive()
    {
      && (forall i, j :: 0 <= i < j < |host.idle| ==> host.idle[i].conn != host.idle[j].conn)
      && (forall i :: 0 <= i < |host.idle| ==> host.idle[i].conn !in leases && host.idle[i].conn < nextConn)
      && (forall c :: c in leases ==> c < nextConn)
    }

    ghost predicate IdleOrdered()
    {
      && Sorted(host.idle)
      && (forall i :: 0 <= i < |host.idle| ==> host.idle[i].lastUsed <= clock)
      && (forall t :: t in acquires ==> acquires[t].start <= clock && t < nextTask)
    }

    /** The queue holds suspended waiters, each once, and every waiter not yet fired or notified. */
    ghost predicate QueueOk()
    {
      && Distinct(host.waiters)
      && (forall i :: 0 <= i < |host.waiters| ==>
            host.waiters[i] in acquires && acquires[host.waiters[i]].phase in {Queued, Fired})
      && (forall t :: t in acquires && acquires[t].phase == Queued ==> t in host.waiters)
    }

    ghost predicate Inv()
    {
      Conserved() && Exclusive() && IdleOrdered() && QueueOk()
    }

    /** While somebody waits, every free slot is already promised to a woken waiter. */
    ghost predicate NoLostWakeUp()
    {
      host.waiters != [] ==> Free() <= |In(Notified)|
    }
  }

  ghost predicate Distinct(ts: seq<Task>)
  {
    forall i, j :: 0 <= i < j < |ts| ==> ts[i] != ts[j]
  }

  ghost predicate Sorted(idle: seq<IdleEntry>)
  {
    forall i, j :: 0 <= i < j < |idle| ==> idle[i].lastUsed <= idle[j].lastUsed
  }

  datatype Outcome = Reuse(conn: Conn) | Connect | Wait

  /** One turn of the loop in `acquire`, as far as the host's bookkeeping goes. */
  function Turn(h: Host, config: Config, t: Task, start: Time): (Host, Outcome)
  {
    var (found, idle) := Extract(h.idle, start, config.idleTimeout);
    if found.Some? then (h.(active := h.active + 1, idle := idle), Reuse(found.value))
    else if h.active < config.maxPerHost then (h.(active := h.active + 1, idle := idle), Connect)
    else (h.(idle := idle, waiters := h.waiters + [t]), Wait)
  }

  /** The turn made by a task that is not suspended. */
  function Attempt(p: Pool, t: Task, start: Time): Pool
  {
    var (h, outcome) := Turn(p.host, p.config, t, start);
    match outcome
    case Reuse(c) => p.(host := h, leases := p.leases[c := true], acquires := p.acquires - {t})
    case Connect => p.(host := h, acquires := p.acquires[t := Acquire(start, Connecting)])
    case Wait => p.(host := h, acquires := p.acquires[t := Acquire(start, Queued)])
  }

  /** Waking cancels the front waiter's timer, which has no effect if it has fired already. */
  function Wake(p: Pool): map<Task, Acquire>
  {
    if p.host.waiters != [] && p.host.waiters[0] in p.acquires && p.acquires[p.host.waiters[0]].phase == Queued
    then p.acquires[p.host.waiters[0] := p.acquires[p.host.waiters[0]].(phase := Notified)]
    else p.acquires
  }

  function Return(p: Pool, c: Conn, kept: bool): Pool
  {
    p.(host := Returned(p.host, if kept then Some(IdleEntry(c, p.clock)) else None),
      acquires := Wake(p), leases := p.leases - {c})
  }

  function Without(ts: seq<Task>, t: Task): seq<Task>
  {
    if ts == [] then [] else (if ts[0] == t then [] else [ts[0]]) + Without(ts[1..], t)
  }

  datatype Step =
    | Start                   // acquire() is called and runs up to its first suspension
    | Connected(t: Task)      // connect() succeeded
    | ConnectFailed(t: Task)
    | Fire(t: Task)           // a waiter's timer expires; its completion is queued
    | TimedOut(t: Task)       // ... and resumes the waiter
    | Woken(t: Task)          // a notified waiter resumes and tries again
    | MarkInvalid(c: Conn)
    | Release(c: Conn)        // release(), the destructor, or being assigned to
    | ReleaseClient(c: Conn)
    | Tick(d: nat)

  predicate Enabled(p: Pool, s: Step)
  {
    match s
    case Start => true
    case Connected(t) => t in p.acquires && p.acquires[t].phase == Connecting
    case ConnectFailed(t) => t in p.acquires && p.acquires[t].phase == Connecting
    case Fire(t) => t in p.acquires && p.acquires[t].phase == Queued
    case TimedOut(t) => t in p.acquires && p.acquires[t].phase == Fired
    case Woken(t) => t in p.acquires && p.acquires[t].phase == Notified
    case MarkInvalid(c) => c in p.leases
    case Release(c) => c in p.leases
    case ReleaseClient(c) => c in p.leases
    case Tick(_) => true
  }

  function Next(p: Pool, s: Step): Pool
    requires Enabled(p, s)
  {
    match s
    case Start =>
      Attempt(p.(nextTask := p.nextTask + 1), p.nextTask, p.clock)
    case Connected(t) =>
      p.(leases := p.leases[p.nextConn := true], nextConn := p.nextConn + 1, acquires := p.acquires - {t})
    case ConnectFailed(t) =>
      var q := p.(acquires := p.acquires - {t});
      q.(host := Returned(p.host, None), acquires := Wake(q))
    case Fire(t) =>
      p.(acquires := p.acquires[t := p.acquires[t].(phase := Fired)])
    case TimedOut(t) =>
      p.(host := p.host.(waiters := Without(p.host.waiters, t)), acquires := p.acquires - {t})
    case Woken(t) =>
      Attempt(p, t, p.acquires[t].start)
    case MarkInvalid(c) =>
      p.(leases := p.leases[c := false])
    case Release(c) =>
      Return(p, c, p.leases[c])
    case ReleaseClient(c) =>
      Return(p, c, false)
    case Tick(d) =>
      p.(clock := p.clock + d)
  }

  // ---- The idle stack ----

  /** On a sorted stack only the newest entry matters: it is handed out if it is young enough,
      and otherwise everything is rightly dropped. */
  lemma {:induction false} ExtractNewest(idle: seq<IdleEntry>, now: Time, timeout: int)
    requires Sorted(idle)
    ensures Extract(idle, now, timeout) ==
      if idle != [] && now - idle[|idle| - 1].lastUsed <= timeout then (Some(idle[|idle| - 1].conn), idle[..|idle| - 1])
      else (None, [])
    ensures Extract(idle, now, timeout).0.None? ==>
      forall i :: 0 <= i < |idle| ==> now - idle[i].lastUsed > timeout
    decreases |idle|
  {
    if idle != [] && now - idle[|idle| - 1].lastUsed > timeout {
      ExtractNewest(idle[..|idle| - 1], now, timeout);
    }
  }

  // ---- Every step keeps the invariant ----

  /** Setting one task's entry changes one phase count up and one down. */
  lemma PhaseCount(p: Pool, q: Pool, t: Task, phase: Phase)
    requires forall u :: u != t ==> (u in p.acquires <==> u in q.acquires)
    requires forall u :: u != t && u in p.acquires ==> q.acquires[u] == p.acquires[u]
    ensures |q.In(phase)| == |p.In(phase)|
      - (if t in p.acquires && p.acquires[t].phase == phase then 1 else 0)
      + (if t in q.acquires && q.acquires[t].phase == phase then 1 else 0)
  {
    assert q.In(phase) - {t} == p.In(phase) - {t};
    assert |p.In(phase)| == |p.In(phase) - {t}| + if t in p.In(phase) then 1 else 0;
    assert |q.In(phase)| == |q.In(phase) - {t}| + if t in q.In(phase) then 1 else 0;
  }

  lemma {:induction false} WithoutOk(ts: seq<Task>, t: Task)
    requires Distinct(ts)
    ensures forall u :: u in Without(ts, t) <==> u in ts && u != t
    ensures Distinct(Without(ts, t))
    decreases |ts|
  {
    if ts != [] {
      var rest := ts[1..];
      assert ts == [ts[0]] + rest;
      assert forall i :: 0 <= i < |rest| ==> rest[i] == ts[i + 1];
      WithoutOk(rest, t);
      var r := Without(rest, t);
      assert ts[0] !in rest;
      assert forall i :: 0 <= i < |r| ==> r[i] in r && r[i] != ts[0];
    }
  }

  /** A try by a running task, be it a newcomer or a woken waiter. */
  lemma AttemptKeeps(p: Pool, t: Task, start: Time)
    requires p.Inv() && start <= p.clock && t < p.nextTask
    requires t in p.acquires ==> p.acquires[t].phase == Notified
    ensures Attempt(p, t, start).Inv()
    ensures p.NoLostWakeUp() ==> Attempt(p, t, start).NoLostWakeUp()
  {
    AttemptQueue(p, t, start);
    AttemptConserves(p, t, start);
    AttemptExclusive(p, t, start);
    AttemptOrdered(p, t, start);
    AttemptWakeUp(p, t, start);
  }

  lemma AttemptOrdered(p: Pool, t: Task, start: Time)
    requires p.Inv() && start <= p.clock && t < p.nextTask
    ensures Attempt(p, t, start).IdleOrdered()
  {
    AttemptIdle(p, t, start);
    PrefixOrdered(Attempt(p, t, start).host.idle, p.host.idle, p.clock);
  }

  lemma AttemptIdle(p: Pool, t: Task, start: Time)
    requires Sorted(p.host.idle)
    ensures Attempt(p, t, start).host.idle <= p.host.idle
  {
    ExtractNewest(p.host.idle, start, p.config.idleTimeout);
  }

  lemma PrefixOrdered(prefix: seq<IdleEntry>, idle: seq<IdleEntry>, clock: Time)
    requires prefix <= idle && Sorted(idle) && forall i :: 0 <= i < |idle| ==> idle[i].lastUsed <= clock
    ensures Sorted(prefix) && forall i :: 0 <= i < |prefix| ==> prefix[i].lastUsed <= clock
  {
    assert forall i :: 0 <= i < |prefix| ==> prefix[i] == idle[i];
  }

  lemma AttemptWakeUp(p: Pool, t: Task, start: Time)
    requires p.Inv()
    requires t in p.acquires ==> p.acquires[t].phase == Notified
    ensures p.NoLostWakeUp() ==> Attempt(p, t, start).NoLostWakeUp()
  {
    PhaseCount(p, Attempt(p, t, start), t, Notified);
  }

  lemma AttemptQueue(p: Pool, t: Task, start: Time)
    requires p.Inv()
    requires t in p.acquires ==> p.acquires[t].phase == Notified
    ensures Attempt(p, t, start).QueueOk()
  {
    assert t !in p.host.waiters;
    var q := Attempt(p, t, start);
    if q.host.waiters != p.host.waiters {
      assert q.host.waiters == p.host.waiters + [t];
    }
  }

  lemma AttemptConserves(p: Pool, t: Task, start: Time)
    requires p.Inv()
    requires t in p.acquires ==> p.acquires[t].phase == Notified
    ensures Attempt(p, t, start).Conserved()
  {
    var q := Attempt(p, t, start);
    ExtractNewest(p.host.idle, start, p.config.idleTimeout);
    PhaseCount(p, q, t, Connecting);
    match Turn(p.host, p.config, t, start).1
    case Reuse(c) =>
      assert c == p.host.idle[|p.host.idle| - 1].conn && c !in p.leases;
      LeaseCount(p.leases, c, true);
      assert |q.leases| == |p.leases| + 1;
    case Connect =>
      assert |q.In(Connecting)| == |p.In(Connecting)| + 1;
    case Wait =>
      assert |q.In(Connecting)| == |p.In(Connecting)|;
  }

  lemma AttemptExclusive(p: Pool, t: Task, start: Time)
    requires p.Inv()
    ensures Attempt(p, t, start).Exclusive()
  {
    ExtractNewest(p.host.idle, start, p.config.idleTimeout);
  }

  lemma LeaseCount(leases: map<Conn, bool>, c: Conn, valid: bool)
    ensures |leases[c := valid]| == |leases| + if c in leases then 0 else 1
    ensures |leases - {c}| == |leases| - if c in leases then 1 else 0
  {
    assert leases[c := valid].Keys == leases.Keys + {c};
    assert (leases - {c}).Keys == leases.Keys - {c};
  }

  lemma WakeKeeps(p: Pool, q: Pool)
    requires p.QueueOk() && q.acquires == Wake(p) && q.host.waiters == PopWaiter(p.host).waiters
    ensures q.QueueOk()
    ensures |q.In(Connecting)| == |p.In(Connecting)|
    ensures |q.In(Notified)| == |p.In(Notified)| +
      if p.host.waiters != [] && p.acquires[p.host.waiters[0]].phase == Queued then 1 else 0
    ensures q.acquires.Keys == p.acquires.Keys
    ensures forall t :: t in p.acquires ==> q.acquires[t].start == p.acquires[t].start
  {
    if p.host.waiters != [] {
      PhaseCount(p, q, p.host.waiters[0], Connecting);
      PhaseCount(p, q, p.host.waiters[0], Notified);
    }
  }

  /** Giving a slot back, with or without keeping the connection. `p` is the pool after the
      slot's holder has been struck off. */
  lemma ReturnKeeps(p: Pool, kept: Option<IdleEntry>, q: Pool)
    requires p.QueueOk() && p.IdleOrdered() && p.Exclusive()
    requires p.host.active == |p.leases| + |p.In(Connecting)| + 1
    requires p.host.active + |p.host.idle| <= p.config.maxPerHost
    requires Returnable(p, kept) && q == p.(host := Returned(p.host, kept), acquires := Wake(p))
    ensures q.Inv() && q.host.active == p.host.active - 1
    ensures |q.In(Notified)| == |p.In(Notified)| +
      if p.host.waiters != [] && p.acquires[p.host.waiters[0]].phase == Queued then 1 else 0
  {
    WakeKeeps(p, q);
    ReturnConserves(p, kept, q);
    ReturnExclusive(p, kept, q);
    ReturnOrdered(p, kept, q);
  }

  /** A connection that comes back was used last and is neither leased nor idle. */
  ghost predicate Returnable(p: Pool, kept: Option<IdleEntry>)
  {
    kept.Some? ==>
      && kept.value.lastUsed == p.clock && kept.value.conn !in p.leases && kept.value.conn < p.nextConn
      && forall i :: 0 <= i < |p.host.idle| ==> p.host.idle[i].conn != kept.value.conn
  }

  lemma ReturnConserves(p: Pool, kept: Option<IdleEntry>, q: Pool)
    requires p.host.active == |p.leases| + |p.In(Connecting)| + 1
    requires p.host.active + |p.host.idle| <= p.config.maxPerHost
    requires q == p.(host := Returned(p.host, kept), acquires := Wake(p))
    requires |q.In(Connecting)| == |p.In(Connecting)|
    ensures q.Conserved() && q.host.active == p.host.active - 1
  {
  }

  lemma ReturnExclusive(p: Pool, kept: Option<IdleEntry>, q: Pool)
    requires p.Exclusive() && Returnable(p, kept)
    requires q == p.(host := Returned(p.host, kept), acquires := Wake(p))
    ensures q.Exclusive()
  {
  }

  lemma ReturnOrdered(p: Pool, kept: Option<IdleEntry>, q: Pool)
    requires p.IdleOrdered() && Returnable(p, kept)
    requires q == p.(host := Returned(p.host, kept), acquires := Wake(p))
    requires q.acquires.Keys == p.acquires.Keys
    requires forall t :: t in p.acquires ==> q.acquires[t].start == p.acquires[t].start
    ensures q.IdleOrdered()
  {
  }

  lemma ReleaseKeeps(p: Pool, c: Conn, kept: bool)
    requires p.Inv() && c in p.leases
    ensures Return(p, c, kept).Inv() && Return(p, c, kept).host.active == p.host.active - 1
    ensures |Return(p, c, kept).In(Notified)| == |p.In(Notified)| +
      if p.host.waiters != [] && p.acquires[p.host.waiters[0]].phase == Queued then 1 else 0
  {
    var p' := p.(leases := p.leases - {c});
    LeaseCount(p.leases, c, true);
    assert p'.In(Connecting) == p.In(Connecting) && p'.In(Notified) == p.In(Notified);
    ReturnKeeps(p', if kept then Some(IdleEntry(c, p.clock)) else None, Return(p, c, kept));
  }

  lemma ConnectFailedKeeps(p: Pool, t: Task)
    requires p.Inv() && t in p.acquires && p.acquires[t].phase == Connecting
    ensures Next(p, ConnectFailed(t)).Inv() && Next(p, ConnectFailed(t)).host.active == p.host.active - 1
    ensures |Next(p, ConnectFailed(t)).In(Notified)| == |p.In(Notified)| +
      if p.host.waiters != [] && p.acquires[p.host.waiters[0]].phase == Queued then 1 else 0
  {
    var p' := p.(acquires := p.acquires - {t});
    PhaseCount(p, p', t, Connecting);
    PhaseCount(p, p', t, Notified);
    assert t !in p.host.waiters;
    ReturnKeeps(p', None, Next(p, ConnectFailed(t)));
  }

  lemma ConnectedKeeps(p: Pool, t: Task)
    requires p.Inv() && t in p.acquires && p.acquires[t].phase == Connecting
    ensures Next(p, Connected(t)).Inv()
    ensures |Next(p, Connected(t)).In(Notified)| == |p.In(Notified)|
  {
    var q := Next(p, Connected(t));
    PhaseCount(p, q, t, Connecting);
    PhaseCount(p, q, t, Notified);
    LeaseCount(p.leases, p.nextConn, true);
  }

  lemma TimerKeeps(p: Pool, s: Step)
    requires p.Inv() && (s.Fire? || s.TimedOut?) && Enabled(p, s)
    ensures Next(p, s).Inv()
    ensures |Next(p, s).In(Notified)| == |p.In(Notified)|
    ensures Next(p, s).host.waiters != [] ==> p.host.waiters != []
  {
    var q := Next(p, s);
    PhaseCount(p, q, s.t, Connecting);
    PhaseCount(p, q, s.t, Notified);
    WithoutOk(p.host.waiters, s.t);
    assert forall i :: 0 <= i < |q.host.waiters| ==> q.host.waiters[i] in q.host.waiters;
    assert forall i :: 0 <= i < |q.host.waiters| ==> q.host.waiters[i] in p.host.waiters;
  }

  lemma MarkKeeps(p: Pool, c: Conn)
    requires p.Inv() && c in p.leases
    ensures Next(p, MarkInvalid(c)).Inv()
    ensures Next(p, MarkInvalid(c)).In(Notified) == p.In(Notified)
  {
    var q := Next(p, MarkInvalid(c));
    LeaseCount(p.leases, c, false);
    assert q.In(Connecting) == p.In(Connecting);
  }

  lemma StartKeeps(p: Pool)
    requires p.Inv()
    ensures Next(p, Start).Inv()
    ensures p.NoLostWakeUp() ==> Next(p, Start).NoLostWakeUp()
  {
    NewTaskKeeps(p);
    AttemptKeeps(p.(nextTask := p.nextTask + 1), p.nextTask, p.clock);
  }

  lemma NewTaskKeeps(p: Pool)
    requires p.Inv()
    ensures var q := p.(nextTask := p.nextTask + 1);
      q.Inv() && p.nextTask !in q.acquires && (p.NoLostWakeUp() ==> q.NoLostWakeUp())
  {
    var q := p.(nextTask := p.nextTask + 1);
    assert q.In(Connecting) == p.In(Connecting) && q.In(Notified) == p.In(Notified);
  }

  lemma TickKeeps(p: Pool, d: nat)
    requires p.Inv()
    ensures Next(p, Tick(d)).Inv()
    ensures Next(p, Tick(d)).In(Notified) == p.In(Notified)
  {
    assert Next(p, Tick(d)).In(Connecting) == p.In(Connecting);
  }

  lemma StepKeepsInv(p: Pool, s: Step)
    requires p.Inv() && Enabled(p, s)
    ensures Next(p, s).Inv()
  {
    match s
    case Start => StartKeeps(p);
    case Connected(t) => ConnectedKeeps(p, t);
    case ConnectFailed(t) => ConnectFailedKeeps(p, t);
    case Fire(t) => TimerKeeps(p, s);
    case TimedOut(t) => TimerKeeps(p, s);
    case Woken(t) => AttemptKeeps(p, t, p.acquires[t].start);
    case MarkInvalid(c) => MarkKeeps(p, c);
    case Release(c) => ReleaseKeeps(p, c, p.leases[c]);
    case ReleaseClient(c) => ReleaseKeeps(p, c, false);
    case Tick(d) => TickKeeps(p, d);
  }

  /** A slot is given back while the timer at the front of the queue has already fired and
      others are waiting behind it. */
  predicate Swallowed(p: Pool, s: Step)
  {
    && (s.ConnectFailed? || s.Release? || s.ReleaseClient?)
    && |p.host.waiters| > 1
    && p.host.waiters[0] in p.acquires && p.acquires[p.host.waiters[0]].phase == Fired
  }

  /** ... and every slot free so far is promised to a notified waiter. */
  ghost predicate Loses(p: Pool, s: Step)
  {
    Swallowed(p, s) && p.Free() == |p.In(Notified)|
  }

  /** Exactly one thing loses a wake-up: the notification goes to a waiter whose timer has
      already fired, somebody else is queued behind it, and every slot was spoken for. */
  lemma WakeUpLostIff(p: Pool, s: Step)
    requires p.Inv() && p.NoLostWakeUp() && Enabled(p, s)
    ensures Next(p, s).NoLostWakeUp() <==> !Loses(p, s)
  {
    if s.ConnectFailed? || s.Release? || s.ReleaseClient? {
      GivingBackLosesIff(p, s);
    } else {
      OthersLoseNone(p, s);
    }
  }

  lemma GivingBackLosesIff(p: Pool, s: Step)
    requires p.Inv() && p.NoLostWakeUp() && Enabled(p, s) && (s.ConnectFailed? || s.Release? || s.ReleaseClient?)
    ensures Next(p, s).NoLostWakeUp() <==> !Loses(p, s)
  {
    match s
    case ConnectFailed(t) => ConnectFailedKeeps(p, t);
    case Release(c) => ReleaseKeeps(p, c, p.leases[c]);
    case ReleaseClient(c) => ReleaseKeeps(p, c, false);
  }

  lemma OthersLoseNone(p: Pool, s: Step)
    requires p.Inv() && p.NoLostWakeUp() && Enabled(p, s) && !(s.ConnectFailed? || s.Release? || s.ReleaseClient?)
    ensures Next(p, s).NoLostWakeUp()
  {
    match s
    case Start => StartKeeps(p);
    case Connected(t) => ConnectedKeeps(p, t);
    case Fire(t) => TimerKeeps(p, s);
    case TimedOut(t) => TimerKeeps(p, s);
    case Woken(t) => AttemptKeeps(p, t, p.acquires[t].start);
    case MarkInvalid(c) => MarkKeeps(p, c);
    case Tick(d) => TickKeeps(p, d);
  }

  // ---- Every run ----

  function Init(config: Config, clock: Time): Pool
  {
    Pool(config, clock, NEW_HOST, map[], map[], 0, 0)
  }

  /** The steps can be taken one after the other. */
  predicate IsRun(p: Pool, steps: seq<Step>)
    decreases |steps|
  {
    steps == [] || (Enabled(p, steps[0]) && IsRun(Next(p, steps[0]), steps[1..]))
  }

  function Run(p: Pool, steps: seq<Step>): Pool
    requires IsRun(p, steps)
    decreases |steps|
  {
    if steps == [] then p else Run(Next(p, steps[0]), steps[1..])
  }

  ghost predicate NeverLoses(p: Pool, steps: seq<Step>)
    requires IsRun(p, steps)
    decreases |steps|
  {
    steps == [] || (!Loses(p, steps[0]) && NeverLoses(Next(p, steps[0]), steps[1..]))
  }

  /** In every state of the run, free slots are promised while somebody waits. */
  ghost predicate AlwaysPromised(p: Pool, steps: seq<Step>)
    requires IsRun(p, steps)
    decreases |steps|
  {
    p.NoLostWakeUp() && (steps == [] || AlwaysPromised(Next(p, steps[0]), steps[1..]))
  }

  lemma {:induction false} RunPromisedIff(p: Pool, steps: seq<Step>)
    requires p.Inv() && p.NoLostWakeUp() && IsRun(p, steps)
    ensures AlwaysPromised(p, steps) <==> NeverLoses(p, steps)
    decreases |steps|
  {
    if steps != [] {
      StepKeepsInv(p, steps[0]);
      WakeUpLostIff(p, steps[0]);
      if Next(p, steps[0]).NoLostWakeUp() {
        RunPromisedIff(Next(p, steps[0]), steps[1..]);
      }
    }
  }

  lemma {:induction false} RunKeeps(p: Pool, steps: seq<Step>)
    requires p.Inv() && IsRun(p, steps)
    ensures Run(p, steps).Inv()
    decreases |steps|
  {
    if steps != [] {
      StepKeepsInv(p, steps[0]);
      RunKeeps(Next(p, steps[0]), steps[1..]);
    }
  }

  /** In every run: the active count equals the live leases plus the connects in progress, it
      stays within the limit together with the idle connections, no connection is in two
      places, the idle stack is ordered by age and the queue is well formed. */
  lemma AlwaysConserved(config: Config, clock: Time, steps: seq<Step>)
    requires IsRun(Init(config, clock), steps)
    ensures Run(Init(config, clock), steps).Inv()
  {
    InitOk(config, clock);
    RunKeeps(Init(config, clock), steps);
  }

  lemma InitOk(config: Config, clock: Time)
    ensures Init(config, clock).Inv() && Init(config, clock).NoLostWakeUp()
  {
    assert Init(config, clock).In(Connecting) == {};
  }

  /** Throughout a run a free slot is never left while somebody waits without a wake-up on its
      way: exactly if no step of the run loses one. */
  lemma NoLostWakeUpIff(config: Config, clock: Time, steps: seq<Step>)
    requires IsRun(Init(config, clock), steps)
    ensures AlwaysPromised(Init(config, clock), steps) <==> NeverLoses(Init(config, clock), steps)
  {
    InitOk(config, clock);
    RunPromisedIff(Init(config, clock), steps);
  }

  /** Each timer that fires is handled at once: the expiry and the waiter's removal from the
      queue are one step. */
  predicate TimersHandledAtOnce(steps: seq<Step>)
    decreases |steps|
  {
    if steps == [] then true
    else if steps[0].Fire? then |steps| > 1 && steps[1] == TimedOut(steps[0].t) && TimersHandledAtOnce(steps[2..])
    else TimersHandledAtOnce(steps[1..])
  }

  ghost predicate NoneFired(p: Pool)
  {
    forall t :: t in p.acquires ==> p.acquires[t].phase != Fired
  }

  lemma {:induction false} NothingLost(p: Pool, steps: seq<Step>)
    requires NoneFired(p) && IsRun(p, steps) && TimersHandledAtOnce(steps)
    ensures NeverLoses(p, steps)
    decreases |steps|
  {
    if steps != [] {
      var q := Next(p, steps[0]);
      if steps[0].Fire? {
        assert steps[1..][0] == steps[1] && steps[1..][1..] == steps[2..];
        NothingLost(Next(q, steps[1]), steps[2..]);
      } else {
        NothingLost(q, steps[1..]);
      }
    }
  }

  /** With the expiry of a timer and the removal of its waiter taken as one step, no wake-up is
      ever lost, whoever barges in and whichever connects fail. */
  lemma NoLostWakeUpWithAtomicTimers(config: Config, clock: Time, steps: seq<Step>)
    requires IsRun(Init(config, clock), steps) && TimersHandledAtOnce(steps)
    ensures AlwaysPromised(Init(config, clock), steps)
  {
    NothingLost(Init(config, clock), steps);
    NoLostWakeUpIff(config, clock, steps);
  }

  /** The decrements guarded against zero in the source never meet zero. */
  lemma DecrementNeverAtZero(config: Config, clock: Time, steps: seq<Step>, s: Step)
    requires IsRun(Init(config, clock), steps) && Enabled(Run(Init(config, clock), steps), s)
    requires s.ConnectFailed? || s.Release? || s.ReleaseClient?
    ensures Run(Init(config, clock), steps).host.active > 0
  {
    AlwaysConserved(config, clock, steps);
    var p := Run(Init(config, clock), steps);
    if s.ConnectFailed? {
      assert s.t in p.In(Connecting);
    } else {
      LeaseCount(p.leases, s.c, true);
    }
  }

  /** In every reachable state an acquire reuses the connection used last if that is young
      enough by the clock of its own start, and drops idle connections only if all are too old. */
  lemma ReusesNewest(config: Config, clock: Time, steps: seq<Step>, t: Task, start: Time)
    requires IsRun(Init(config, clock), steps)
    ensures var p := Run(Init(config, clock), steps);
      var (h, outcome) := Turn(p.host, config, t, start);
      var n := |p.host.idle|;
      if n > 0 && start - p.host.idle[n - 1].lastUsed <= config.idleTimeout then
        outcome == Reuse(p.host.idle[n - 1].conn) && h.idle == p.host.idle[..n - 1]
      else
        && !outcome.Reuse? && h.idle == []
        && forall i :: 0 <= i < n ==> start - p.host.idle[i].lastUsed > config.idleTimeout
  {
    AlwaysConserved(config, clock, steps);
    RunConfig(Init(config, clock), steps);
    ExtractNewest(Run(Init(config, clock), steps).host.idle, start, config.idleTimeout);
  }

  lemma {:induction false} RunConfig(p: Pool, steps: seq<Step>)
    requires IsRun(p, steps)
    ensures Run(p, steps).config == p.config
    decreases |steps|
  {
    if steps != [] {
      RunConfig(Next(p, steps[0]), steps[1..]);
    }
  }

  /** Waiters are woken in the order in which they queued up. */
  lemma WokenFromTheFront(p: Pool, s: Step, t: Task)
    requires p.Inv() && Enabled(p, s)
    requires t in p.acquires && p.acquires[t].phase == Queued
    requires t in Next(p, s).acquires && Next(p, s).acquires[t].phase == Notified
    ensures p.host.waiters != [] && p.host.waiters[0] == t
    ensures Next(p, s).host.waiters == p.host.waiters[1..]
  {
  }

  /** Position of a task in the queue, or its length. */
  function Place(ts: seq<Task>, t: Task): nat
  {
    if ts == [] || ts[0] == t then 0 else 1 + Place(ts[1..], t)
  }

  lemma {:induction false} PlaceAppend(ts: seq<Task>, t: Task, u: Task)
    ensures Place(ts, t) <= |ts| && (t in ts ==> Place(ts + [u], t) == Place(ts, t) < |ts|)
    ensures t !in ts ==> Place(ts, t) == |ts|
    decreases |ts|
  {
    if ts != [] {
      assert (ts + [u])[1..] == ts[1..] + [u];
      PlaceAppend(ts[1..], t, u);
    }
  }

  lemma {:induction false} PlaceWithout(ts: seq<Task>, w: Task, t: Task, u: Task)
    requires t in ts && u in ts && t != w && u != w && Place(ts, t) < Place(ts, u)
    ensures Place(Without(ts, w), t) < Place(Without(ts, w), u)
    decreases |ts|
  {
    var rest := ts[1..];
    if ts[0] == w {
      assert [] + Without(rest, w) == Without(rest, w);
      PlaceWithout(rest, w, t, u);
    } else {
      assert ([ts[0]] + Without(rest, w))[1..] == Without(rest, w);
      if ts[0] != t {
        PlaceWithout(rest, w, t, u);
      }
    }
  }

  /** What a step can do to the queue: strike off the one that timed out, take the first, add one
      at the end, or nothing. */
  lemma QueueChanges(p: Pool, s: Step)
    requires p.QueueOk() && Enabled(p, s)
    ensures var ts, us := p.host.waiters, Next(p, s).host.waiters;
      if s.TimedOut? then us == Without(ts, s.t)
      else if s.ConnectFailed? || s.Release? || s.ReleaseClient? then us == if ts == [] then [] else ts[1..]
      else us == ts || us == ts + [if s.Woken? then s.t else p.nextTask]
  {
  }

  lemma FirstLeaves(ts: seq<Task>, t: Task, u: Task)
    requires Distinct(ts) && ts != [] && t in ts[1..] && u in ts[1..] && Place(ts, t) < Place(ts, u)
    ensures Place(ts[1..], t) < Place(ts[1..], u)
  {
    assert ts[0] !in ts[1..];
  }

  lemma JoinsLast(ts: seq<Task>, w: Task, t: Task, u: Task)
    requires t in ts && u in ts + [w] && t != u && (u !in ts || Place(ts, t) < Place(ts, u))
    ensures Place(ts + [w], t) < Place(ts + [w], u)
  {
    PlaceAppend(ts, t, w);
    PlaceAppend(ts, u, w);
    if u !in ts {
      PlaceOfLast(ts, w);
    }
  }

  lemma {:induction false} PlaceOfLast(ts: seq<Task>, w: Task)
    requires w !in ts
    ensures Place(ts + [w], w) == |ts|
    decreases |ts|
  {
    if ts != [] {
      assert (ts + [w])[1..] == ts[1..] + [w];
      PlaceOfLast(ts[1..], w);
    }
  }

  /** The queue is first come, first served: nobody overtakes, and whoever joins comes last. */
  lemma NobodyOvertakes(p: Pool, s: Step, t: Task, u: Task)
    requires p.QueueOk() && Enabled(p, s)
    requires t in p.host.waiters && u in Next(p, s).host.waiters && t in Next(p, s).host.waiters && t != u
    requires u !in p.host.waiters || Place(p.host.waiters, t) < Place(p.host.waiters, u)
    ensures Place(Next(p, s).host.waiters, t) < Place(Next(p, s).host.waiters, u)
  {
    var ts := p.host.waiters;
    QueueChanges(p, s);
    if s.TimedOut? {
      WithoutOk(ts, s.t);
      PlaceWithout(ts, s.t, t, u);
    } else if s.ConnectFailed? || s.Release? || s.ReleaseClient? {
      FirstLeaves(ts, t, u);
    } else if Next(p, s).host.waiters != ts {
      JoinsLast(ts, if s.Woken? then s.t else p.nextTask, t, u);
    }
  }

  /** An acquire judges ages by the time it was called, however often it has to wait. */
  lemma StartStays(p: Pool, s: Step, t: Task)
    requires p.Inv() && Enabled(p, s) && t in Next(p, s).acquires
    ensures Next(p, s).acquires[t].start == if t in p.acquires then p.acquires[t].start else p.clock
  {
  }

  /** One slot, one lease, two waiters; the first waiter's timer fires just before the lease
      is returned. */
  function LosingSteps(): seq<Step>
  {
    [Start] + ([Connected(0)] + ([Start] + ([Start] + ([Fire(1)] + ([Release(0)] + [])))))
  }

  /** The pool with its one connection leased and two callers waiting. */
  function TwoWaiting(): Pool
  {
    Pool(Config(1, 30), 0, Host(1, [], [1, 2]), map[0 := true],
      map[1 := Acquire(0, Queued), 2 := Acquire(0, Queued)], 1, 3)
  }

  lemma ReachesTwoWaiting(rest: seq<Step>)
    requires IsRun(TwoWaiting(), rest)
    ensures var steps := [Start] + ([Connected(0)] + ([Start] + ([Start] + rest)));
      IsRun(Init(Config(1, 30), 0), steps) && Run(Init(Config(1, 30), 0), steps) == Run(TwoWaiting(), rest)
  {
    var c := Config(1, 30);
    var p0 := Init(c, 0);
    var p1 := Pool(c, 0, Host(1, [], []), map[], map[0 := Acquire(0, Connecting)], 0, 1);
    var p2 := Pool(c, 0, Host(1, [], []), map[0 := true], map[], 1, 1);
    var p3 := Pool(c, 0, Host(1, [], [1]), map[0 := true], map[1 := Acquire(0, Queued)], 1, 2);
    assert Next(p3, Start) == TwoWaiting();
    RunOne(p3, Start, rest);
    assert Next(p2, Start) == p3;
    RunOne(p2, Start, [Start] + rest);
    assert Next(p1, Connected(0)) == p2;
    RunOne(p1, Connected(0), [Start] + ([Start] + rest));
    assert Next(p0, Start) == p1;
    RunOne(p0, Start, [Connected(0)] + ([Start] + ([Start] + rest)));
  }

  /** A run that loses a wake-up: the second waiter stays queued beside an idle connection
      with no wake-up on its way. */
  lemma LostWakeUpHappens()
    ensures var p := Init(Config(1, 30), 0);
      IsRun(p, LosingSteps()) &&
      var q := Run(p, LosingSteps());
      q.host == Host(0, [IdleEntry(0, 0)], [2]) && !q.NoLostWakeUp()
  {
    var p4 := TwoWaiting();
    var p5 := p4.(acquires := map[1 := Acquire(0, Fired), 2 := Acquire(0, Queued)]);
    var p6 := p5.(host := Host(0, [IdleEntry(0, 0)], [2]), leases := map[]);
    assert Next(p4, Fire(1)) == p5;
    ReleasesPastTheFired(p5, p6);
    RunOne(p5, Release(0), []);
    RunOne(p4, Fire(1), [Release(0)] + []);
    ReachesTwoWaiting([Fire(1)] + ([Release(0)] + []));
  }

  lemma ReleasesPastTheFired(p: Pool, q: Pool)
    requires p.host == Host(1, [], [1, 2]) && p.leases == map[0 := true] && p.clock == 0 && p.config.maxPerHost == 1
    requires p.acquires == map[1 := Acquire(0, Fired), 2 := Acquire(0, Queued)]
    requires q == p.(host := Host(0, [IdleEntry(0, 0)], [2]), leases := map[])
    ensures Next(p, Release(0)) == q && !q.NoLostWakeUp()
  {
    assert [1, 2][1..] == [2];
    assert q.In(Notified) == {};
  }

  lemma RunOne(p: Pool, s: Step, rest: seq<Step>)
    requires Enabled(p, s) && IsRun(Next(p, s), rest)
    ensures IsRun(p, [s] + rest) && Run(p, [s] + rest) == Run(Next(p, s), rest)
  {
    assert ([s] + rest)[1..] == rest;
  }
}
