/** What becomes of each connection: when one enters the pool, when one leaves it, and that
    nothing else is ever lost. */
module PoolConnections {
  import opened PoolHost

  ghost predicate IsIdle(p: Pool, c: Conn)
  {
    exists i :: 0 <= i < |p.host.idle| && p.host.idle[i].conn == c
  }

  /** The pool has the connection, leased or idle. */
  ghost predicate Has(p: Pool, c: Conn)
  {
    c in p.leases || IsIdle(p, c)
  }

  /** Is the step a try of an acquire, and by which starting time does it judge ages? */
  predicate Tries(s: Step)
  {
    s.Start? || s.Woken?
  }

  function TryStart(p: Pool, s: Step): Time
    requires Enabled(p, s) && Tries(s)
  {
    if s.Start? then p.clock else p.acquires[s.t].start
  }

  /** Every idle connection is too old for this try. */
  predicate AllTooOld(p: Pool, s: Step)
    requires Enabled(p, s) && Tries(s)
  {
    forall i :: 0 <= i < |p.host.idle| ==> TryStart(p, s) - p.host.idle[i].lastUsed > p.config.idleTimeout
  }

  /** The connection is given back as unusable, handed out of the pool, or found too old together
      with all the others. */
  ghost predicate Discards(p: Pool, s: Step, c: Conn)
    requires Enabled(p, s)
  {
    || (s.Release? && s.c == c && !p.leases[c])
    || (s.ReleaseClient? && s.c == c)
    || (Tries(s) && IsIdle(p, c) && AllTooOld(p, s))
  }

  // ---- Single steps ----

  lemma SameIdle(p: Pool, q: Pool, c: Conn)
    requires q.host.idle == p.host.idle
    ensures IsIdle(q, c) <==> IsIdle(p, c)
  {
  }

  lemma AddedIdle(p: Pool, q: Pool, e: IdleEntry, c: Conn)
    requires q.host.idle == p.host.idle + [e]
    ensures IsIdle(q, c) <==> IsIdle(p, c) || c == e.conn
  {
    if IsIdle(p, c) {
      var i :| 0 <= i < |p.host.idle| && p.host.idle[i].conn == c;
      assert q.host.idle[i].conn == c;
    }
    assert q.host.idle[|p.host.idle|] == e;
  }

  lemma DroppedIdle(p: Pool, q: Pool, c: Conn)
    requires p.Exclusive() && p.host.idle != [] && q.host.idle == p.host.idle[..|p.host.idle| - 1]
    ensures IsIdle(q, c) <==> IsIdle(p, c) && c != p.host.idle[|p.host.idle| - 1].conn
  {
    if IsIdle(p, c) && c != p.host.idle[|p.host.idle| - 1].conn {
      var i :| 0 <= i < |p.host.idle| && p.host.idle[i].conn == c;
      assert q.host.idle[i].conn == c;
    }
  }

  lemma LeasedNotIdle(p: Pool, c: Conn)
    requires p.Exclusive() && c in p.leases
    ensures !IsIdle(p, c)
  {
    assert forall i :: 0 <= i < |p.host.idle| ==> p.host.idle[i].conn !in p.leases;
  }

  /** The newest idle connection is young enough for the try. */
  predicate Reusable(p: Pool, start: Time)
  {
    p.host.idle != [] && start - p.host.idle[|p.host.idle| - 1].lastUsed <= p.config.idleTimeout
  }

  /** What a try does to idle connections and leases. */
  ghost predicate Tried(p: Pool, start: Time, q: Pool)
  {
    && q.nextConn == p.nextConn && q.clock == p.clock
    && if Reusable(p, start) then
         && q.host.idle == p.host.idle[..|p.host.idle| - 1]
         && q.leases == p.leases[p.host.idle[|p.host.idle| - 1].conn := true]
       else
         q.host.idle == [] && q.leases == p.leases
  }

  lemma TryExact(p: Pool, t: Task, start: Time)
    requires Sorted(p.host.idle)
    ensures Tried(p, start, Attempt(p, t, start))
  {
    ExtractNewest(p.host.idle, start, p.config.idleTimeout);
  }

  lemma TryStepExact(p: Pool, s: Step)
    requires p.IdleOrdered() && Enabled(p, s) && Tries(s)
    ensures Tried(p, TryStart(p, s), Next(p, s))
  {
    if s.Start? {
      TryExact(p.(nextTask := p.nextTask + 1), p.nextTask, p.clock);
    } else {
      TryExact(p, s.t, p.acquires[s.t].start);
    }
  }

  /** A try leases the newest idle connection if that is young enough; if not, it clears the
      stack, and every other connection stays where it is. */
  lemma TryStepMoves(p: Pool, s: Step, c: Conn)
    requires p.Inv() && Enabled(p, s) && Tries(s)
    ensures var q := Next(p, s);
      if Reusable(p, TryStart(p, s)) then
        && q.leases == p.leases[p.host.idle[|p.host.idle| - 1].conn := true]
        && (IsIdle(q, c) <==> IsIdle(p, c) && c != p.host.idle[|p.host.idle| - 1].conn)
      else
        q.leases == p.leases && !IsIdle(q, c)
    ensures Next(p, s).nextConn == p.nextConn
  {
    TryStepExact(p, s);
    if Reusable(p, TryStart(p, s)) {
      DroppedIdle(p, Next(p, s), c);
    }
  }

  lemma AllOldIff(p: Pool, s: Step)
    requires p.IdleOrdered() && Enabled(p, s) && Tries(s)
    ensures AllTooOld(p, s) <==> !Reusable(p, TryStart(p, s))
  {
  }

  lemma TryHas(p: Pool, s: Step, c: Conn)
    requires p.Inv() && Enabled(p, s) && Tries(s)
    ensures Has(Next(p, s), c) <==> Has(p, c) && !Discards(p, s, c)
    ensures Next(p, s).nextConn == p.nextConn
  {
    AllOldIff(p, s);
    TryStepMoves(p, s, c);
    if Reusable(p, TryStart(p, s)) {
      assert p.host.idle[|p.host.idle| - 1].conn == c ==> IsIdle(p, c);
    } else if c in p.leases {
      LeasedNotIdle(p, c);
    }
  }

  /** Giving back a valid lease puts the connection on top of the idle stack, as used just now;
      an invalid one is gone. */
  lemma ReleaseMoves(p: Pool, c: Conn)
    requires p.Inv() && c in p.leases
    ensures var q := Next(p, Release(c));
      && q.leases == p.leases - {c}
      && q.host.idle == if p.leases[c] then p.host.idle + [IdleEntry(c, p.clock)] else p.host.idle
  {
  }

  lemma GivesBackHas(p: Pool, s: Step, c: Conn)
    requires p.Inv() && Enabled(p, s) && (s.Release? || s.ReleaseClient?)
    ensures Has(Next(p, s), c) <==> Has(p, c) && !Discards(p, s, c)
    ensures Next(p, s).nextConn == p.nextConn
  {
    var q := Next(p, s);
    if s.Release? && p.leases[s.c] {
      AddedIdle(p, q, IdleEntry(s.c, p.clock), c);
    } else {
      SameIdle(p, q, c);
    }
    LeasedNotIdle(p, s.c);
  }

  /** Exactly these connections are in the pool after a step: those that were and are not
      discarded by it, and the one that has just been opened. */
  lemma HasIff(p: Pool, s: Step, c: Conn)
    requires p.Inv() && Enabled(p, s)
    ensures Has(Next(p, s), c) <==> (Has(p, c) && !Discards(p, s, c)) || (s.Connected? && c == p.nextConn)
    ensures Next(p, s).nextConn == p.nextConn + if s.Connected? then 1 else 0
  {
    if Tries(s) {
      TryHas(p, s, c);
    } else if s.Release? || s.ReleaseClient? {
      GivesBackHas(p, s, c);
    } else {
      SameIdle(p, Next(p, s), c);
    }
  }

  // ---- The validity flag ----

  /** A lease is invalid after a step exactly if it was before or has been marked by the step; so
      a connection handed out, new or reused, is valid. */
  lemma InvalidIff(p: Pool, s: Step, c: Conn)
    requires p.Inv() && Enabled(p, s) && c in Next(p, s).leases
    ensures !Next(p, s).leases[c] <==> s == MarkInvalid(c) || (c in p.leases && !p.leases[c])
  {
    if Tries(s) {
      TryStepMoves(p, s, c);
      if p.host.idle != [] {
        assert p.host.idle[|p.host.idle| - 1].conn !in p.leases;
      }
    }
  }

  /** Known to the pool, but only as a lease marked invalid, or not any more. */
  ghost predicate Doomed(p: Pool, c: Conn)
  {
    c < p.nextConn && !IsIdle(p, c) && (c in p.leases ==> !p.leases[c])
  }

  lemma StepDoomed(p: Pool, s: Step, c: Conn)
    requires p.Inv() && Enabled(p, s) && Doomed(p, c)
    ensures Doomed(Next(p, s), c)
  {
    var q := Next(p, s);
    HasIff(p, s, c);
    if c in q.leases {
      InvalidIff(p, s, c);
    }
    if Tries(s) {
      TryStepMoves(p, s, c);
    } else if s.Release? && p.leases[s.c] {
      AddedIdle(p, q, IdleEntry(s.c, p.clock), c);
    } else {
      SameIdle(p, q, c);
    }
  }

  lemma {:induction false} RunDoomed(p: Pool, steps: seq<Step>, c: Conn)
    requires p.Inv() && IsRun(p, steps) && Doomed(p, c)
    ensures Doomed(Run(p, steps), c)
    decreases |steps|
  {
    if steps != [] {
      StepKeepsInv(p, steps[0]);
      StepDoomed(p, steps[0], c);
      RunDoomed(Next(p, steps[0]), steps[1..], c);
    }
  }

  /** In every run: a connection whose lease has been marked invalid never gets back to idle, so
      no later acquire is handed it. */
  lemma MarkedNeverReused(config: Config, clock: Time, before: seq<Step>, c: Conn, after: seq<Step>)
    requires IsRun(Init(config, clock), before) && c in Run(Init(config, clock), before).leases
    requires IsRun(Next(Run(Init(config, clock), before), MarkInvalid(c)), after)
    ensures var q := Run(Next(Run(Init(config, clock), before), MarkInvalid(c)), after);
      !IsIdle(q, c) && (c in q.leases ==> !q.leases[c])
  {
    AlwaysConserved(config, clock, before);
    var p := Run(Init(config, clock), before);
    StepKeepsInv(p, MarkInvalid(c));
    SameIdle(p, Next(p, MarkInvalid(c)), c);
    LeasedNotIdle(p, c);
    RunDoomed(Next(p, MarkInvalid(c)), after, c);
  }

  // ---- Runs in which nothing is discarded ----

  ghost function Population(p: Pool): nat
  {
    |p.leases| + |p.host.idle|
  }

  /** All leases are valid, and nothing was last used before `since`. */
  ghost predicate Sound(p: Pool, since: Time)
  {
    && (forall c :: c in p.leases ==> p.leases[c])
    && (forall i :: 0 <= i < |p.host.idle| ==> since <= p.host.idle[i].lastUsed)
    && since <= p.clock
  }

  predicate Gentle(s: Step)
  {
    !s.MarkInvalid? && !s.ReleaseClient?
  }

  lemma TriedPopulation(p: Pool, start: Time, q: Pool, since: Time)
    requires p.Exclusive() && Sound(p, since) && start <= p.clock && p.clock - since <= p.config.idleTimeout
    requires Tried(p, start, q)
    ensures Population(q) == Population(p) && Sound(q, since)
  {
    if p.host.idle != [] {
      var last := p.host.idle[|p.host.idle| - 1];
      assert since <= last.lastUsed && last.conn !in p.leases;
      LeaseCount(p.leases, last.conn, true);
    }
  }

  lemma TryPopulation(p: Pool, s: Step, since: Time)
    requires p.Inv() && Enabled(p, s) && Tries(s) && Sound(p, since) && p.clock - since <= p.config.idleTimeout
    ensures Population(Next(p, s)) == Population(p) && Sound(Next(p, s), since)
  {
    TryStepExact(p, s);
    TriedPopulation(p, TryStart(p, s), Next(p, s), since);
  }

  lemma ReleasePopulation(p: Pool, c: Conn, since: Time)
    requires p.Inv() && Sound(p, since) && c in p.leases
    ensures Population(Next(p, Release(c))) == Population(p) && Sound(Next(p, Release(c)), since)
  {
    ReleaseMoves(p, c);
    LeaseCount(p.leases, c, true);
  }

  lemma ConnectPopulation(p: Pool, t: Task, since: Time)
    requires p.Inv() && Sound(p, since) && Enabled(p, Connected(t))
    ensures Population(Next(p, Connected(t))) == Population(p) + 1 && Sound(Next(p, Connected(t)), since)
  {
    LeaseCount(p.leases, p.nextConn, true);
  }

  lemma OtherPopulation(p: Pool, s: Step, since: Time)
    requires Sound(p, since) && Enabled(p, s) && (s.ConnectFailed? || s.Fire? || s.TimedOut? || s.Tick?)
    ensures Population(Next(p, s)) == Population(p) && Sound(Next(p, s), since)
  {
    assert Next(p, s).host.idle == p.host.idle && Next(p, s).leases == p.leases;
  }

  lemma StepPopulation(p: Pool, s: Step, since: Time)
    requires p.Inv() && Enabled(p, s) && Sound(p, since) && Gentle(s) && p.clock - since <= p.config.idleTimeout
    ensures Population(Next(p, s)) == Population(p) + (if s.Connected? then 1 else 0) && Sound(Next(p, s), since)
  {
    match s
    case Start => TryPopulation(p, s, since);
    case Woken(_) => TryPopulation(p, s, since);
    case Connected(t) => ConnectPopulation(p, t, since);
    case Release(c) => ReleasePopulation(p, c, since);
    case _ => OtherPopulation(p, s, since);
  }

  predicate AllGentle(steps: seq<Step>)
  {
    forall i :: 0 <= i < |steps| ==> Gentle(steps[i])
  }

  lemma {:induction false} ClockOnlyGrows(p: Pool, steps: seq<Step>)
    requires IsRun(p, steps)
    ensures p.clock <= Run(p, steps).clock
    decreases |steps|
  {
    if steps != [] {
      ClockOnlyGrows(Next(p, steps[0]), steps[1..]);
    }
  }

  lemma {:induction false} RunPopulation(p: Pool, steps: seq<Step>, since: Time)
    requires p.Inv() && IsRun(p, steps) && AllGentle(steps) && Sound(p, since)
    requires Run(p, steps).clock - since <= p.config.idleTimeout
    ensures Population(Run(p, steps)) + p.nextConn == Population(p) + Run(p, steps).nextConn
    decreases |steps|
  {
    if steps != [] {
      ClockOnlyGrows(p, steps);
      StepKeepsInv(p, steps[0]);
      StepPopulation(p, steps[0], since);
      HasIff(p, steps[0], 0);
      RunPopulation(Next(p, steps[0]), steps[1..], since);
    }
  }

  /** As long as no lease is marked invalid, no client is taken out and less than the idle timeout
      has passed since the start, every connection ever opened is leased or idle. */
  lemma NoConnectionLost(config: Config, clock: Time, steps: seq<Step>)
    requires IsRun(Init(config, clock), steps) && AllGentle(steps)
    requires Run(Init(config, clock), steps).clock - clock <= config.idleTimeout
    ensures var p := Run(Init(config, clock), steps); p.nextConn == |p.leases| + |p.host.idle|
  {
    InitOk(config, clock);
    RunPopulation(Init(config, clock), steps, clock);
  }
}
