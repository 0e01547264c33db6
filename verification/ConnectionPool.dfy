/** The pool object with one bookkeeping record per endpoint, and the lease that gives its
    slot back. The executor's other coroutines only run between these calls. */
module ConnectionPool {
  import opened Options
  import opened PoolHost

  datatype EndpointKey = EndpointKey(hostOrPath: string, port: string)

  /** `hosts_[key]` creates a default entry. */
  function HostAt(hosts: map<EndpointKey, Host>, key: EndpointKey): Host
  {
    if key in hosts then hosts[key] else NEW_HOST
  }

  class Pool {
    const config: Config
    var hosts: map<EndpointKey, Host>

    constructor (config: Config)
      ensures this.config == config && hosts == map[]
    {
      this.config := config;
      hosts := map[];
    }

    /** `extractIdleConnection` on the idle vector of one host. */
    method ExtractIdle(idle0: seq<IdleEntry>, now: Time) returns (found: Option<Conn>, idle: seq<IdleEntry>)
      ensures (found, idle) == Extract(idle0, now, config.idleTimeout)
    {
      idle := idle0;
      while idle != []
        invariant Extract(idle, now, config.idleTimeout) == Extract(idle0, now, config.idleTimeout)
        decreases |idle|
      {
        var entry := idle[|idle| - 1];
        idle := idle[..|idle| - 1];
        if now - entry.lastUsed <= config.idleTimeout {
          return Some(entry.conn), idle;
        }
      }
      found := None;
    }

    /** One turn of the loop in `acquire`, up to the suspension or the return. */
    method AcquireTurn(key: EndpointKey, task: Task, start: Time) returns (outcome: Outcome)
      modifies this
      ensures (HostAt(hosts, key), outcome) == Turn(HostAt(old(hosts), key), config, task, start)
      ensures hosts == old(hosts)[key := HostAt(hosts, key)]
    {
      var state := if key in hosts then hosts[key] else NEW_HOST;
      var found, idle := ExtractIdle(state.idle, start);
      state := state.(idle := idle);
      if found.Some? {
        hosts := hosts[key := state.(active := state.active + 1)];
        return Reuse(found.value);
      }
      if state.active < config.maxPerHost {
        hosts := hosts[key := state.(active := state.active + 1)];
        return Connect;
      }
      hosts := hosts[key := state.(waiters := state.waiters + [task])];
      return Wait;
    }

    /** The waiter popped here is the one whose timer is cancelled. */
    method NotifyWaiter(key: EndpointKey) returns (woken: Option<Task>)
      modifies this
      ensures hosts == if key in old(hosts) then old(hosts)[key := PopWaiter(old(hosts)[key])] else old(hosts)
      ensures woken == if HostAt(old(hosts), key).waiters == [] then None else Some(HostAt(old(hosts), key).waiters[0])
    {
      woken := None;
      if key in hosts && hosts[key].waiters != [] {
        var state := hosts[key];
        woken := Some(state.waiters[0]);
        hosts := hosts[key := state.(waiters := state.waiters[1..])];
      }
    }

    method ReturnConnection(key: EndpointKey, client: Option<Conn>, valid: bool, now: Time)
      returns (woken: Option<Task>)
      modifies this
      ensures var kept := if valid && client.Some? then Some(IdleEntry(client.value, now)) else None;
        hosts == if key in old(hosts) then old(hosts)[key := Returned(old(hosts)[key], kept)] else old(hosts)
      ensures woken == if HostAt(old(hosts), key).waiters == [] then None else Some(HostAt(old(hosts), key).waiters[0])
    {
      if key !in hosts {
        return None;
      }
      var state := hosts[key];
      if state.active > 0 {
        state := state.(active := state.active - 1);
      }
      if valid && client.Some? {
        state := state.(idle := state.idle + [IdleEntry(client.value, now)]);
      }
      hosts := hosts[key := state];
      woken := NotifyWaiter(key);
    }

    /** The failing end of `createNewConnection`. */
    method ConnectFailed(key: EndpointKey) returns (woken: Option<Task>)
      modifies this
      ensures hosts == old(hosts)[key := Returned(HostAt(old(hosts), key), None)]
      ensures woken == if HostAt(old(hosts), key).waiters == [] then None else Some(HostAt(old(hosts), key).waiters[0])
    {
      var state := if key in hosts then hosts[key] else NEW_HOST;
      if state.active > 0 {
        state := state.(active := state.active - 1);
      }
      hosts := hosts[key := state];
      woken := NotifyWaiter(key);
    }

    /** The timed-out end of `waitForAvailableSlot`. */
    method RemoveWaiter(key: EndpointKey, task: Task)
      modifies this
      ensures var h := HostAt(old(hosts), key);
        hosts == old(hosts)[key := h.(waiters := Without(h.waiters, task))]
    {
      var state := if key in hosts then hosts[key] else NEW_HOST;
      var kept: seq<Task> := [];
      for i := 0 to |state.waiters|
        invariant kept + Without(state.waiters[i..], task) == Without(state.waiters, task)
      {
        assert state.waiters[i..][1..] == state.waiters[i + 1..];
        if state.waiters[i] != task {
          kept := kept + [state.waiters[i]];
        }
      }
      assert state.waiters[|state.waiters|..] == [] && kept + [] == kept;
      hosts := hosts[key := state.(waiters := kept)];
    }
  }

  class PooledConnection {
    var pool: Pool?
    var key: EndpointKey
    var client: Option<Conn>
    var valid: bool

    ghost predicate Live()
      reads this
    {
      pool != null && client.Some?
    }

    constructor (pool: Pool, key: EndpointKey, client: Conn)
      ensures Live() && this.pool == pool && this.key == key && this.client == Some(client) && valid
    {
      this.pool, this.key, this.client, this.valid := pool, key, Some(client), true;
    }

    /** Move construction empties the source. */
    constructor MoveFrom(other: PooledConnection)
      modifies other
      ensures pool == old(other.pool) && key == old(other.key)
        && client == old(other.client) && valid == old(other.valid)
      ensures other.pool == null && other.client.None? && !other.valid
    {
      pool, key, client, valid := other.pool, other.key, other.client, other.valid;
      new;
      other.pool, other.client, other.valid := null, None, false;
    }

    /** Move assignment gives back what the target held before. */
    method MoveAssign(other: PooledConnection, now: Time)
      modifies this, pool, other
      ensures other == this ==>
        && pool == old(pool) && key == old(key) && client == old(client) && valid == old(valid)
        && (pool != null ==> pool.hosts == old(pool.hosts))
      ensures other != this && !old(Live()) && old(pool) != null ==> old(pool).hosts == old(pool.hosts)
      ensures other != this ==>
        && pool == old(other.pool) && key == old(other.key) && client == old(other.client) && valid == old(other.valid)
        && other.pool == null && other.client.None? && !other.valid
        && (old(Live()) ==>
              var kept := if old(valid) then Some(IdleEntry(old(client).value, now)) else None;
              old(pool).hosts == if old(key) in old(pool.hosts)
                                 then old(pool.hosts)[old(key) := Returned(old(pool.hosts)[old(key)], kept)]
                                 else old(pool.hosts))
    {
      if other != this {
        Release(now);
        pool, key, client, valid := other.pool, other.key, other.client, other.valid;
        other.pool, other.client, other.valid := null, None, false;
      }
    }

    method MarkInvalid()
      modifies this`valid
      ensures !valid
    {
      valid := false;
    }

    /** The slot goes back exactly if the lease is live, and the connection is kept exactly if
        the lease is still valid. Afterwards the lease is empty. */
    method Release(now: Time)
      modifies this, pool
      ensures !Live() && client.None? && !valid && pool == if old(Live()) then null else old(pool)
      ensures old(Live()) ==>
        var p := old(pool);
        var kept := if old(valid) then Some(IdleEntry(old(client).value, now)) else None;
        p.hosts == if old(key) in old(pool.hosts)
          then old(pool.hosts)[old(key) := Returned(old(pool.hosts)[old(key)], kept)]
                   else old(pool.hosts)
      ensures !old(Live()) && old(pool) != null ==> old(pool).hosts == old(pool.hosts)
    {
      if pool != null && client.Some? {
        var _ := pool.ReturnConnection(key, client, valid, now);
        pool := null;
      }
      client := None;
      valid := false;
    }

    /** Hands the connection to the caller; the slot goes back without it. */
    method ReleaseClient(now: Time) returns (c: Option<Conn>)
      modifies this, pool
      ensures !Live() && pool == null && client == None && !valid && c == old(client)
      ensures old(pool) != null ==>
        old(pool).hosts == if old(key) in old(pool.hosts)
                           then old(pool.hosts)[old(key) := Returned(old(pool.hosts)[old(key)], None)]
                           else old(pool.hosts)
    {
      valid := false;
      if pool != null {
        var _ := pool.ReturnConnection(key, None, false, now);
        pool := null;
      }
      c := client;
      client := None;
    }
  }
}
