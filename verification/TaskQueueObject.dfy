/** The task queue as an object updated in place. */
module TaskQueueObject {
  import opened TaskQueue

  class Tasks<T> {
    var tasks: seq<T>
    var clients: seq<Client>
    var endpoint: bool
    const maxClients: nat
    var pending: seq<Coroutine<T>>  // what the executor holds for this queue
    var nextClient: nat
    ghost var added: seq<T>
    ghost var started: seq<T>
    ghost var finished: seq<T>

    ghost function View(): Queue<T>
      reads this
    {
      Queue(tasks, clients, endpoint, maxClients, pending, nextClient, added, started, finished)
    }

    constructor (maxClients: nat, endpoint: bool)
      ensures View() == New(maxClients, endpoint)
    {
      tasks, clients, pending, nextClient := [], [], [], 0;
      this.endpoint, this.maxClients := endpoint, maxClients;
      added, started, finished := [], [], [];
    }

    method CoSpawn(c: Coroutine<T>)
      modifies this`pending
      ensures View() == Spawn(old(View()), c)
    {
      pending := pending + [c];
    }

    method SetEndPoint(isSet: bool)
      modifies this
      ensures View() == Next(old(View()), TaskQueue.SetEndPoint(isSet))
    {
      endpoint := isSet;
      CoSpawn(Process);
    }

    method Add(task: T, front: bool)
      modifies this
      ensures View() == AddTask(old(View()), task, front)
    {
      var processNow := |tasks| < maxClients;
      if front {
        tasks := [task] + tasks;
      } else {
        tasks := tasks + [task];
      }
      added := added + [task];
      if processNow {
        CoSpawn(Process);
      }
    }

    method TakeTask() returns (task: T)
      requires tasks != []
      modifies this`tasks, this`started
      ensures task == old(tasks)[0] && tasks == old(tasks)[1..] && started == old(started) + [task]
    {
      task := tasks[0];
      tasks := tasks[1..];
      started := started + [task];
    }

    /** `getFreeClient`: the first free client, now taken. */
    method GetFreeClient() returns (found: bool, id: nat)
      modifies this`clients
      ensures var k := FreeClient(old(clients), 0);
        && found == (k < |old(clients)|)
        && (found ==> id == old(clients)[k].id && clients == old(clients)[k := old(clients)[k].(available := false)])
        && (!found ==> clients == old(clients))
    {
      for i := 0 to |clients|
        invariant clients == old(clients)
        invariant FreeClient(clients, i) == FreeClient(clients, 0)
      {
        if clients[i].available {
          id := clients[i].id;
          clients := clients[i := clients[i].(available := false)];
          return true, id;
        }
      }
      return false, 0;
    }

    method SetClient(id: nat, available: bool)
      modifies this`clients
      ensures clients == SetAvailable(old(clients), id, available)
    {
      clients := seq(|clients|, i requires 0 <= i < |clients| reads this =>
        if clients[i].id == id then Client(id, available) else clients[i]);
    }

    method RemoveClient(id: nat, closed: set<nat>)
      modifies this`clients
      ensures clients == RemoveClients(old(clients), id, closed)
    {
      var kept: seq<Client> := [];
      for i := 0 to |clients|
        invariant clients == old(clients)
        invariant kept + RemoveClients(clients[i..], id, closed) == RemoveClients(clients, id, closed)
      {
        assert clients[i..][1..] == clients[i + 1..];
        if clients[i].id != id && clients[i].id !in closed {
          kept := kept + [clients[i]];
        }
      }
      assert clients[|clients|..] == [] && kept + [] == kept;
      clients := kept;
    }

    method End(i: nat)
      requires i < |pending|
      modifies this`pending
      ensures View() == Ended(old(View()), i)
    {
      pending := pending[..i] + pending[i + 1..];
    }

    method ProcessTasks(i: nat)
      requires i < |pending| && pending[i].Process?
      modifies this
      ensures View() == Processed(old(View()), i)
    {
      End(i);
      if !endpoint || tasks == [] {
        return;
      }
      var found, id := GetFreeClient();
      if found {
        var task := TakeTask();
        CoSpawn(Handle(task, id));
      } else if |clients| < maxClients {
        id := nextClient;
        nextClient := nextClient + 1;
        CoSpawn(Connecting(id));
      } else {
        CoSpawn(Backoff);
      }
    }

    method OnConnected(i: nat)
      requires i < |pending| && pending[i].Connecting?
      modifies this
      ensures View() == AfterConnect(old(View()), i)
    {
      var id := pending[i].client;
      End(i);
      if tasks == [] {
        clients := clients + [Client(id, true)];
        CoSpawn(Backoff);
      } else {
        clients := clients + [Client(id, false)];
        var task := TakeTask();
        CoSpawn(Handle(task, id));
      }
    }

    method StartHandleTask(i: nat)
      requires i < |pending| && pending[i].Handle?
      modifies this
      ensures View() == Next(old(View()), StartHandle(i))
    {
      var c := pending[i];
      SetClient(c.client, false);
      pending := pending[i := Working(c.task, c.client, 0)];
    }

    /** The rest of `handleTask` after the task has returned. */
    method FinishHandleTask(i: nat, ok: bool, closed: set<nat>)
      requires i < |pending| && pending[i].Working?
      modifies this
      ensures View() == if ok then Succeeded(old(View()), i) else Failed(old(View()), i, closed)
    {
      var c := pending[i];
      End(i);
      finished := finished + [c.task];
      if ok {
        SetClient(c.client, true);
        if tasks != [] {
          var task := TakeTask();
          CoSpawn(Handle(task, c.client));
        }
      } else {
        RemoveClient(c.client, closed);
        CoSpawn(Process);
      }
    }
  }
}
