/** The event queue as an object on top of its task queue. */
module EventQueueObject {
  import opened TaskQueueObject
  import opened EventQueue

  class Events {
    var events: map<uint64, string>
    const tasks: Tasks<Job>

    ghost function View(): World
      reads this, tasks
    {
      World(tasks.View(), events)
    }

    constructor (maxClients: nat, endpoint: bool)
      ensures fresh(tasks) && View() == Init(maxClients, endpoint)
    {
      events := map[];
      tasks := new Tasks(maxClients, endpoint);
    }

    method Add(id: uint64, event: string)
      modifies this, tasks
      ensures View() == EventQueue.Next(old(View()), AddEvent(id, event))
    {
      events := events[id := event];
      tasks.Add(Send(id, event), false);
    }

    method RemoveEvent(id: uint64)
      modifies this`events
      ensures events == old(events) - {id}
    {
      events := events - {id};
    }

    method ResendEvent(id: uint64, now: uint64)
      modifies this`events, tasks
      ensures View() == Resend(old(View()), id, now)
    {
      if id !in events {
        events := events[id := ""];
      }
      var event := events[id];
      if Expired(now, id) {
        RemoveEvent(id);
        assert old(events)[id := ""] - {id} == old(events) - {id};
        return;
      }
      assert old(events)[id := Lookup(old(events), id)] == events;
      tasks.Add(Send(id, event), true);
    }

    /** A failed write, header or provider: re-queue, then let `handleTask` see the error. */
    method OnSendFailed(i: nat, now: uint64, closed: set<nat>)
      requires i < |tasks.pending| && tasks.pending[i].Working? && tasks.pending[i].task.Send?
      modifies this, tasks
      ensures View() == SendFailed(old(View()), i, now, closed)
    {
      ResendEvent(tasks.pending[i].task.id, now);
      tasks.FinishHandleTask(i, false, closed);
    }

    /** The peer answered Done. */
    method OnDone(i: nat)
      requires Sending(tasks.View(), i, READING_HEADER)
      modifies this, tasks
      ensures View() == EventQueue.Next(old(View()), HeaderRead(i, Done, 0, {}))
    {
      RemoveEvent(tasks.pending[i].task.id);
      tasks.FinishHandleTask(i, true, {});
    }
  }
}
