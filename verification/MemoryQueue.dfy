/** The bounded task queue. Each operation is one atomic step. */
module MemoryQueue {
  import opened TaskStore

  datatype DequeueResult = Item(id: TaskId) | QueueClosed | Canceled | Blocked

  class Queue {
    const capacity: nat
    var items: seq<TaskId>
    var closed: bool

    ghost predicate Valid()
      reads this
    {
      capacity >= 1 && |items| <= capacity
    }

    function Free(): nat
      reads this
    {
      if closed || |items| >= capacity then 0 else capacity - |items|
    }

    constructor (size: int)
      ensures Valid() && items == [] && !closed && capacity == if size <= 0 then 1 else size
    {
      capacity := if size <= 0 then 1 else size;
      items := [];
      closed := false;
    }

    method TryEnqueue(id: TaskId) returns (ok: bool)
      requires Valid()
      modifies this
      ensures Valid() && closed == old(closed)
      ensures ok <==> old(Free()) > 0
      ensures items == if ok then old(items) + [id] else old(items)
    {
      if closed {
        return false;
      }
      ok := |items| < capacity;
      if ok {
        items := items + [id];
      }
    }

    /** A closed queue still hands out what it holds, and only then reports that it is
        closed; an open empty one blocks. A done context may win over an available item. */
    method Dequeue(contextDone: bool) returns (r: DequeueResult)
      requires Valid()
      modifies this
      ensures Valid() && closed == old(closed)
      ensures r.Item? ==> old(items) == [r.id] + items
      ensures !r.Item? ==> items == old(items)
      ensures r.QueueClosed? ==> closed && items == []
      ensures r.Blocked? ==> !closed && items == [] && !contextDone
      ensures r.Canceled? ==> contextDone
    {
      var contextWins := *;
      if contextDone && contextWins {
        r := Canceled;
      } else if items != [] {
        r := Item(items[0]);
        items := items[1..];
      } else if closed {
        r := QueueClosed;
      } else if contextDone {
        r := Canceled;
      } else {
        r := Blocked;
      }
    }

    method Close()
      requires Valid()
      modifies this
      ensures Valid() && closed && items == old(items)
    {
      closed := true;
    }
  }
}
