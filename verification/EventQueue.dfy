/** The queue between the two threads (app/core/EventQueue.cpp).  Each method is what one call does while it
    holds the lock; waiting and waking are in module Interleaving. */
module EventQueue {
  import opened LogLevel

  datatype Event = Write(level: Level, message: string) | SetLevel(level: Level)

  /** One evaluation of the wait condition in `pop`: the caller must wait, or takes the front event, or learns
      that nothing will come any more. */
  datatype Popped = MustWait | Took(event: Event) | Finished

  function Attempt(queue: seq<Event>, closed: bool): Popped {
    if queue != [] then Took(queue[0]) else if closed then Finished else MustWait
  }

  class EventQueue {
    var queue: seq<Event>
    var closed: bool

    constructor ()
      ensures queue == [] && !closed
    {
      queue, closed := [], false;
    }

    method Push(event: Event) returns (ok: bool)
      modifies this`queue
      ensures ok <==> !closed
      ensures queue == if ok then old(queue) + [event] else old(queue)
    {
      if closed {
        return false;
      }
      queue := queue + [event];
      return true;
    }

    /** Several pushes in a row. */
    method PushAll(events: seq<Event>)
      requires !closed
      modifies this`queue
      ensures queue == old(queue) + events
    {
      for i := 0 to |events|
        invariant queue == old(queue) + events[..i]
      {
        var ok := Push(events[i]);
        assert events[..i + 1] == events[..i] + [events[i]];
      }
      assert events[..|events|] == events;
    }

    method TryPop() returns (r: Popped)
      modifies this`queue
      ensures r == Attempt(old(queue), closed)
      ensures r.Took? <==> old(queue) != []
      ensures r.MustWait? <==> old(queue) == [] && !closed
      ensures if r.Took? then old(queue) == [r.event] + queue else queue == old(queue)
    {
      if !(closed || queue != []) {
        return MustWait;
      }
      if queue == [] {
        return Finished;
      }
      r := Took(queue[0]);
      queue := queue[1..];
    }

    /** Refuses new events but keeps the queued ones. */
    method Close()
      modifies this`closed
      ensures closed
    {
      if closed {
        return;
      }
      closed := true;
    }
  }
}
