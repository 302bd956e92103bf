/** The lock-protected FIFO under both of the bridge's queues. Every method holds the lock for its
    whole body, so it is one atomic step; `OutboundProtocol` interleaves these steps. */
module ThreadSafeQueues {

  class ThreadSafeQueue<T> {
    var items: seq<T>

    constructor ()
      ensures items == []
    {
      items := [];
    }

    method Push(item: T)
      modifies this
      ensures items == old(items) + [item]
    {
      items := items + [item];
    }

    // `std::queue::pop` on an empty queue is undefined: the caller has to know better.
    method Pop()
      requires items != []
      modifies this
      ensures items == old(items)[1..]
    {
      items := items[1..];
    }

    method Front() returns (item: T)
      requires items != []
      ensures item == items[0]
    {
      item := items[0];
    }

    method Empty() returns (empty: bool)
      ensures empty <==> items == []
    {
      empty := |items| == 0;
    }
  }
}
