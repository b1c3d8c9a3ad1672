/** The gateway's fan-out broker: a set of client channels, each with a buffer of ten. */
module Broker {
  import opened Ledger
  import opened Timestamps

  const CAPACITY: nat := 10

  datatype StockEvent = StockEvent(eventType: string, sku: string, available: Int32, reserved: Int32,
                                   status: string, occurredAt: Time)

  /** A send that does not wait: a full buffer stays as it is. */
  function Offer<T>(buf: seq<T>, event: T): seq<T> {
    if |buf| < CAPACITY then buf + [event] else buf
  }

  class Channel {
    var buf: seq<StockEvent>
    var closed: bool

    constructor ()
      ensures buf == [] && !closed
    {
      buf, closed := [], false;
    }

    /** Sending on a closed channel panics, even in a select with a default. */
    method TrySend(event: StockEvent)
      requires !closed
      modifies this`buf
      ensures buf == Offer(old(buf), event)
      ensures buf == if |old(buf)| < 10 then old(buf) + [event] else old(buf)
    {
      if |buf| < CAPACITY {
        buf := buf + [event];
      }
    }

    /** Closing twice panics. */
    method Close()
      requires !closed
      modifies this`closed
      ensures closed
    {
      closed := true;
    }
  }

  class Broker {
    var clients: set<Channel>

    ghost predicate Valid()
      reads this, clients
    {
      forall ch :: ch in clients ==> !ch.closed && |ch.buf| <= CAPACITY
    }

    constructor ()
      ensures Valid() && clients == {}
    {
      clients := {};
    }

    method Subscribe() returns (ch: Channel)
      requires Valid()
      modifies this
      ensures Valid() && fresh(ch) && clients == old(clients) + {ch} && ch.buf == [] && !ch.closed
    {
      ch := new Channel();
      clients := clients + {ch};
    }

    /** What a subscriber does on its way out: off the list first, closed second. */
    method Unsubscribe(ch: Channel)
      requires Valid() && !ch.closed
      modifies this, ch`closed
      ensures Valid() && clients == old(clients) - {ch} && ch.closed
    {
      clients := clients - {ch};
      ch.Close();
    }

    /** Every client is offered the event exactly once, whatever order the map is ranged over. */
    method Publish(event: StockEvent)
      requires Valid()
      modifies clients
      ensures Valid() && clients == old(clients)
      ensures forall ch :: ch in clients ==> ch.buf == Offer(old(ch.buf), event)
      ensures forall ch :: ch in clients ==>
                ch.buf == if |old(ch.buf)| < 10 then old(ch.buf) + [event] else old(ch.buf)
    {
      var todo := clients;
      while todo != {}
        invariant todo <= clients
        invariant forall ch :: ch in clients ==>
          !ch.closed && ch.buf == if ch in todo then old(ch.buf) else Offer(old(ch.buf), event)
        decreases todo
      {
        var ch :| ch in todo;
        ch.TrySend(event);
        todo := todo - {ch};
      }
    }
  }
}
