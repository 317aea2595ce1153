/** internal/queue/queue.go: the bounded queue as seen by callers that do not race. */
module Queue {
  import opened Words
  import opened Store

  /** What Enqueue answers. */
  datatype Answer = Accepted | ErrFull | ErrClosed | ErrUnavailable | OtherError

  /** One call of Enqueue and its answer. */
  datatype Offer = Offer(event: Event, answer: Answer)

  /** The events of the calls that succeeded, in order. */
  function Taken(offers: seq<Offer>): seq<Event> {
    if offers == [] then []
    else Taken(Front(offers)) + if Last(offers).answer == Accepted then [Last(offers).event] else []
  }

  /** A buffered channel of `size` events and the closed flag; `sent` and `received` are all
      events that ever went in and came out. */
  class Memory {
    const size: nat
    var buffer: seq<Event>
    var closed: bool
    ghost var sent: seq<Event>
    ghost var received: seq<Event>

    /** What went in comes out, in order, or is still there. */
    ghost predicate Valid()
      reads this
    {
      |buffer| <= size && sent == received + buffer
    }

    constructor (size: nat)
      ensures Valid() && this.size == size && buffer == [] && sent == [] && !closed
    {
      this.size := size;
      buffer, closed, sent, received := [], false, [], [];
    }

    method Enqueue(e: Event) returns (answer: Answer)
      requires Valid()
      modifies this
      ensures Valid() && closed == old(closed) && received == old(received)
      ensures answer == if closed then ErrClosed else if |old(buffer)| < size then Accepted else ErrFull
      ensures buffer == if answer == Accepted then old(buffer) + [e] else old(buffer)
      ensures sent == if answer == Accepted then old(sent) + [e] else old(sent)
    {
      if closed {
        return ErrClosed;
      }
      if |buffer| < size {
        buffer, sent := buffer + [e], sent + [e];
        return Accepted;
      }
      return ErrFull;
    }

    /** A worker's receive: events come out in the order they went in; after Close the rest
        is still delivered, then `ok` is false. `waits` is a receive that would block. */
    method Receive() returns (waits: bool, ok: bool, e: Event)
      requires Valid()
      modifies this
      ensures Valid() && closed == old(closed) && sent == old(sent)
      ensures received == if ok then old(received) + [e] else old(received)
      ensures if old(buffer) != [] then !waits && ok && [e] + buffer == old(buffer)
              else buffer == [] && !ok && waits == !closed
    {
      if buffer == [] {
        return !closed, false, Event([], [], [], [], 0);
      }
      waits, ok, e := false, true, buffer[0];
      buffer, received := buffer[1..], received + [e];
    }

    /** The fill level: how many accepted events have not been received yet. */
    method Depth() returns (n: nat)
      requires Valid()
      ensures n == |sent| - |received| && n <= size
    {
      n := |buffer|;
    }

    /** Closing twice is closing once; what is queued stays readable. */
    method Close()
      requires Valid()
      modifies this
      ensures Valid() && closed && buffer == old(buffer) && sent == old(sent) && received == old(received)
    {
      if !closed {
        closed := true;
      }
    }
  }

  lemma SameRest(first: seq<Event>, a: seq<Event>, b: seq<Event>)
    requires first + a == first + b
    ensures a == b
  {
    assert a == (first + a)[|first|..] && b == (first + b)[|first|..];
  }

  /** Everything read from a closed queue, to the end, is everything that was queued; then all
      that was ever accepted has been received, in order. */
  method Drain(q: Memory) returns (events: seq<Event>)
    requires q.Valid() && q.closed
    modifies q
    ensures q.Valid() && q.buffer == [] && q.received == q.sent == old(q.sent)
    ensures events == old(q.buffer)
  {
    events := [];
    ghost var before := q.received;
    var waits, ok, e := q.Receive();
    while ok
      invariant q.Valid() && q.closed && q.sent == old(q.sent)
      invariant q.received == before + events + (if ok then [e] else [])
      invariant !ok ==> q.buffer == []
      decreases |q.buffer| + if ok then 1 else 0
    {
      events := events + [e];
      waits, ok, e := q.Receive();
    }
    SameRest(before, events, old(q.buffer));
  }
}
