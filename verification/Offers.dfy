/** internal/queue/queue.go: what the callers of Enqueue see of a run of the pool. */
module Offers {
  import opened Words
  import opened Store
  import opened Queue
  import opened Pool
  import opened PoolRun
  import opened Shutdown

  /** The calls of Enqueue that a step of producer `pid` completes. A send on a closed channel
      does not return. */
  ghost function Completed(s: System, step: Step, pid: nat): seq<Offer>
    requires Enabled(s, step)
  {
    match step
    case Check(p, e) => if p == pid && s.closed then [Offer(e, ErrClosed)] else []
    case Send(p) =>
      if p != pid || s.channelClosed then []
      else [Offer(s.producers[p], if |s.queue| < s.capacity then Accepted else ErrFull)]
    case _ => []
  }

  /** All completed calls of a producer, in order, whatever else went on in between. */
  ghost function OffersOf(start: System, steps: seq<Step>, pid: nat): seq<Offer>
    requires Possible(start, steps)
    decreases |steps|
  {
    if steps == [] then []
    else OffersOf(start, Front(steps), pid) + Completed(After(start, Front(steps)), Last(steps), pid)
  }

  /** The events that all other producers got accepted, in order. */
  ghost function TakenFromOthers(start: System, steps: seq<Step>, pid: nat): seq<Event>
    requires Possible(start, steps)
    decreases |steps|
  {
    if steps == [] then []
    else
      var s, step := After(start, Front(steps)), Last(steps);
      TakenFromOthers(start, Front(steps), pid)
      + if step.Send? && step.pid != pid then Taken(Completed(s, step, step.pid)) else []
  }

  lemma {:induction false} TakenOfBoth(first: seq<Offer>, second: seq<Offer>)
    ensures Taken(first + second) == Taken(first) + Taken(second)
  {
    if second == [] {
      assert first + second == first;
    } else {
      TakenOfBoth(first, Front(second));
      assert Front(first + second) == first + Front(second);
    }
  }

  lemma OneTaken(o: Offer)
    ensures Taken([o]) == if o.answer == Accepted then [o.event] else []
  {
    assert Front([o]) == [];
  }

  lemma SendAccepts(s: System, pid: nat)
    requires Enabled(s, Send(pid))
    ensures Take(s, Send(pid)).accepted == s.accepted + multiset(Taken(Completed(s, Send(pid), pid)))
  {
    if !s.channelClosed {
      OneTaken(Completed(s, Send(pid), pid)[0]);
    }
  }

  lemma OthersAcceptNothing(s: System, step: Step, pid: nat)
    requires Enabled(s, step) && !step.Send?
    ensures Take(s, step).accepted == s.accepted && Taken(Completed(s, step, pid)) == []
  {
    if step.Check? {
      OneTaken(Offer(step.e, ErrClosed));
    }
  }

  lemma StepAccepts(s: System, step: Step, pid: nat)
    requires Enabled(s, step)
    ensures Take(s, step).accepted == s.accepted + multiset(Taken(Completed(s, step, pid)))
              + multiset(if step.Send? && step.pid != pid then Taken(Completed(s, step, step.pid)) else [])
  {
    if step.Send? {
      SendAccepts(s, step.pid);
    } else {
      OthersAcceptNothing(s, step, pid);
    }
  }

  /** What the queue accepted is what this producer and the others got accepted. */
  lemma {:induction false} AcceptedFromBoth(start: System, steps: seq<Step>, pid: nat)
    requires Initial(start) && Possible(start, steps)
    ensures After(start, steps).accepted
         == multiset(Taken(OffersOf(start, steps, pid))) + multiset(TakenFromOthers(start, steps, pid))
  {
    if steps != [] {
      var s, step := After(start, Front(steps)), Last(steps);
      AcceptedFromBoth(start, Front(steps), pid);
      StepAccepts(s, step, pid);
      TakenOfBoth(OffersOf(start, Front(steps), pid), Completed(s, step, pid));
    }
  }

  // ---- The queue itself ----

  /** The queue object, between calls, is the channel of the pool. */
  ghost predicate IsQueueOf(q: Memory, s: System)
    reads q
  {
    && q.Valid() && !s.panicked && s.queue == q.buffer && s.capacity == q.size
    && s.closed == s.channelClosed == q.closed
  }

  lemma OneCompleted(s: System, step: Step, pid: nat)
    requires Enabled(s, step)
    ensures Possible(s, [step]) && OffersOf(s, [step], pid) == Completed(s, step, pid)
  {
    OneStep(s, step);
    assert Front([step]) == [];
  }

  lemma TwoCompleted(s: System, step: Step, next: Step, pid: nat)
    requires Enabled(s, step) && Enabled(Take(s, step), next) && Completed(s, step, pid) == []
    ensures Leads(s, [step, next], Take(Take(s, step), next))
    ensures OffersOf(s, [step, next], pid) == Completed(Take(s, step), next, pid)
  {
    OneStep(s, step);
    OneCompleted(s, step, pid);
    assert Front([step, next]) == [step];
  }

  /** A call of Enqueue that runs alone is a run of the pool, with the same answer: accepted
      when there is room, refused when there is none or after Close. */
  method EnqueueAlone(q: Memory, e: Event, ghost s: System, ghost pid: nat)
    returns (answer: Answer, ghost steps: seq<Step>, ghost s': System)
    requires IsQueueOf(q, s) && pid !in s.producers
    modifies q
    ensures IsQueueOf(q, s') && Leads(s, steps, s') && OffersOf(s, steps, pid) == [Offer(e, answer)]
    ensures answer == if s.closed then ErrClosed else if |s.queue| < s.capacity then Accepted else ErrFull
    ensures s' == if answer != Accepted then s
                  else s.(queue := s.queue + [e], accepted := s.accepted + multiset{e})
  {
    answer := q.Enqueue(e);
    var check := Check(pid, e);
    if s.closed {
      OneStep(s, check);
      OneCompleted(s, check, pid);
      steps, s' := [check], s;
    } else {
      TwoCompleted(s, check, Send(pid), pid);
      steps, s' := [check, Send(pid)], Take(Take(s, check), Send(pid));
      assert s'.producers == s.producers;
    }
  }

  /** A receive of a worker that collects: the oldest queued event joins its batch; a receive
      that would block is no step of the pool; the end of the channel is the worker's end. */
  method ReceiveAlone(q: Memory, ghost s: System, ghost w: nat)
    returns (waits: bool, ok: bool, e: Event, ghost s': System)
    requires IsQueueOf(q, s) && w < |s.workers| && s.workers[w].Filling?
    modifies q
    ensures IsQueueOf(q, s') && |s'.workers| == |s.workers|
    ensures waits ==> s' == s && !Enabled(s, Receive(w)) && !Enabled(s, ReceiveClosed(w))
    ensures !waits && ok ==>
      && Leads(s, [Receive(w)], s') && s.queue == [e] + s'.queue
      && InBatch(s'.workers[w]) == s.workers[w].batch + [e]
      && (s'.workers[w].Flushing? <==> |s.workers[w].batch| + 1 >= s.batchSize)
    ensures !waits && !ok ==>
      && Leads(s, [ReceiveClosed(w)], s') && s.queue == [] && InBatch(s'.workers[w]) == s.workers[w].batch
      && (s'.workers[w].Exited? <==> s.workers[w].batch == [])
  {
    waits, ok, e := q.Receive();
    s' := s;
    if !waits {
      var step := if ok then Receive(w) else ReceiveClosed(w);
      OneStep(s, step);
      s' := Take(s, step);
    }
  }

  /** A call of Close that runs alone: queued events stay, and closing again changes nothing. */
  method CloseAlone(q: Memory, ghost s: System) returns (ghost steps: seq<Step>, ghost s': System)
    requires IsQueueOf(q, s)
    modifies q
    ensures IsQueueOf(q, s') && Leads(s, steps, s') && s' == s.(closed := true, channelClosed := true)
  {
    q.Close();
    OneStep(s, SetClosed);
    if s.channelClosed {
      steps, s' := [SetClosed], s;
    } else {
      TwoCompleted(s, SetClosed, CloseChannel, 0);
      steps, s' := [SetClosed, CloseChannel], Take(Take(s, SetClosed), CloseChannel);
    }
  }
}
