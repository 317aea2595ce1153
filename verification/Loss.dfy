/** internal/worker/worker.go: when the memory mode loses an accepted event. A batch whose
    attempts all fail is dropped, and one row that the schema does not take fails every attempt
    of its whole batch. */
module Loss {
  import opened Words
  import opened Store
  import opened Pool
  import opened Shutdown
  import opened PoolRun

  // ---- An accepted event can be lost ----

  lemma NothingWasApplied(attempts: seq<Attempt>, id: GoString)
    requires WellFormed(attempts) && forall i :: 0 <= i < |attempts| ==> attempts[i].reply == NotApplied
    ensures id !in Run(attempts).events
  {
    StoredExactly(attempts, id);
  }

  /** One event accepted, then Close. */
  ghost function AcceptedThenClosed(start: System, e: Event): System {
    start.(queue := [e], accepted := start.accepted + multiset{e}, closed := true, channelClosed := true)
  }

  lemma AcceptThenClose(start: System, e: Event)
    requires Initial(start) && start.capacity > 0
    ensures Leads(start, [Check(0, e), Send(0), SetClosed, CloseChannel], AcceptedThenClosed(start, e))
  {
    var s1 := start.(producers := map[0 := e]);
    var s2 := start.(queue := [e], accepted := start.accepted + multiset{e});
    var s3 := s2.(closed := true);
    OneStep(start, Check(0, e));
    assert s1.producers - {0} == map[];
    assert Take(s1, Send(0)) == s2;
    LeadsOn(start, [Check(0, e)], s1, Send(0));
    LeadsOn(start, [Check(0, e)] + [Send(0)], s2, SetClosed);
    LeadsOn(start, [Check(0, e)] + [Send(0)] + [SetClosed], s3, CloseChannel);
    assert [Check(0, e)] + [Send(0)] + [SetClosed] + [CloseChannel] == [Check(0, e), Send(0), SetClosed, CloseChannel];
  }

  /** For any settings and any event: a run in which the queue accepts it, no call of the
      database succeeds, and shutdown leaves nothing of it. */
  lemma AcceptedCanBeLost(start: System, e: Event) returns (steps: seq<Step>)
    requires Initial(start) && start.capacity > 0 && |start.workers| > 0
    ensures Possible(start, steps)
    ensures var s := After(start, steps);
            && AllExited(s) && e in s.accepted && e in s.dropped
            && e.id !in Run(s.attempts).events
  {
    var first := [Check(0, e), Send(0), SetClosed, CloseChannel];
    var s := AcceptedThenClosed(start, e);
    AcceptThenClose(start, e);
    InitialIsValid(start);
    RunKeepsValid(start, first);
    var rest := WaitReturns(s, _ => NotApplied);
    var s' := After(s, rest);
    LeadsJoin(start, first, s, rest, s');
    steps := first + rest;
    RunKeepsValid(s, rest);
    NothingWasApplied(s'.attempts, e.id);
    assert e in s'.flushed ==> e.id in Run(s'.attempts).events;
  }

  // ---- And exactly when nothing is ----

  lemma StoredAreAccepted(s: System)
    requires Valid(s)
    ensures Run(s.attempts).events.Keys <= AcceptedIds(s)
  {
    RunIsConsistent(s.attempts);
    forall id | id in Run(s.attempts).events
      ensures id in AcceptedIds(s)
    {
      assert Run(s.attempts).events[id] in Committed(s.attempts);
    }
  }

  ghost predicate AllApplied(s: System) {
    forall e :: e in s.accepted ==> WasApplied(s.attempts, e.id)
  }

  lemma AcceptedAreStoredExactly(s: System)
    requires Valid(s)
    ensures AcceptedIds(s) <= Run(s.attempts).events.Keys <==> AllApplied(s)
  {
    forall e | e in s.accepted
      ensures e.id in Run(s.attempts).events <==> WasApplied(s.attempts, e.id)
    {
      StoredExactly(s.attempts, e.id);
    }
  }

  /** In every reachable state, that after the last worker included: the stored ids are exactly
      the accepted ones if and only if every accepted id was in an attempt that was applied; and
      each stored id is counted once. */
  lemma NothingLostExactly(start: System, steps: seq<Step>)
    requires Initial(start) && Possible(start, steps)
    ensures var s := After(start, steps);
            && (Run(s.attempts).events.Keys == AcceptedIds(s) <==> AllApplied(s))
            && TotalInserted(s.attempts) == |Run(s.attempts).events|
  {
    InitialIsValid(start);
    RunKeepsValid(start, steps);
    var s := After(start, steps);
    StoredAreAccepted(s);
    AcceptedAreStoredExactly(s);
    RunIsConsistent(s.attempts);
  }

  /** In particular nothing is lost when no flush was reported with an error. */
  lemma NoDropsMeansApplied(start: System, steps: seq<Step>)
    requires Initial(start) && Possible(start, steps)
    requires var s := After(start, steps); s.workers != [] && AllExited(s) && s.dropped == multiset{}
    ensures AllApplied(After(start, steps))
  {
    InitialIsValid(start);
    RunKeepsValid(start, steps);
    var s := After(start, steps);
    ExitedMeansDrained(s);
    forall e | e in s.accepted
      ensures WasApplied(s.attempts, e.id)
    {
      assert e in s.flushed;
      StoredExactly(s.attempts, e.id);
    }
  }

  // ---- Doomed before the end ----

  /** The id is not stored, no copy of it in the queue can be inserted, and every batch that
      holds it holds a row that the schema does not take. */
  ghost predicate Doomed(s: System, id: GoString) {
    && !WasApplied(s.attempts, id)
    && (forall i :: 0 <= i < |s.queue| && s.queue[i].id == id ==> !s.takes(s.queue[i]))
    && (forall w :: 0 <= w < |s.workers| && id in Ids(InBatch(s.workers[w])) ==>
          !TakesAll(s.takes, InBatch(s.workers[w])))
  }

  ghost predicate NobodySends(s: System, id: GoString) {
    forall pid :: pid in s.producers ==> s.producers[pid].id != id
  }

  /** No step is a producer taking up the id again. */
  ghost predicate NotSentAgain(steps: seq<Step>, id: GoString) {
    forall i :: 0 <= i < |steps| && steps[i].Check? ==> steps[i].e.id != id
  }

  lemma IdsOfMore(batch: seq<Event>, e: Event, id: GoString)
    ensures id in Ids(batch + [e]) <==> id in Ids(batch) || e.id == id
  {
    assert Front(batch + [e]) == batch;
    IdsFront(batch + [e]);
  }

  lemma RefusedStays(takes: Event -> bool, batch: seq<Event>, e: Event)
    ensures TakesAll(takes, batch + [e]) <==> TakesAll(takes, batch) && takes(e)
  {
    assert forall x :: x in batch + [e] <==> x in batch || x == e;
  }

  lemma SendKeepsDoomed(s: System, step: Step, id: GoString)
    requires Enabled(s, step) && Doomed(s, id) && NobodySends(s, id)
    requires step.Send? || step.Check? || step.SetClosed? || step.CloseChannel?
    requires step.Check? ==> step.e.id != id
    ensures Doomed(Take(s, step), id) && NobodySends(Take(s, step), id)
  {
  }

  lemma ReceiveKeepsDoomed(s: System, w: nat, id: GoString)
    requires Enabled(s, Receive(w)) && Doomed(s, id)
    ensures Doomed(Take(s, Receive(w)), id) && Take(s, Receive(w)).producers == s.producers
  {
    var s' := Take(s, Receive(w));
    var batch, e := s.workers[w].batch, s.queue[0];
    assert InBatch(s'.workers[w]) == batch + [e];
    IdsOfMore(batch, e, id);
    RefusedStays(s.takes, batch, e);
    forall v | 0 <= v < |s'.workers| && id in Ids(InBatch(s'.workers[v]))
      ensures !TakesAll(s'.takes, InBatch(s'.workers[v]))
    {
      assert v != w ==> s'.workers[v] == s.workers[v];
    }
  }

  /** A step of one worker that keeps or empties its batch. */
  lemma WorkerKeepsDoomed(s: System, s': System, w: nat, id: GoString)
    requires Doomed(s, id) && w < |s.workers| && s'.queue == s.queue && s'.takes == s.takes
    requires !WasApplied(s'.attempts, id) && |s'.workers| == |s.workers| && s'.workers == s.workers[w := s'.workers[w]]
    requires InBatch(s'.workers[w]) == InBatch(s.workers[w]) || InBatch(s'.workers[w]) == []
    ensures Doomed(s', id)
  {
    assert Ids([]) == {};
  }

  lemma InsertKeepsDoomed(s: System, w: nat, rows: seq<Event>, reply: Reply, id: GoString)
    requires Enabled(s, TryInsert(w, rows, reply)) && Doomed(s, id)
    ensures var s' := Take(s, TryInsert(w, rows, reply)); Doomed(s', id) && s'.producers == s.producers
  {
    var s' := Take(s, TryInsert(w, rows, reply));
    InsertTouchesOne(s, w, rows, reply);
    WasAppliedNext(s.attempts, Attempt(s.workers[w].batch, rows, reply), id);
    WorkerKeepsDoomed(s, s', w, id);
  }

  lemma FlushKeepsDoomed(s: System, step: Step, id: GoString)
    requires Enabled(s, step) && Doomed(s, id) && (step.Tick? || step.ReceiveClosed?)
    ensures Doomed(Take(s, step), id) && Take(s, step).producers == s.producers
  {
    WorkerKeepsDoomed(s, Take(s, step), step.w, id);
  }

  lemma StepKeepsDoomed(s: System, step: Step, id: GoString)
    requires Enabled(s, step) && Doomed(s, id) && NobodySends(s, id) && (step.Check? ==> step.e.id != id)
    ensures Doomed(Take(s, step), id) && NobodySends(Take(s, step), id)
  {
    match step
    case Receive(w) => ReceiveKeepsDoomed(s, w, id);
    case TryInsert(w, rows, reply) => InsertKeepsDoomed(s, w, rows, reply, id);
    case ReceiveClosed(w) => FlushKeepsDoomed(s, step, id);
    case Tick(w) => FlushKeepsDoomed(s, step, id);
    case _ => SendKeepsDoomed(s, step, id);
  }

  lemma {:induction false} DoomedForGood(s: System, steps: seq<Step>, id: GoString)
    requires Possible(s, steps) && Doomed(s, id) && NobodySends(s, id) && NotSentAgain(steps, id)
    ensures Doomed(After(s, steps), id) && NobodySends(After(s, steps), id)
  {
    if steps != [] {
      DoomedForGood(s, Front(steps), id);
      StepKeepsDoomed(After(s, Front(steps)), Last(steps), id);
    }
  }

  // ---- Otherwise it can still be stored ----

  lemma OneTry(s: System, w: nat)
    requires !s.panicked && w < |s.workers| && s.workers[w].Flushing? && TakesAll(s.takes, s.workers[w].batch)
    ensures Enabled(s, TryInsert(w, Arrange(s.workers[w].batch), Ok))
    ensures var s' := Take(s, TryInsert(w, Arrange(s.workers[w].batch), Ok));
            forall id :: id in Ids(s.workers[w].batch) ==> WasApplied(s'.attempts, id)
  {
    var batch := s.workers[w].batch;
    var a := Attempt(batch, Arrange(batch), Ok);
    ArrangeIsOrdering(batch);
    forall id | id in Ids(batch)
      ensures WasApplied(s.attempts + [a], id)
    {
      WasAppliedNext(s.attempts, a, id);
    }
  }

  /** A batch that the schema takes can be stored: a tick and one successful attempt. */
  lemma StoreBatch(s: System, w: nat, id: GoString) returns (steps: seq<Step>)
    requires !s.panicked && w < |s.workers| && id in Ids(InBatch(s.workers[w]))
    requires TakesAll(s.takes, InBatch(s.workers[w]))
    ensures Possible(s, steps) && NotSentAgain(steps, id) && WasApplied(After(s, steps).attempts, id)
  {
    assert Ids([]) == {};
    var batch := s.workers[w].batch;
    var try := TryInsert(w, Arrange(batch), Ok);
    if s.workers[w].Flushing? {
      OneTry(s, w);
      OneStep(s, try);
      steps := [try];
    } else {
      var s1 := Take(s, Tick(w));
      OneStep(s, Tick(w));
      OneTry(s1, w);
      LeadsOn(s, [Tick(w)], s1, try);
      steps := [Tick(w)] + [try];
    }
  }

  /** The pool with worker `w` at an empty batch and the queue as it was. */
  ghost predicate Cleared(s: System, w: nat, s': System) {
    && !s'.panicked && |s'.workers| == |s.workers| && w < |s.workers| && s'.workers[w] == Filling([])
    && s'.queue == s.queue && s'.takes == s.takes
  }

  lemma ClearFlushing(s: System, w: nat) returns (steps: seq<Step>, s': System)
    requires !s.panicked && s.queue != [] && w < |s.workers| && s.workers[w].Flushing? && WorkerOk(s, s.workers[w])
    ensures Leads(s, steps, s') && Cleared(s, w, s') && OnlyTries(steps)
  {
    var batch := s.workers[w].batch;
    ArrangeIsOrdering(batch);
    var tries := Repeat(Attempt(batch, Arrange(batch), NotApplied), Left(s, w));
    steps := FlushLeads(s, w, tries, true);
    s' := Ended(s, w, tries, true);
  }

  /** A worker can always give up the batch it holds. */
  lemma ClearWorker(s: System, w: nat, id: GoString) returns (steps: seq<Step>, s': System)
    requires WithinLimits(s) && !s.panicked && s.queue != [] && w < |s.workers|
    ensures Leads(s, steps, s') && Cleared(s, w, s') && NotSentAgain(steps, id)
  {
    assert WorkerOk(s, s.workers[w]);
    if s.workers[w].Flushing? {
      steps, s' := ClearFlushing(s, w);
    } else if s.workers[w].batch == [] {
      steps, s' := [], s;
    } else {
      var s1 := Take(s, Tick(w));
      OneStep(s, Tick(w));
      StepKeepsLimits(s, Tick(w));
      assert WorkerOk(s1, s1.workers[w]);
      var rest;
      rest, s' := ClearFlushing(s1, w);
      LeadsJoin(s, [Tick(w)], s1, rest, s');
      steps := [Tick(w)] + rest;
    }
  }

  lemma NotSentInEither(first: seq<Step>, second: seq<Step>, id: GoString)
    requires NotSentAgain(first, id) && NotSentAgain(second, id)
    ensures NotSentAgain(first + second, id)
  {
  }

  /** Clear the worker and let it receive the head of the queue. */
  lemma ReceiveOne(s: System, w: nat, id: GoString) returns (steps: seq<Step>, s': System)
    requires WithinLimits(s) && !s.panicked && s.queue != [] && w < |s.workers|
    ensures Leads(s, steps, s') && NotSentAgain(steps, id)
    ensures !s'.panicked && |s'.workers| == |s.workers| && s'.takes == s.takes
    ensures s'.queue == s.queue[1..] && InBatch(s'.workers[w]) == [s.queue[0]]
  {
    var first, s1 := ClearWorker(s, w, id);
    s' := Take(s1, Receive(w));
    LeadsOn(s, first, s1, Receive(w));
    steps := first + [Receive(w)];
    assert [] + [s.queue[0]] == [s.queue[0]];
  }

  lemma StoreOne(s: System, w: nat, e: Event) returns (steps: seq<Step>)
    requires !s.panicked && w < |s.workers| && InBatch(s.workers[w]) == [e] && s.takes(e)
    ensures Possible(s, steps) && NotSentAgain(steps, e.id) && WasApplied(After(s, steps).attempts, e.id)
  {
    assert e in [e] && e.id in Ids([e]) && TakesAll(s.takes, [e]);
    steps := StoreBatch(s, w, e.id);
  }

  lemma StoredLater(s: System, first: seq<Step>, middle: System, rest: seq<Step>, id: GoString)
    requires Leads(s, first, middle) && NotSentAgain(first, id)
    requires Possible(middle, rest) && NotSentAgain(rest, id) && WasApplied(After(middle, rest).attempts, id)
    ensures Possible(s, first + rest) && NotSentAgain(first + rest, id)
    ensures WasApplied(After(s, first + rest).attempts, id)
  {
    LeadsJoin(s, first, middle, rest, After(middle, rest));
    NotSentInEither(first, rest, id);
  }

  /** A queued event that the schema takes can be stored: the events before it are received and
      flushed one by one, and it is flushed alone. */
  lemma {:induction false} StoreQueued(s: System, w: nat, j: nat, id: GoString) returns (steps: seq<Step>)
    requires Valid(s) && !s.panicked && w < |s.workers|
    requires j < |s.queue| && s.queue[j].id == id && s.takes(s.queue[j])
    ensures Possible(s, steps) && NotSentAgain(steps, id) && WasApplied(After(s, steps).attempts, id)
    decreases j
  {
    var first, s1 := ReceiveOne(s, w, id);
    var rest;
    if j == 0 {
      rest := StoreOne(s1, w, s.queue[0]);
    } else {
      RunKeepsValid(s, first);
      rest := StoreQueued(s1, w, j - 1, id);
    }
    StoredLater(s, first, s1, rest, id);
    steps := first + rest;
  }

  /** A continuation that stores the id without its being sent again. */
  ghost predicate Stores(s: System, steps: seq<Step>, id: GoString) {
    Possible(s, steps) && NotSentAgain(steps, id) && id in Run(After(s, steps).attempts).events
  }

  lemma HopefulCanStore(s: System, id: GoString) returns (steps: seq<Step>)
    requires Valid(s) && !s.panicked && |s.workers| > 0 && !Doomed(s, id)
    ensures Possible(s, steps) && NotSentAgain(steps, id) && WasApplied(After(s, steps).attempts, id)
  {
    if WasApplied(s.attempts, id) {
      steps := [];
    } else if exists j :: 0 <= j < |s.queue| && s.queue[j].id == id && s.takes(s.queue[j]) {
      var j :| 0 <= j < |s.queue| && s.queue[j].id == id && s.takes(s.queue[j]);
      steps := StoreQueued(s, 0, j, id);
    } else {
      var w :| 0 <= w < |s.workers| && id in Ids(InBatch(s.workers[w])) && TakesAll(s.takes, InBatch(s.workers[w]));
      steps := StoreBatch(s, w, id);
    }
  }

  /** In any state that the pool can be in, an id that nobody is about to send can still get
      stored, or is stored already, if and only if it is not doomed. */
  lemma StorableExactly(s: System, id: GoString)
    requires Valid(s) && !s.panicked && |s.workers| > 0 && NobodySends(s, id)
    ensures (exists steps :: Stores(s, steps, id)) <==> !Doomed(s, id)
  {
    if !Doomed(s, id) {
      var steps := HopefulCanStore(s, id);
      RunKeepsValid(s, steps);
      StoredExactly(After(s, steps).attempts, id);
      assert Stores(s, steps, id);
    }
    forall steps | Possible(s, steps) && NotSentAgain(steps, id) && Doomed(s, id)
      ensures id !in Run(After(s, steps).attempts).events
    {
      DoomedForGood(s, steps, id);
      RunKeepsValid(s, steps);
      StoredExactly(After(s, steps).attempts, id);
    }
  }

  lemma SharedBatchDoomsBoth(s: System, w: nat, good: Event, bad: Event)
    requires w < |s.workers| && InBatch(s.workers[w]) == [good, bad] && !s.takes(bad)
    requires s.queue == [] && s.attempts == []
    requires forall v :: 0 <= v < |s.workers| && v != w ==> InBatch(s.workers[v]) == []
    ensures Doomed(s, good.id) && Doomed(s, bad.id)
  {
    assert bad in [good, bad] && Ids([]) == {};
  }

  lemma TwoFed(start: System, good: Event, bad: Event)
    requires Initial(start) && start.capacity > 0 && start.batchSize > 1 && |start.workers| > 0
    ensures var s1 := Fed(start, 0, good); var s2 := Fed(s1, 0, bad);
            && Leads(start, [Check(0, good), Send(0), Receive(0)], s1)
            && Leads(s1, [Check(0, bad), Send(0), Receive(0)], s2)
            && InBatch(s2.workers[0]) == [good, bad]
  {
    assert [] + [good] == [good] && [good] + [bad] == [good, bad];
    FeedLeads(start, 0, good);
    FeedLeads(Fed(start, 0, good), 0, bad);
  }

  /** And it comes about for events that the schema does take: for any batch size above one, an
      event that is collected together with one that it does not take is accepted and doomed. */
  lemma GoodEventCanBeDoomed(start: System, good: Event, bad: Event) returns (steps: seq<Step>)
    requires Initial(start) && start.capacity > 0 && start.batchSize > 1 && |start.workers| > 0 && !start.takes(bad)
    ensures Possible(start, steps)
    ensures var s := After(start, steps);
            && good in s.accepted && Doomed(s, good.id) && NobodySends(s, good.id)
  {
    var s1 := Fed(start, 0, good);
    var s2 := Fed(s1, 0, bad);
    TwoFed(start, good, bad);
    var first, second := [Check(0, good), Send(0), Receive(0)], [Check(0, bad), Send(0), Receive(0)];
    LeadsJoin(start, first, s1, second, s2);
    steps := first + second;
    SharedBatchDoomsBoth(s2, 0, good, bad);
  }
}
