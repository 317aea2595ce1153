/** internal/queue/queue.go, internal/worker/worker.go and the shutdown of cmd/tally/main.go:
    the memory mode. Any number of producers, a bounded channel and a pool of batching
    workers, interleaved step by step. */
module Pool {
  import opened Words
  import opened Store

  /** A worker goroutine: collecting a batch, inside flush (at its n-th insert attempt, and
      whether it exits afterwards), or gone. */
  datatype Worker = Filling(batch: seq<Event>) | Flushing(batch: seq<Event>, attempt: nat, last: bool) | Exited

  /** `takes` says which rows the schema takes. `producers` are the Enqueue calls between the
      closed check and the send. `accepted`, `flushed` and `dropped` record the sends that
      succeeded and the flushes reported without and with an error. */
  datatype System = System(
    capacity: nat,
    batchSize: nat,
    maxRetries: nat,
    takes: Event -> bool,
    queue: seq<Event>,
    closed: bool,
    channelClosed: bool,
    panicked: bool,
    producers: map<nat, Event>,
    workers: seq<Worker>,
    accepted: multiset<Event>,
    flushed: multiset<Event>,
    dropped: multiset<Event>,
    attempts: seq<Attempt>)

  /** NewMemory and worker.New, whose defaults make both limits positive. */
  predicate Initial(s: System) {
    && s.batchSize > 0 && s.maxRetries > 0
    && s.queue == [] && !s.closed && !s.channelClosed && !s.panicked
    && s.producers == map[]
    && (forall i :: 0 <= i < |s.workers| ==> s.workers[i] == Filling([]))
    && s.accepted == multiset{} && s.flushed == multiset{} && s.dropped == multiset{}
    && s.attempts == []
  }

  datatype Step =
    | Check(pid: nat, e: Event)       // Enqueue: the closed flag
    | Send(pid: nat)                  // Enqueue: the non-blocking send
    | SetClosed                       // Close: compare and swap
    | CloseChannel                    // Close: close(ch)
    | Receive(w: nat)
    | ReceiveClosed(w: nat)
    | Tick(w: nat)
    | TryInsert(w: nat, rows: seq<Event>, reply: Reply)

  ghost predicate Enabled(s: System, step: Step) {
    !s.panicked &&
    match step
    case Check(pid, _) => pid !in s.producers
    case Send(pid) => pid in s.producers
    case SetClosed => true
    case CloseChannel => s.closed && !s.channelClosed
    case Receive(w) => w < |s.workers| && s.workers[w].Filling? && s.queue != []
    case ReceiveClosed(w) => w < |s.workers| && s.workers[w].Filling? && s.queue == [] && s.channelClosed
    case Tick(w) => w < |s.workers| && s.workers[w].Filling?
    case TryInsert(w, rows, reply) =>
      && w < |s.workers| && s.workers[w].Flushing? && IsOrdering(s.workers[w].batch, rows)
      && (reply != NotApplied ==> TakesAll(s.takes, s.workers[w].batch))
  }

  function AfterFlush(worker: Worker): Worker
    requires worker.Flushing?
  {
    if worker.last then Exited else Filling([])
  }

  ghost function Take(s: System, step: Step): System
    requires Enabled(s, step)
  {
    match step
    case Check(pid, e) => if s.closed then s else s.(producers := s.producers[pid := e])
    case Send(pid) =>
      var rest := s.producers - {pid};
      if s.channelClosed then s.(producers := rest, panicked := true)
      else if |s.queue| < s.capacity then
        s.(producers := rest, queue := s.queue + [s.producers[pid]],
           accepted := s.accepted + multiset{s.producers[pid]})
      else s.(producers := rest)
    case SetClosed => s.(closed := true)
    case CloseChannel => s.(channelClosed := true)
    case Receive(w) =>
      var batch := s.workers[w].batch + [s.queue[0]];
      s.(queue := s.queue[1..],
         workers := s.workers[w := if |batch| >= s.batchSize then Flushing(batch, 1, false) else Filling(batch)])
    case ReceiveClosed(w) =>
      var batch := s.workers[w].batch;
      s.(workers := s.workers[w := if batch == [] then Exited else Flushing(batch, 1, true)])
    case Tick(w) =>
      var batch := s.workers[w].batch;
      if batch == [] then s else s.(workers := s.workers[w := Flushing(batch, 1, false)])
    case TryInsert(w, rows, reply) =>
      var worker := s.workers[w];
      var tried := s.(attempts := s.attempts + [Attempt(worker.batch, rows, reply)]);
      if reply == Ok then
        tried.(flushed := s.flushed + multiset(worker.batch), workers := s.workers[w := AfterFlush(worker)])
      else if worker.attempt < s.maxRetries then
        tried.(workers := s.workers[w := worker.(attempt := worker.attempt + 1)])
      else
        tried.(dropped := s.dropped + multiset(worker.batch), workers := s.workers[w := AfterFlush(worker)])
  }

  ghost predicate Possible(s: System, steps: seq<Step>)
    decreases |steps|, 0
  {
    steps == [] || (Possible(s, Front(steps)) && Enabled(After(s, Front(steps)), Last(steps)))
  }

  ghost function After(s: System, steps: seq<Step>): System
    requires Possible(s, steps)
    decreases |steps|, 1
  {
    if steps == [] then s else Take(After(s, Front(steps)), Last(steps))
  }

  // ---- Conservation ----

  function InBatch(worker: Worker): seq<Event> {
    if worker.Exited? then [] else worker.batch
  }

  function Copies(events: seq<Event>, e: Event): nat {
    if events == [] then 0 else (if events[0] == e then 1 else 0) + Copies(events[1..], e)
  }

  lemma {:induction false} CopiesIsMultiplicity(events: seq<Event>, e: Event)
    ensures multiset(events)[e] == Copies(events, e)
  {
    if events != [] {
      CopiesIsMultiplicity(events[1..], e);
      assert events == [events[0]] + events[1..];
    }
  }

  lemma {:induction false} CopiesAtEnd(events: seq<Event>, last: Event, e: Event)
    ensures Copies(events + [last], e) == Copies(events, e) + if last == e then 1 else 0
  {
    if events != [] {
      CopiesAtEnd(events[1..], last, e);
      assert (events + [last])[1..] == events[1..] + [last];
    }
  }

  /** How many copies of an event the worker batches hold. */
  function Held(workers: seq<Worker>, e: Event): nat {
    if workers == [] then 0 else Copies(InBatch(workers[0]), e) + Held(workers[1..], e)
  }

  lemma {:induction false} HeldUpdate(workers: seq<Worker>, w: nat, worker: Worker, e: Event)
    requires w < |workers|
    ensures Held(workers[w := worker], e)
         == Held(workers, e) - Copies(InBatch(workers[w]), e) + Copies(InBatch(worker), e)
  {
    var updated := workers[w := worker];
    if w == 0 {
      assert updated[1..] == workers[1..];
    } else {
      HeldUpdate(workers[1..], w - 1, worker, e);
      assert updated[1..] == workers[1..][w - 1 := worker];
    }
  }

  /** Every accepted copy of an event is queued, in a batch, flushed or reported dropped. */
  ghost predicate Balanced(s: System, e: Event) {
    s.accepted[e] == Copies(s.queue, e) + Held(s.workers, e) + s.flushed[e] + s.dropped[e]
  }

  ghost predicate Conserved(s: System) {
    forall e :: Balanced(s, e)
  }

  lemma ReceiveConserves(s: System, w: nat, e: Event)
    requires Balanced(s, e) && Enabled(s, Receive(w))
    ensures Balanced(Take(s, Receive(w)), e)
  {
    HeldUpdate(s.workers, w, Take(s, Receive(w)).workers[w], e);
    CopiesAtEnd(s.workers[w].batch, s.queue[0], e);
  }

  lemma FlushConserves(s: System, w: nat, worker: Worker, e: Event)
    requires Balanced(s, e) && w < |s.workers| && InBatch(worker) == InBatch(s.workers[w])
    ensures Balanced(s.(workers := s.workers[w := worker]), e)
  {
    HeldUpdate(s.workers, w, worker, e);
  }

  lemma FlushEndConserves(s: System, w: nat, flushed: multiset<Event>, dropped: multiset<Event>, e: Event)
    requires Balanced(s, e) && w < |s.workers| && s.workers[w].Flushing?
    requires flushed[e] + dropped[e] == s.flushed[e] + s.dropped[e] + Copies(s.workers[w].batch, e)
    ensures Balanced(s.(flushed := flushed, dropped := dropped, workers := s.workers[w := AfterFlush(s.workers[w])]), e)
  {
    HeldUpdate(s.workers, w, AfterFlush(s.workers[w]), e);
  }

  lemma InsertConserves(s: System, w: nat, rows: seq<Event>, reply: Reply, e: Event)
    requires Balanced(s, e) && Enabled(s, TryInsert(w, rows, reply))
    ensures Balanced(Take(s, TryInsert(w, rows, reply)), e)
  {
    var worker := s.workers[w];
    CopiesIsMultiplicity(worker.batch, e);
    if reply == Ok {
      FlushEndConserves(s, w, s.flushed + multiset(worker.batch), s.dropped, e);
    } else if worker.attempt < s.maxRetries {
      FlushConserves(s, w, worker.(attempt := worker.attempt + 1), e);
    } else {
      FlushEndConserves(s, w, s.flushed, s.dropped + multiset(worker.batch), e);
    }
  }

  lemma StepConserves(s: System, step: Step, e: Event)
    requires Balanced(s, e) && Enabled(s, step)
    ensures Balanced(Take(s, step), e)
  {
    match step
    case Check(_, _) =>
    case Send(pid) => CopiesAtEnd(s.queue, s.producers[pid], e);
    case SetClosed =>
    case CloseChannel =>
    case Receive(w) => ReceiveConserves(s, w, e);
    case ReceiveClosed(w) => FlushConserves(s, w, Take(s, step).workers[w], e);
    case Tick(w) =>
      if s.workers[w].batch != [] {
        FlushConserves(s, w, Flushing(s.workers[w].batch, 1, false), e);
      }
    case TryInsert(w, rows, reply) => InsertConserves(s, w, rows, reply, e);
  }

  // ---- Limits ----

  ghost predicate WorkerOk(s: System, worker: Worker) {
    && (worker.Filling? ==> |worker.batch| < s.batchSize)
    && (worker.Flushing? ==> 0 < |worker.batch| <= s.batchSize && 1 <= worker.attempt <= s.maxRetries)
    && (worker.Exited? || (worker.Flushing? && worker.last) ==> s.channelClosed && s.queue == [])
  }

  ghost predicate WithinLimits(s: System) {
    && s.batchSize > 0 && s.maxRetries > 0
    && |s.queue| <= s.capacity
    && (s.channelClosed ==> s.closed)
    && (forall i :: 0 <= i < |s.workers| ==> WorkerOk(s, s.workers[i]))
  }

  /** Nothing that the limits of idle workers depend on was undone. */
  ghost predicate SameSettings(s: System, s': System) {
    && s'.batchSize == s.batchSize && s'.maxRetries == s.maxRetries
    && (s.channelClosed && s.queue == [] ==> s'.channelClosed && s'.queue == [])
  }

  lemma WorkerStaysOk(s: System, s': System, worker: Worker)
    requires SameSettings(s, s') && WorkerOk(s, worker)
    ensures WorkerOk(s', worker)
  {
  }

  lemma InsertIsOk(s: System, w: nat, rows: seq<Event>, reply: Reply)
    requires WithinLimits(s) && Enabled(s, TryInsert(w, rows, reply))
    ensures var s' := Take(s, TryInsert(w, rows, reply)); WorkerOk(s', s'.workers[w])
  {
    assert WorkerOk(s, s.workers[w]);
  }

  lemma TurnIsOk(s: System, step: Step, w: nat)
    requires WithinLimits(s) && Enabled(s, step) && !step.TryInsert?
    requires w < |s.workers| && Take(s, step).workers[w] != s.workers[w]
    ensures WorkerOk(Take(s, step), Take(s, step).workers[w])
  {
    assert WorkerOk(s, s.workers[w]);
  }

  lemma StepKeepsLimits(s: System, step: Step)
    requires WithinLimits(s) && Enabled(s, step)
    ensures WithinLimits(Take(s, step))
  {
    var s' := Take(s, step);
    assert SameSettings(s, s');
    forall w | 0 <= w < |s'.workers|
      ensures WorkerOk(s', s'.workers[w])
    {
      if s'.workers[w] == s.workers[w] {
        WorkerStaysOk(s, s', s.workers[w]);
      } else if step.TryInsert? {
        InsertIsOk(s, step.w, step.rows, step.reply);
      } else {
        TurnIsOk(s, step, w);
      }
    }
  }

  // ---- Storage ----

  ghost predicate FlushedAreStored(s: System) {
    && WellFormed(s.attempts)
    && (forall e :: e in s.flushed ==> e.id in Run(s.attempts).events)
  }

  lemma FlushIsStored(flushed: multiset<Event>, attempts: seq<Attempt>, a: Attempt)
    requires WellFormed(attempts) && IsOrdering(a.batch, a.rows) && a.reply == Ok
    requires forall e :: e in flushed ==> e.id in Run(attempts).events
    ensures forall e :: e in flushed + multiset(a.batch) ==> e.id in Run(attempts + [a]).events
  {
    AttemptStores(attempts, a);
    forall e | e in flushed + multiset(a.batch)
      ensures e.id in Run(attempts + [a]).events
    {
      if e !in flushed {
        assert e in a.batch && e.id in Ids(a.batch);
      }
    }
  }

  /** What one insert attempt changes. */
  lemma InsertTouchesOne(s: System, w: nat, rows: seq<Event>, reply: Reply)
    requires Enabled(s, TryInsert(w, rows, reply))
    ensures var s' := Take(s, TryInsert(w, rows, reply)); var batch := s.workers[w].batch;
            && s'.queue == s.queue && s'.takes == s.takes && s'.producers == s.producers
            && s'.attempts == s.attempts + [Attempt(batch, rows, reply)]
            && s'.flushed == s.flushed + (if reply == Ok then multiset(batch) else multiset{})
            && |s'.workers| == |s.workers| && s'.workers == s.workers[w := s'.workers[w]]
            && (InBatch(s'.workers[w]) == batch || InBatch(s'.workers[w]) == [])
  {
  }

  lemma InsertKeepsStored(s: System, w: nat, rows: seq<Event>, reply: Reply)
    requires FlushedAreStored(s) && Enabled(s, TryInsert(w, rows, reply))
    ensures FlushedAreStored(Take(s, TryInsert(w, rows, reply)))
  {
    var a := Attempt(s.workers[w].batch, rows, reply);
    InsertTouchesOne(s, w, rows, reply);
    AttemptStores(s.attempts, a);
    if reply == Ok {
      FlushIsStored(s.flushed, s.attempts, a);
    }
  }

  lemma StepKeepsStored(s: System, step: Step)
    requires FlushedAreStored(s) && Enabled(s, step)
    ensures FlushedAreStored(Take(s, step))
  {
    if step.TryInsert? {
      InsertKeepsStored(s, step.w, step.rows, step.reply);
    } else {
      assert Take(s, step).flushed == s.flushed && Take(s, step).attempts == s.attempts;
    }
  }

  /** Nothing is committed that was not accepted. */
  ghost predicate CommittedAreAccepted(s: System) {
    WellFormed(s.attempts) && forall e :: e in Committed(s.attempts) ==> e in s.accepted
  }

  lemma {:induction false} HeldByOne(workers: seq<Worker>, w: nat, e: Event)
    requires w < |workers|
    ensures Copies(InBatch(workers[w]), e) <= Held(workers, e)
  {
    if w > 0 {
      HeldByOne(workers[1..], w - 1, e);
    }
  }

  lemma BatchIsAccepted(s: System, w: nat, e: Event)
    requires Balanced(s, e) && w < |s.workers| && e in InBatch(s.workers[w])
    ensures e in s.accepted
  {
    HeldByOne(s.workers, w, e);
    CopiesIsMultiplicity(InBatch(s.workers[w]), e);
  }

  lemma AttemptIsAccepted(accepted: multiset<Event>, attempts: seq<Attempt>, a: Attempt)
    requires WellFormed(attempts) && IsOrdering(a.batch, a.rows)
    requires forall e :: e in Committed(attempts) || e in a.batch ==> e in accepted
    ensures forall e :: e in Committed(attempts + [a]) ==> e in accepted
  {
    AttemptStores(attempts, a);
  }

  lemma InsertKeepsCommitted(s: System, w: nat, rows: seq<Event>, reply: Reply)
    requires CommittedAreAccepted(s) && Conserved(s) && Enabled(s, TryInsert(w, rows, reply))
    ensures forall e :: e in Committed(Take(s, TryInsert(w, rows, reply)).attempts) ==> e in s.accepted
  {
    forall e | e in s.workers[w].batch
      ensures e in s.accepted
    {
      assert Balanced(s, e);
      BatchIsAccepted(s, w, e);
    }
    AttemptIsAccepted(s.accepted, s.attempts, Attempt(s.workers[w].batch, rows, reply));
  }

  lemma OnlyInsertsAttempt(s: System, step: Step)
    requires Enabled(s, step)
    ensures !step.TryInsert? ==> Take(s, step).attempts == s.attempts
    ensures s.accepted <= Take(s, step).accepted
  {
  }

  lemma InsertKeepsWellFormed(s: System, w: nat, rows: seq<Event>, reply: Reply)
    requires WellFormed(s.attempts) && Enabled(s, TryInsert(w, rows, reply))
    ensures WellFormed(Take(s, TryInsert(w, rows, reply)).attempts)
  {
  }

  lemma MoreAccepted(committed: seq<Event>, accepted: multiset<Event>, accepted': multiset<Event>)
    requires accepted <= accepted' && forall e :: e in committed ==> e in accepted
    ensures forall e :: e in committed ==> e in accepted'
  {
  }

  lemma StepKeepsCommitted(s: System, step: Step)
    requires CommittedAreAccepted(s) && Conserved(s) && Enabled(s, step)
    ensures CommittedAreAccepted(Take(s, step))
  {
    var attempts, accepted := Take(s, step).attempts, Take(s, step).accepted;
    OnlyInsertsAttempt(s, step);
    if step.TryInsert? {
      InsertKeepsCommitted(s, step.w, step.rows, step.reply);
      InsertKeepsWellFormed(s, step.w, step.rows, step.reply);
    }
    MoreAccepted(Committed(attempts), s.accepted, accepted);
  }

  // ---- Every run ----

  ghost predicate Valid(s: System) {
    Conserved(s) && WithinLimits(s) && FlushedAreStored(s) && CommittedAreAccepted(s)
  }

  lemma {:induction false} HeldNothing(workers: seq<Worker>, e: Event)
    requires forall i :: 0 <= i < |workers| ==> InBatch(workers[i]) == []
    ensures Held(workers, e) == 0
  {
    if workers != [] {
      HeldNothing(workers[1..], e);
      assert InBatch(workers[0]) == [];
    }
  }

  lemma InitialIsValid(s: System)
    requires Initial(s)
    ensures Valid(s)
  {
    forall e
      ensures Balanced(s, e)
    {
      HeldNothing(s.workers, e);
    }
  }

  lemma StepKeepsValid(s: System, step: Step)
    requires Valid(s) && Enabled(s, step)
    ensures Valid(Take(s, step))
  {
    forall e
      ensures Balanced(Take(s, step), e)
    {
      assert Balanced(s, e);
      StepConserves(s, step, e);
    }
    StepKeepsLimits(s, step);
    StepKeepsStored(s, step);
    StepKeepsCommitted(s, step);
  }

  lemma {:induction false} RunKeepsValid(s: System, steps: seq<Step>)
    requires Valid(s) && Possible(s, steps)
    ensures Valid(After(s, steps))
  {
    if steps != [] {
      RunKeepsValid(s, Front(steps));
      StepKeepsValid(After(s, Front(steps)), Last(steps));
    }
  }

  predicate AllExited(s: System) {
    forall i :: 0 <= i < |s.workers| ==> s.workers[i].Exited?
  }

  lemma ExitedMeansDrained(s: System)
    requires Valid(s) && s.workers != [] && AllExited(s)
    ensures s.queue == [] && s.accepted == s.flushed + s.dropped
  {
    assert WorkerOk(s, s.workers[0]);
    forall e
      ensures s.accepted[e] == (s.flushed + s.dropped)[e]
    {
      assert Balanced(s, e);
      HeldNothing(s.workers, e);
    }
  }

  /** Nothing accepted is lost in silence. In every reachable state the books balance for
      every event and no batch exceeds batchSize; once all workers have exited, every
      accepted event was in a flush that succeeded, and then its id is stored, or in one
      reported with an error. */
  lemma NothingIsLost(start: System, steps: seq<Step>)
    requires Initial(start) && Possible(start, steps)
    ensures var s := After(start, steps);
            && Conserved(s)
            && (forall i :: 0 <= i < |s.workers| ==> |InBatch(s.workers[i])| <= s.batchSize)
            && (forall e :: e in s.flushed ==> e.id in Run(s.attempts).events)
            && (s.workers != [] && AllExited(s) ==> s.queue == [] && s.accepted == s.flushed + s.dropped)
            && Consistent(Run(s.attempts), Committed(s.attempts))
  {
    InitialIsValid(start);
    RunKeepsValid(start, steps);
    var s := After(start, steps);
    RunIsConsistent(s.attempts);
    if s.workers != [] && AllExited(s) {
      ExitedMeansDrained(s);
    }
    forall i | 0 <= i < |s.workers|
      ensures |InBatch(s.workers[i])| <= s.batchSize
    {
      assert WorkerOk(s, s.workers[i]);
    }
  }

  ghost function AcceptedIds(s: System): set<GoString> {
    set e | e in s.accepted :: e.id
  }
}
