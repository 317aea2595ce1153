/** internal/queue/kafka.go: the poll, insert, commit protocol of the durable queue. Any number
    of workers run it at once; polls, insert attempts, offset commits, crashes and partition
    reassignments interleave in any order, and nothing fences off a worker that lost its
    partitions. */
module Delivery {
  import opened Words
  import opened Store

  /** A record of a partition log: an event, or bytes that do not unmarshal. */
  datatype Record = Malformed | Good(event: Event)

  /** The records `from .. to` of partition `p`. */
  datatype Span = Span(p: nat, from: nat, to: nat)

  datatype Phase = Polling | Inserting | Inserted

  /** A consumer: where it reads next in each partition it believes to own, and the records
      in its hands. */
  datatype Worker = Worker(positions: map<nat, nat>, spans: seq<Span>, phase: Phase)

  /** The rows that the schema takes, the broker's logs and committed offsets, offset commits
      that were sent and may reach the broker late, again or never, the workers, and every
      InsertBatch call so far. */
  datatype System = System(
    batchSize: nat,
    takes: Event -> bool,
    logs: map<nat, seq<Record>>,
    offsets: map<nat, nat>,
    sent: seq<Span>,
    workers: map<nat, Worker>,
    attempts: seq<Attempt>)

  function Log(s: System, p: nat): seq<Record> {
    if p in s.logs then s.logs[p] else []
  }

  function Offset(s: System, p: nat): nat {
    if p in s.offsets then s.offsets[p] else 0
  }

  /** The event ids in the events table. */
  function StoredIds(s: System): set<GoString> {
    Run(s.attempts).events.Keys
  }

  // ---- The steps ----

  /** The decoding loop of Run: malformed records are skipped. */
  function Decodable(records: seq<Record>): seq<Event> {
    if records == [] then []
    else if Last(records).Malformed? then Decodable(Front(records))
    else Decodable(Front(records)) + [Last(records).event]
  }

  predicate InLog(s: System, span: Span) {
    span.from <= span.to <= |Log(s, span.p)|
  }

  function Polled(s: System, spans: seq<Span>): seq<Record>
    requires forall i :: 0 <= i < |spans| ==> InLog(s, spans[i])
  {
    if spans == [] then []
    else
      assert InLog(s, spans[|spans| - 1]);
      Polled(s, Front(spans)) + Log(s, Last(spans).p)[Last(spans).from..Last(spans).to]
  }

  /** Positions or offsets with each partition of the spans moved to the end of its span: where
      a worker reads next after a poll, and what CommitRecords commits. */
  function Advanced(positions: map<nat, nat>, spans: seq<Span>): map<nat, nat> {
    if spans == [] then positions else Advanced(positions, Front(spans))[Last(spans).p := Last(spans).to]
  }

  /** `Late` is an insert that the database applies after its worker gave up on it. */
  datatype Step =
    | Produce(p: nat, r: Record)
    | Join(w: nat)
    | Assign(w: nat, p: nat)
    | Revoke(w: nat, p: nat)
    | Poll(w: nat, spans: seq<Span>)
    | Insert(w: nat, rows: seq<Event>, reply: Reply)
    | SendCommit(w: nat)
    | ApplyCommit(i: nat)
    | Crash(w: nat)
    | Late(batch: seq<Event>, rows: seq<Event>)

  /** One poll returns at most batchSize records, from the next position of some of the
      worker's partitions. */
  ghost predicate CanPoll(s: System, worker: Worker, spans: seq<Span>) {
    && worker.phase == Polling
    && spans != []
    && (forall i :: 0 <= i < |spans| ==>
          InLog(s, spans[i]) && spans[i].p in worker.positions && spans[i].from == worker.positions[spans[i].p])
    && (forall i, j :: 0 <= i < j < |spans| ==> spans[i].p != spans[j].p)
    && 0 < |Polled(s, spans)| <= s.batchSize
  }

  ghost predicate SpansInLog(s: System, spans: seq<Span>) {
    forall i :: 0 <= i < |spans| ==> InLog(s, spans[i])
  }

  /** The events of all decodable records. */
  ghost function LogEvents(s: System): set<Event> {
    set p, i | p in s.logs && 0 <= i < |s.logs[p]| && s.logs[p][i].Good? :: s.logs[p][i].event
  }

  ghost predicate Enabled(s: System, step: Step) {
    match step
    case Produce(_, _) => true
    case Join(w) => w !in s.workers
    case Assign(w, _) => w in s.workers
    case Revoke(w, _) => w in s.workers
    case Poll(w, spans) => w in s.workers && CanPoll(s, s.workers[w], spans)
    case Insert(w, rows, reply) =>
      && w in s.workers
      && s.workers[w].phase == Inserting
      && SpansInLog(s, s.workers[w].spans)
      && IsOrdering(Decodable(Polled(s, s.workers[w].spans)), rows)
      && (reply != NotApplied ==> TakesAll(s.takes, Decodable(Polled(s, s.workers[w].spans))))
    case SendCommit(w) => w in s.workers && s.workers[w].phase == Inserted
    case ApplyCommit(i) => i < |s.sent|
    case Crash(w) => w in s.workers
    case Late(batch, rows) =>
      IsOrdering(batch, rows) && TakesAll(s.takes, batch) && forall e :: e in batch ==> e in LogEvents(s)
  }

  ghost function Take(s: System, step: Step): System
    requires Enabled(s, step)
  {
    match step
    case Produce(p, r) => s.(logs := s.logs[p := Log(s, p) + [r]])
    case Join(w) => s.(workers := s.workers[w := Worker(map[], [], Polling)])
    case Assign(w, p) =>
      var worker := s.workers[w];
      s.(workers := s.workers[w := worker.(positions := worker.positions[p := Offset(s, p)])])
    case Revoke(w, p) =>
      var worker := s.workers[w];
      s.(workers := s.workers[w := worker.(positions := worker.positions - {p})])
    case Poll(w, spans) =>
      var worker := s.workers[w];
      s.(workers := s.workers[w := Worker(Advanced(worker.positions, spans), spans, Inserting)])
    case Insert(w, rows, reply) =>
      var worker := s.workers[w];
      var batch := Decodable(Polled(s, worker.spans));
      s.(attempts := s.attempts + [Attempt(batch, rows, reply)],
         workers := s.workers[w := worker.(phase := if reply == Ok then Inserted else Inserting)])
    case SendCommit(w) =>
      var worker := s.workers[w];
      s.(sent := s.sent + worker.spans, workers := s.workers[w := worker.(spans := [], phase := Polling)])
    case ApplyCommit(i) => s.(offsets := s.offsets[s.sent[i].p := s.sent[i].to])
    case Crash(w) => s.(workers := s.workers - {w})
    case Late(batch, rows) => s.(attempts := s.attempts + [Attempt(batch, rows, LostReply)])
  }

  ghost predicate Possible(s: System, steps: seq<Step>)
    decreases |steps|, 0
  {
    steps == [] || (Possible(s, Front(steps)) && Enabled(After(s, Front(steps)), Last(steps)))
  }

  ghost function After(s: System, steps: seq<Step>): System
    requires Possible(s, steps)
    decreases |steps|, 1
  {
    if steps == [] then s else Take(After(s, Front(steps)), Last(steps))
  }

  /** An empty broker and store. batchSize is positive, as NewKafkaConsumer makes it. */
  ghost predicate Initial(s: System) {
    s == System(s.batchSize, s.takes, map[], map[], [], map[], []) && s.batchSize > 0
  }

  // ---- The invariant ----

  ghost predicate IsStored(s: System, e: Event) {
    e.id in StoredIds(s) && s.takes(e)
  }

  /** Every decodable record of the log before `n` is one that the schema takes, and has its id
      in the events table. */
  ghost predicate StoredUpTo(s: System, p: nat, n: nat) {
    && n <= |Log(s, p)|
    && forall i :: 0 <= i < n && Log(s, p)[i].Good? ==> IsStored(s, Log(s, p)[i].event)
  }

  ghost predicate SpanOk(s: System, span: Span, inserted: bool) {
    InLog(s, span) && StoredUpTo(s, span.p, span.from) && (inserted ==> StoredUpTo(s, span.p, span.to))
  }

  /** A position never passes a record that is neither stored nor in the worker's hands. */
  ghost predicate PositionOk(s: System, worker: Worker, p: nat) {
    p in worker.positions ==>
      || StoredUpTo(s, p, worker.positions[p])
      || (worker.phase != Polling && InHands(worker.spans, p, worker.positions[p]))
  }

  predicate InHands(spans: seq<Span>, p: nat, to: nat) {
    exists i :: 0 <= i < |spans| && spans[i].p == p && spans[i].to == to
  }

  ghost predicate WorkerOk(s: System, worker: Worker) {
    && (forall i :: 0 <= i < |worker.spans| ==> SpanOk(s, worker.spans[i], worker.phase == Inserted))
    && (forall p :: PositionOk(s, worker, p))
  }

  ghost predicate Valid(s: System) {
    && s.batchSize > 0
    && (forall p :: StoredUpTo(s, p, Offset(s, p)))
    && (forall i :: 0 <= i < |s.sent| ==> StoredUpTo(s, s.sent[i].p, s.sent[i].to))
    && (forall w :: w in s.workers ==> WorkerOk(s, s.workers[w]))
    && WellFormed(s.attempts)
    && (forall e :: e in Committed(s.attempts) ==> e in LogEvents(s))
  }

  // ---- Growth keeps every claim ----

  /** Logs only gain records at the end, and stored ids stay stored. */
  ghost predicate Grows(s: System, s': System) {
    && (forall p :: Log(s, p) <= Log(s', p))
    && StoredIds(s) <= StoredIds(s') && s'.takes == s.takes
  }

  lemma GrowsKeepsStored(s: System, s': System, p: nat, n: nat)
    requires Grows(s, s') && StoredUpTo(s, p, n)
    ensures StoredUpTo(s', p, n)
  {
  }

  lemma GrowsKeepsWorker(s: System, s': System, worker: Worker)
    requires Grows(s, s') && WorkerOk(s, worker)
    ensures WorkerOk(s', worker)
  {
    forall i | 0 <= i < |worker.spans|
      ensures SpanOk(s', worker.spans[i], worker.phase == Inserted)
    {
      var span := worker.spans[i];
      assert SpanOk(s, span, worker.phase == Inserted);
      GrowsKeepsStored(s, s', span.p, span.from);
      assert Log(s, span.p) <= Log(s', span.p);
      if worker.phase == Inserted {
        GrowsKeepsStored(s, s', span.p, span.to);
      }
    }
    forall p
      ensures PositionOk(s', worker, p)
    {
      assert PositionOk(s, worker, p);
      if p in worker.positions && StoredUpTo(s, p, worker.positions[p]) {
        GrowsKeepsStored(s, s', p, worker.positions[p]);
      }
    }
  }

  /** What the other parts of the state need from a step that grows the logs and the store. */
  lemma GrowsKeepsRest(s: System, s': System)
    requires Valid(s) && Grows(s, s')
    requires s'.offsets == s.offsets && s'.sent == s.sent
    ensures forall p :: StoredUpTo(s', p, Offset(s', p))
    ensures forall i :: 0 <= i < |s'.sent| ==> StoredUpTo(s', s'.sent[i].p, s'.sent[i].to)
    ensures forall w :: w in s.workers ==> WorkerOk(s', s.workers[w])
  {
    forall p
      ensures StoredUpTo(s', p, Offset(s', p))
    {
      assert StoredUpTo(s, p, Offset(s, p));
      GrowsKeepsStored(s, s', p, Offset(s, p));
    }
    forall i | 0 <= i < |s'.sent|
      ensures StoredUpTo(s', s'.sent[i].p, s'.sent[i].to)
    {
      GrowsKeepsStored(s, s', s.sent[i].p, s.sent[i].to);
    }
    forall w | w in s.workers
      ensures WorkerOk(s', s.workers[w])
    {
      GrowsKeepsWorker(s, s', s.workers[w]);
    }
  }

  lemma SameWorld(s: System, s': System)
    requires s'.logs == s.logs && s'.attempts == s.attempts && s'.takes == s.takes
    ensures Grows(s, s') && LogEvents(s') == LogEvents(s)
  {
  }

  // ---- Produce ----

  lemma ProduceKeepsValid(s: System, p: nat, r: Record)
    requires Valid(s)
    ensures Valid(Take(s, Produce(p, r)))
  {
    var s' := Take(s, Produce(p, r));
    assert Grows(s, s');
    GrowsKeepsRest(s, s');
    forall e | e in LogEvents(s)
      ensures e in LogEvents(s')
    {
      var q, i :| q in s.logs && 0 <= i < |s.logs[q]| && s.logs[q][i].Good? && s.logs[q][i].event == e;
      assert s'.logs[q][i] == s.logs[q][i];
    }
  }

  // ---- Poll ----

  lemma {:induction false} AdvancedMeaning(positions: map<nat, nat>, spans: seq<Span>, p: nat)
    ensures p in Advanced(positions, spans) ==>
      || (p in positions && Advanced(positions, spans)[p] == positions[p])
      || exists i :: 0 <= i < |spans| && spans[i].p == p && spans[i].to == Advanced(positions, spans)[p]
  {
    if spans != [] {
      AdvancedMeaning(positions, Front(spans), p);
      if Last(spans).p == p {
        assert spans[|spans| - 1].p == p;
      } else if p in Advanced(positions, spans) {
        if !(p in positions && Advanced(positions, spans)[p] == positions[p]) {
          var i :| 0 <= i < |Front(spans)| && Front(spans)[i].p == p
            && Front(spans)[i].to == Advanced(positions, spans)[p];
          assert spans[i] == Front(spans)[i];
        }
      }
    }
  }

  lemma PollKeepsWorker(s: System, worker: Worker, spans: seq<Span>)
    requires WorkerOk(s, worker) && CanPoll(s, worker, spans)
    ensures WorkerOk(s, Worker(Advanced(worker.positions, spans), spans, Inserting))
  {
    var worker' := Worker(Advanced(worker.positions, spans), spans, Inserting);
    forall i | 0 <= i < |spans|
      ensures SpanOk(s, spans[i], false)
    {
      assert PositionOk(s, worker, spans[i].p);
    }
    forall p
      ensures PositionOk(s, worker', p)
    {
      AdvancedMeaning(worker.positions, spans, p);
      assert PositionOk(s, worker, p);
    }
  }

  /** Replacing one worker by one in good order. */
  lemma SetWorkerKeepsValid(s: System, w: nat, worker: Worker)
    requires Valid(s) && WorkerOk(s, worker)
    ensures Valid(s.(workers := s.workers[w := worker]))
  {
    var s' := s.(workers := s.workers[w := worker]);
    SameWorld(s, s');
    GrowsKeepsRest(s, s');
    GrowsKeepsWorker(s, s', worker);
  }

  lemma AssignKeepsWorker(s: System, worker: Worker, p: nat)
    requires Valid(s) && WorkerOk(s, worker)
    ensures WorkerOk(s, worker.(positions := worker.positions[p := Offset(s, p)]))
    ensures WorkerOk(s, worker.(positions := worker.positions - {p}))
  {
    var gained := worker.(positions := worker.positions[p := Offset(s, p)]);
    var revoked := worker.(positions := worker.positions - {p});
    forall q
      ensures PositionOk(s, gained, q) && PositionOk(s, revoked, q)
    {
      assert PositionOk(s, worker, q);
    }
    forall i | 0 <= i < |worker.spans|
      ensures SpanOk(s, worker.spans[i], worker.phase == Inserted)
    {
    }
  }

  // ---- Insert ----

  lemma {:induction false} DecodableMeaning(records: seq<Record>)
    ensures forall i :: 0 <= i < |records| && records[i].Good? ==> records[i].event in Decodable(records)
    ensures forall e :: e in Decodable(records) ==> Good(e) in records
  {
    if records != [] {
      DecodableMeaning(Front(records));
      assert records == Front(records) + [Last(records)];
    }
  }

  lemma {:induction false} PolledMeaning(s: System, spans: seq<Span>)
    requires SpansInLog(s, spans)
    ensures forall r :: r in Polled(s, spans) ==> exists p :: p in s.logs && r in s.logs[p]
    ensures forall i, k :: 0 <= i < |spans| && spans[i].from <= k < spans[i].to ==>
              Log(s, spans[i].p)[k] in Polled(s, spans)
  {
    if spans != [] {
      PolledMeaning(s, Front(spans));
      var span := Last(spans);
      var records := Log(s, span.p)[span.from..span.to];
      forall i, k | 0 <= i < |spans| && spans[i].from <= k < spans[i].to
        ensures Log(s, spans[i].p)[k] in Polled(s, spans)
      {
        if i < |spans| - 1 {
          assert Front(spans)[i] == spans[i];
        } else {
          assert records[k - span.from] == Log(s, span.p)[k];
        }
      }
    }
  }

  lemma BatchIsFromLog(s: System, spans: seq<Span>)
    requires SpansInLog(s, spans)
    ensures forall e :: e in Decodable(Polled(s, spans)) ==> e in LogEvents(s)
  {
    PolledMeaning(s, spans);
    DecodableMeaning(Polled(s, spans));
    forall e | e in Decodable(Polled(s, spans))
      ensures e in LogEvents(s)
    {
      var p :| p in s.logs && Good(e) in s.logs[p];
      var i :| 0 <= i < |s.logs[p]| && s.logs[p][i] == Good(e);
    }
  }

  ghost predicate BatchStored(s: System, batch: seq<Event>) {
    Ids(batch) <= StoredIds(s) && TakesAll(s.takes, batch)
  }

  lemma PolledAreStored(s: System, s': System, spans: seq<Span>, i: nat, k: nat)
    requires SpansInLog(s, spans) && BatchStored(s', Decodable(Polled(s, spans)))
    requires i < |spans| && spans[i].from <= k < spans[i].to && Log(s, spans[i].p)[k].Good?
    ensures IsStored(s', Log(s, spans[i].p)[k].event)
  {
    PolledMeaning(s, spans);
    DecodableMeaning(Polled(s, spans));
    assert Log(s, spans[i].p)[k] in Polled(s, spans);
  }

  lemma InsertedSpans(s: System, s': System, worker: Worker, i: nat)
    requires Grows(s, s') && s'.logs == s.logs && WorkerOk(s, worker) && i < |worker.spans|
    requires SpansInLog(s, worker.spans)
    requires BatchStored(s', Decodable(Polled(s, worker.spans)))
    ensures SpanOk(s', worker.spans[i], true)
  {
    var span := worker.spans[i];
    assert SpanOk(s, span, worker.phase == Inserted);
    GrowsKeepsStored(s, s', span.p, span.from);
    forall k | span.from <= k < span.to && Log(s, span.p)[k].Good?
      ensures IsStored(s', Log(s, span.p)[k].event)
    {
      PolledAreStored(s, s', worker.spans, i, k);
    }
    assert Log(s', span.p) == Log(s, span.p);
  }

  lemma InsertKeepsWorker(s: System, s': System, worker: Worker)
    requires Grows(s, s') && s'.logs == s.logs && WorkerOk(s, worker) && worker.phase == Inserting
    requires SpansInLog(s, worker.spans)
    requires BatchStored(s', Decodable(Polled(s, worker.spans)))
    ensures WorkerOk(s', worker.(phase := Inserted))
  {
    var worker' := worker.(phase := Inserted);
    GrowsKeepsWorker(s, s', worker);
    forall i | 0 <= i < |worker.spans|
      ensures SpanOk(s', worker.spans[i], true)
    {
      InsertedSpans(s, s', worker, i);
    }
    forall p
      ensures PositionOk(s', worker', p)
    {
      assert PositionOk(s', worker, p);
    }
  }

  lemma SameLogs(s: System, s': System)
    requires s'.logs == s.logs
    ensures LogEvents(s') == LogEvents(s) && forall p :: Log(s', p) == Log(s, p)
  {
  }

  /** What an attempt does to the store, and to nothing else. */
  lemma AttemptGrows(s: System, s': System, a: Attempt)
    requires WellFormed(s.attempts) && IsOrdering(a.batch, a.rows)
    requires s'.logs == s.logs && s'.takes == s.takes && s'.attempts == s.attempts + [a]
    ensures Grows(s, s') && WellFormed(s'.attempts)
    ensures a.reply != NotApplied ==> Ids(a.batch) <= StoredIds(s')
  {
    AttemptStores(s.attempts, a);
    SameLogs(s, s');
  }

  lemma InsertGrows(s: System, w: nat, rows: seq<Event>, reply: Reply)
    requires WellFormed(s.attempts) && Enabled(s, Insert(w, rows, reply))
    ensures var s' := Take(s, Insert(w, rows, reply));
            && Grows(s, s') && s'.logs == s.logs && WellFormed(s'.attempts)
            && (reply != NotApplied ==> BatchStored(s', Decodable(Polled(s, s.workers[w].spans))))
  {
    var batch := Decodable(Polled(s, s.workers[w].spans));
    AttemptGrows(s, Take(s, Insert(w, rows, reply)), Attempt(batch, rows, reply));
  }

  lemma InsertCommitsLogged(s: System, w: nat, rows: seq<Event>, reply: Reply)
    requires Valid(s) && Enabled(s, Insert(w, rows, reply))
    ensures forall e :: e in Committed(Take(s, Insert(w, rows, reply)).attempts) ==> e in LogEvents(s)
  {
    AttemptStores(s.attempts, Attempt(Decodable(Polled(s, s.workers[w].spans)), rows, reply));
    BatchIsFromLog(s, s.workers[w].spans);
  }

  lemma InsertKeepsWorkers(s: System, w: nat, rows: seq<Event>, reply: Reply)
    requires Valid(s) && Enabled(s, Insert(w, rows, reply))
    requires forall v :: v in s.workers ==> WorkerOk(Take(s, Insert(w, rows, reply)), s.workers[v])
    ensures var s' := Take(s, Insert(w, rows, reply)); forall v :: v in s'.workers ==> WorkerOk(s', s'.workers[v])
  {
    InsertGrows(s, w, rows, reply);
    if reply == Ok {
      InsertKeepsWorker(s, Take(s, Insert(w, rows, reply)), s.workers[w]);
    }
  }

  lemma InsertKeepsValid(s: System, w: nat, rows: seq<Event>, reply: Reply)
    requires Valid(s) && Enabled(s, Insert(w, rows, reply))
    ensures Valid(Take(s, Insert(w, rows, reply)))
  {
    var s' := Take(s, Insert(w, rows, reply));
    InsertGrows(s, w, rows, reply);
    SameLogs(s, s');
    InsertCommitsLogged(s, w, rows, reply);
    GrowsKeepsRest(s, s');
    InsertKeepsWorkers(s, w, rows, reply);
  }

  // ---- Offset commits ----

  lemma SendKeepsValid(s: System, w: nat)
    requires Valid(s) && Enabled(s, SendCommit(w))
    ensures Valid(Take(s, SendCommit(w)))
  {
    var worker := s.workers[w];
    var done := worker.(spans := [], phase := Polling);
    forall p
      ensures PositionOk(s, done, p)
    {
      assert PositionOk(s, worker, p);
      if p in worker.positions && InHands(worker.spans, p, worker.positions[p]) {
        var i :| 0 <= i < |worker.spans| && worker.spans[i].p == p && worker.spans[i].to == worker.positions[p];
        assert SpanOk(s, worker.spans[i], true);
      }
    }
    SetWorkerKeepsValid(s, w, done);
    var s1 := s.(workers := s.workers[w := done]);
    var s' := Take(s, SendCommit(w));
    SameWorld(s1, s');
    forall p
      ensures StoredUpTo(s', p, Offset(s', p))
    {
      assert StoredUpTo(s, p, Offset(s, p));
      GrowsKeepsStored(s1, s', p, Offset(s1, p));
    }
    forall i | 0 <= i < |s'.sent|
      ensures StoredUpTo(s', s'.sent[i].p, s'.sent[i].to)
    {
      if i >= |s.sent| {
        assert s'.sent[i] == worker.spans[i - |s.sent|];
        assert SpanOk(s, worker.spans[i - |s.sent|], true);
      }
    }
    forall v | v in s'.workers
      ensures WorkerOk(s', s'.workers[v])
    {
      GrowsKeepsWorker(s1, s', s'.workers[v]);
    }
  }

  /** A commit may move an offset forward or back: wherever it lands, what lies before it is
      stored. */
  lemma ApplyKeepsValid(s: System, i: nat)
    requires Valid(s) && i < |s.sent|
    ensures Valid(Take(s, ApplyCommit(i)))
  {
    var s' := Take(s, ApplyCommit(i));
    SameWorld(s, s');
    forall p
      ensures StoredUpTo(s', p, Offset(s', p))
    {
      assert StoredUpTo(s, p, Offset(s, p));
      assert StoredUpTo(s, s.sent[i].p, s.sent[i].to);
    }
    forall w | w in s'.workers
      ensures WorkerOk(s', s'.workers[w])
    {
      GrowsKeepsWorker(s, s', s.workers[w]);
    }
  }

  lemma CrashKeepsValid(s: System, w: nat)
    requires Valid(s)
    ensures Valid(s.(workers := s.workers - {w}))
  {
    var s' := s.(workers := s.workers - {w});
    SameWorld(s, s');
    GrowsKeepsRest(s, s');
  }

  /** The database applies an insert that its worker gave up on, or did not live to see. */
  lemma LateKeepsValid(s: System, batch: seq<Event>, rows: seq<Event>)
    requires Valid(s) && Enabled(s, Late(batch, rows))
    ensures Valid(Take(s, Late(batch, rows)))
  {
    var s' := Take(s, Late(batch, rows));
    AttemptStores(s.attempts, Attempt(batch, rows, LostReply));
    AttemptGrows(s, s', Attempt(batch, rows, LostReply));
    SameLogs(s, s');
    GrowsKeepsRest(s, s');
  }

  lemma StepKeepsValid(s: System, step: Step)
    requires Valid(s) && Enabled(s, step)
    ensures Valid(Take(s, step))
  {
    match step
    case Produce(p, r) => ProduceKeepsValid(s, p, r);
    case Join(w) => SetWorkerKeepsValid(s, w, Worker(map[], [], Polling));
    case Assign(w, p) =>
      AssignKeepsWorker(s, s.workers[w], p);
      SetWorkerKeepsValid(s, w, s.workers[w].(positions := s.workers[w].positions[p := Offset(s, p)]));
    case Revoke(w, p) =>
      AssignKeepsWorker(s, s.workers[w], p);
      SetWorkerKeepsValid(s, w, s.workers[w].(positions := s.workers[w].positions - {p}));
    case Poll(w, spans) =>
      PollKeepsWorker(s, s.workers[w], spans);
      SetWorkerKeepsValid(s, w, Worker(Advanced(s.workers[w].positions, spans), spans, Inserting));
    case Insert(w, rows, reply) => InsertKeepsValid(s, w, rows, reply);
    case SendCommit(w) => SendKeepsValid(s, w);
    case ApplyCommit(i) => ApplyKeepsValid(s, i);
    case Crash(w) => CrashKeepsValid(s, w);
    case Late(batch, rows) => LateKeepsValid(s, batch, rows);
  }

  // ---- The guarantees ----

  lemma {:induction false} RunKeepsValid(s: System, steps: seq<Step>)
    requires Valid(s) && Possible(s, steps)
    ensures Valid(After(s, steps))
  {
    if steps != [] {
      RunKeepsValid(s, Front(steps));
      StepKeepsValid(After(s, Front(steps)), Last(steps));
    }
  }

  /** At least once: in every reachable state every decodable record below its partition's
      committed offset is stored, and the tables are consistent: no record is counted twice. */
  lemma NothingIsSkipped(start: System, steps: seq<Step>, p: nat, i: nat)
    requires Initial(start) && Possible(start, steps)
    requires i < Offset(After(start, steps), p)
    ensures var s := After(start, steps);
            && i < |Log(s, p)|
            && (Log(s, p)[i].Good? ==> s.takes(Log(s, p)[i].event) && Log(s, p)[i].event.id in Run(s.attempts).events)
            && Consistent(Run(s.attempts), Committed(s.attempts))
            && TotalInserted(s.attempts) == |Run(s.attempts).events|
  {
    RunKeepsValid(start, steps);
    var s := After(start, steps);
    assert StoredUpTo(s, p, Offset(s, p));
    RunIsConsistent(s.attempts);
  }

  ghost function LogIds(s: System): set<GoString> {
    set e | e in LogEvents(s) :: e.id
  }

  lemma StoredAreLogged(s: System)
    requires Valid(s)
    ensures StoredIds(s) <= LogIds(s)
  {
    RunIsConsistent(s.attempts);
    forall id | id in StoredIds(s)
      ensures id in LogIds(s)
    {
      var e :| e in Committed(s.attempts) && e.id == id;
      assert e in LogEvents(s);
    }
  }

  ghost predicate AllCommitted(s: System) {
    forall p :: Offset(s, p) == |Log(s, p)|
  }

  lemma LoggedAreStored(s: System)
    requires Valid(s) && AllCommitted(s)
    ensures LogIds(s) <= StoredIds(s)
  {
    forall id | id in LogIds(s)
      ensures id in StoredIds(s)
    {
      var e :| e in LogEvents(s) && e.id == id;
      var p, i :| p in s.logs && 0 <= i < |s.logs[p]| && s.logs[p][i].Good? && s.logs[p][i].event == e;
      assert Log(s, p) == s.logs[p] && StoredUpTo(s, p, Offset(s, p));
    }
  }

  /** Counted exactly once: when every partition is committed to its end, the stored ids are
      exactly the ids of the decodable records, each inserted once and each in exactly one
      rollup count, whatever replays, crashes and lost replies came before. */
  lemma CountedExactlyOnce(start: System, steps: seq<Step>)
    requires Initial(start) && Possible(start, steps) && AllCommitted(After(start, steps))
    ensures var s := After(start, steps);
            && Run(s.attempts).events.Keys == LogIds(s)
            && RollupsAgree(Run(s.attempts))
            && TotalInserted(s.attempts) == |LogIds(s)|
  {
    RunKeepsValid(start, steps);
    var s := After(start, steps);
    StoredAreLogged(s);
    LoggedAreStored(s);
    RunIsConsistent(s.attempts);
    assert |Run(s.attempts).events| == |Run(s.attempts).events.Keys|;
  }
}
