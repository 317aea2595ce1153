/** internal/worker/worker.go: flush and run, the loops of one worker, proved to be runs of the
    pool's steps. */
module PoolWorker {
  import opened Words
  import opened Store
  import opened Database
  import opened PoolRun
  import Pool
  import Shutdown

  /** What a worker sees from its select: an event or a tick. The end of the inputs is the
      closed channel. */
  datatype Input = Received(e: Event) | Tick

  /** FlushInfo, with the events of the batch. */
  datatype Report = Report(events: seq<Event>, inserted: int, duplicates: int, failed: bool)

  /** worker.New: limits that are not positive get their defaults. */
  function BatchSizeOf(configured: int): (n: nat)
    ensures n > 0 && n == if configured > 0 then configured else 1000
  {
    if configured <= 0 then 1000 else configured
  }

  function MaxRetriesOf(configured: int): (n: nat)
    ensures n > 0 && n == if configured > 0 then configured else 3
  {
    if configured <= 0 then 3 else configured
  }

  function Events(inputs: seq<Input>): seq<Event> {
    if inputs == [] then []
    else if Last(inputs).Tick? then Events(Front(inputs))
    else Events(Front(inputs)) + [Last(inputs).e]
  }

  /** The events of all reported flushes, in order. */
  function Flushed(reports: seq<Report>): seq<Event> {
    if reports == [] then [] else Flushed(Front(reports)) + Last(reports).events
  }

  /** The batch limits hold, and what a successful flush reports adds up and is stored. */
  ghost predicate ReportOk(r: Report, batchSize: nat, tables: Tables) {
    && 0 < |r.events| <= batchSize
    && (!r.failed ==>
          && 0 <= r.inserted && 0 <= r.duplicates && r.inserted + r.duplicates == |r.events|
          && Ids(r.events) <= tables.events.Keys)
  }

  lemma {:induction false} InsertedAtMost(events: map<GoString, Event>, rows: seq<Event>)
    ensures |Inserted(events, rows)| <= |rows|
  {
    if rows != [] {
      InsertedAtMost(events, Front(rows));
    }
  }

  /** What a successful attempt reports is by how much it made the events table grow. */
  ghost function Growth(history: seq<Attempt>): int {
    if history == [] then 0 else |Run(history).events| - |Run(Front(history)).events|
  }

  lemma GrowthOfLast(history: seq<Attempt>, a: Attempt)
    ensures Growth(history + [a]) == |Run(history + [a]).events| - |Run(history).events|
  {
    assert Front(history + [a]) == history;
  }

  lemma InsertedIsGrowth(history: seq<Attempt>, a: Attempt, t: Tables, t': Tables)
    requires WellFormed(history) && IsOrdering(a.batch, a.rows) && a.reply == Ok
    requires t == Run(history) && t' == Run(history + [a])
    ensures Apply(t, a.batch, a.rows).Applied?
    ensures Growth(history + [a]) == Apply(t, a.batch, a.rows).inserted == |t'.events| - |t.events|
  {
    OneMoreAttempt(history, a);
    ApplyGrows(t, a.batch, a.rows);
    GrowthOfLast(history, a);
  }

  /** One more report, on these events. */
  predicate Reported(before: seq<Report>, after: seq<Report>, events: seq<Event>) {
    |after| == |before| + 1 && Front(after) == before && Last(after).events == events
  }

  lemma EventsNext(inputs: seq<Input>, i: nat)
    requires i < |inputs|
    ensures Events(inputs[..i + 1]) == Events(inputs[..i]) + Events([inputs[i]])
  {
    assert Front(inputs[..i + 1]) == inputs[..i] && Front([inputs[i]]) == [];
  }

  /** A worker, its sink, and the outcome of every insert call it will ever make. */
  class Worker {
    const batchSize: nat
    const maxRetries: nat
    const db: Db
    const outcome: nat -> Reply
    var calls: nat
    var batch: seq<Event>
    var reports: seq<Report>
    ghost var history: seq<Attempt>

    ghost predicate Valid()
      reads this, db
    {
      && batchSize > 0 && maxRetries > 0
      && WellFormed(history) && db.tables == Run(history)
      && forall i :: 0 <= i < |reports| ==> ReportOk(reports[i], batchSize, db.tables)
    }

    constructor (batchSize: int, maxRetries: int, db: Db, outcome: nat -> Reply, ghost history: seq<Attempt>)
      requires WellFormed(history) && db.tables == Run(history)
      ensures Valid() && this.db == db && batch == [] && reports == [] && this.history == history
      ensures this.batchSize == BatchSizeOf(batchSize) && this.maxRetries == MaxRetriesOf(maxRetries)
    {
      this.batchSize := BatchSizeOf(batchSize);
      this.maxRetries := MaxRetriesOf(maxRetries);
      this.db, this.outcome, this.history := db, outcome, history;
      calls, batch, reports := 0, [], [];
    }

    /** What insert call number `i` answers for these events: none can succeed for a row that
        the schema does not take. */
    ghost function Answer(events: seq<Event>, i: nat): Reply {
      if TakesAll(db.takes, events) then outcome(i) else NotApplied
    }

    /** None of the attempts that a flush starting at the given call may make succeeds. */
    ghost predicate AllFail(events: seq<Event>, from: nat) {
      forall i :: from <= i < from + maxRetries ==> Answer(events, i) != Ok
    }

    ghost predicate Answered(tries: seq<Attempt>, events: seq<Event>, from: nat) {
      forall i :: 0 <= i < |tries| ==> tries[i].reply == Answer(events, from + i)
    }

    lemma AnsweredNext(tries: seq<Attempt>, events: seq<Event>, from: nat, a: Attempt)
      requires Answered(tries, events, from) && a.reply == Answer(events, from + |tries|)
      ensures Answered(tries + [a], events, from)
    {
    }

    lemma FlushFails(tries: seq<Attempt>, events: seq<Event>, from: nat, failed: bool)
      requires IsFlush(tries, events, maxRetries, failed) && Answered(tries, events, from)
      ensures failed <==> AllFail(events, from)
    {
      assert Last(tries).reply == Answer(events, from + (|tries| - 1));
      if failed {
        forall i | from <= i < from + maxRetries
          ensures Answer(events, i) != Ok
        {
          assert tries[i - from].reply != Ok && tries[i - from].reply == Answer(events, from + (i - from));
        }
      }
    }

    /** One insert call, as one more attempt of the history. */
    method InsertOnce(events: seq<Event>) returns (ok: bool, inserted: nat, ghost a: Attempt)
      requires Valid() && events != []
      modifies this`calls, this`history, db
      ensures Valid() && calls == old(calls) + 1 && history == old(history) + [a]
      ensures a.batch == events && IsOrdering(events, a.rows)
      ensures a.reply == Answer(events, old(calls)) && (ok <==> a.reply == Ok)
      ensures ok ==> Ids(events) <= db.tables.events.Keys && inserted <= |events|
      ensures ok ==> inserted == |db.tables.events| - |old(db.tables.events)| == Growth(history)
    {
      ghost var rows;
      ghost var before := db.tables;
      inserted, ok, rows := db.InsertBatch(events, outcome(calls));
      a := Attempt(events, rows, Answer(events, calls));
      OneMoreAttempt(history, a);
      if ok {
        InsertedIsGrowth(history, a, before, db.tables);
      }
      InsertedAtMost(before.events, rows);
      assert |rows| == |multiset(rows)| == |multiset(events)| == |events|;
      KeepReports(before, db.tables);
      history := history + [a];
      calls := calls + 1;
    }

    /** The retry loop of flush: at most maxRetries attempts, stopping at the first success. */
    method TryInsert(events: seq<Event>) returns (ok: bool, inserted: nat, ghost tries: seq<Attempt>)
      requires Valid() && events != []
      modifies this`calls, this`history, db
      ensures Valid() && calls == old(calls) + |tries| && history == old(history) + tries
      ensures IsFlush(tries, events, maxRetries, !ok) && Answered(tries, events, old(calls))
      ensures ok ==> Ids(events) <= db.tables.events.Keys && inserted <= |events| && inserted == Growth(history)
    {
      var attempt := 1;
      ok, inserted, tries := false, 0, [];
      while attempt <= maxRetries && !ok
        invariant Valid() && |tries| == attempt - 1 <= maxRetries
        invariant IsTrying(tries, events, ok) && Answered(tries, events, old(calls))
        invariant calls == old(calls) + |tries| && history == old(history) + tries
        invariant ok ==> Ids(events) <= db.tables.events.Keys && inserted <= |events| && inserted == Growth(history)
        decreases maxRetries - attempt, !ok
      {
        ghost var a;
        ok, inserted, a := InsertOnce(events);
        TryAgain(tries, events, a);
        AnsweredNext(tries, events, old(calls), a);
        tries := tries + [a];
        attempt := attempt + 1;
      }
      TryingEnds(tries, events, ok, maxRetries);
    }

    lemma KeepReports(before: Tables, after: Tables)
      requires before.events.Keys <= after.events.Keys
      requires forall i :: 0 <= i < |reports| ==> ReportOk(reports[i], batchSize, before)
      ensures forall i :: 0 <= i < |reports| ==> ReportOk(reports[i], batchSize, after)
    {
    }

    /** flush: an empty batch is skipped; otherwise one report, with an error exactly when
        all attempts failed, and else with the growth of the events table by the attempt that
        succeeded; the batch is empty again either way. */
    method Flush() returns (ghost tries: seq<Attempt>)
      requires Valid() && |batch| <= batchSize
      modifies this, db
      ensures Valid() && batch == [] && history == old(history) + tries
      ensures old(batch) == [] ==> reports == old(reports) && tries == []
      ensures old(batch) != [] ==> Reported(old(reports), reports, old(batch))
      ensures old(batch) != [] && !Last(reports).failed ==>
        Last(reports).inserted == Growth(history) && Last(reports).duplicates == |old(batch)| - Growth(history)
      ensures old(batch) != [] && Last(reports).failed ==> Last(reports).inserted == Last(reports).duplicates == 0
      ensures old(batch) != [] ==> (Last(reports).failed <==> AllFail(old(batch), old(calls)))
      ensures old(batch) != [] ==> IsFlush(tries, old(batch), maxRetries, Last(reports).failed)
      ensures Answerable(db.takes, old(batch), tries)
    {
      tries := [];
      if |batch| == 0 {
        return;
      }
      var events := batch;
      var ok, inserted;
      ok, inserted, tries := TryInsert(events);
      var report := if ok then Report(events, inserted, |events| - inserted, false) else Report(events, 0, 0, true);
      reports := reports + [report];
      batch := [];
      FlushFails(tries, events, old(calls), !ok);
    }

    /** The pool's view of this worker, at number `me`. */
    ghost predicate Matches(pool: Pool.System, me: nat)
      reads this
    {
      && Collecting(pool, me, batch) && pool.attempts == history
      && pool.batchSize == batchSize && pool.maxRetries == maxRetries && pool.takes == db.takes
    }

    /** A flush of a worker that stays: the pool goes from flushing to collecting again. */
    method FlushAndStay(ghost pool: Pool.System, ghost me: nat)
      returns (ghost steps: seq<Pool.Step>, ghost next: Pool.System)
      requires Valid() && 0 < |batch| <= batchSize
      requires InFlush(pool, me) && pool.workers[me] == Pool.Flushing(batch, 1, false) && pool.attempts == history
      requires Collecting(pool.(workers := pool.workers[me := Pool.Filling([])]), me, [])
      requires pool.batchSize == batchSize && pool.maxRetries == maxRetries && pool.takes == db.takes
      modifies this, db
      ensures Valid() && batch == [] && Leads(pool, steps, next) && Matches(next, me) && next.accepted == pool.accepted
      ensures Reported(old(reports), reports, old(batch))
      ensures Flushed(reports) == Flushed(old(reports)) + old(batch)
    {
      ghost var tries := Flush();
      steps := FlushLeads(pool, me, tries, Last(reports).failed);
      next := Ended(pool, me, tries, Last(reports).failed);
    }

    /** An event from the channel: the batch is flushed exactly when this event fills it. */
    method OnEvent(e: Event, ghost pool: Pool.System, ghost me: nat)
      returns (ghost steps: seq<Pool.Step>, ghost next: Pool.System)
      requires Valid() && |batch| < batchSize && Matches(pool, me)
      modifies this, db
      ensures Valid() && |batch| < batchSize && Matches(next, me) && Leads(pool, steps, next)
      ensures Flushed(reports) + batch == Flushed(old(reports)) + old(batch) + [e]
      ensures if |old(batch)| + 1 < batchSize then batch == old(batch) + [e] && reports == old(reports)
              else batch == [] && Reported(old(reports), reports, old(batch) + [e])
      ensures next.accepted == pool.accepted + multiset{e}
    {
      FeedLeads(pool, me, e);
      steps, next := [Pool.Check(0, e), Pool.Send(0), Pool.Receive(me)], Fed(pool, me, e);
      batch := batch + [e];
      if |batch| >= batchSize {
        ghost var fed := next;
        ghost var more;
        more, next := FlushAndStay(fed, me);
        LeadsJoin(pool, steps, fed, more, next);
        steps := steps + more;
      }
    }

    /** A tick: whatever there is is flushed. */
    method OnTick(ghost pool: Pool.System, ghost me: nat) returns (ghost steps: seq<Pool.Step>, ghost next: Pool.System)
      requires Valid() && |batch| < batchSize && Matches(pool, me)
      modifies this, db
      ensures Valid() && batch == [] && Matches(next, me) && Leads(pool, steps, next)
      ensures if old(batch) == [] then reports == old(reports) else Reported(old(reports), reports, old(batch))
      ensures Flushed(reports) == Flushed(old(reports)) + old(batch)
      ensures next.accepted == pool.accepted
    {
      Shutdown.OneStep(pool, Pool.Tick(me));
      if |batch| == 0 {
        steps, next := [Pool.Tick(me)], pool;
        ghost var none := Flush();
      } else {
        ghost var ticked := Pool.Take(pool, Pool.Tick(me));
        ghost var more;
        more, next := FlushAndStay(ticked, me);
        LeadsJoin(pool, [Pool.Tick(me)], ticked, more, next);
        steps := [Pool.Tick(me)] + more;
      }
    }

    /** One turn of run's select on an event or a tick, as a run of the pool's steps. */
    method Turn(input: Input, ghost pool: Pool.System, ghost me: nat)
      returns (ghost steps: seq<Pool.Step>, ghost next: Pool.System)
      requires Valid() && |batch| < batchSize && Matches(pool, me)
      modifies this, db
      ensures Valid() && |batch| < batchSize && Matches(next, me) && Leads(pool, steps, next)
      ensures Flushed(reports) + batch == Flushed(old(reports)) + old(batch) + Events([input])
      ensures next.accepted == pool.accepted + multiset(Events([input]))
    {
      assert Front([input]) == [];
      if input.Received? {
        steps, next := OnEvent(input.e, pool, me);
      } else {
        steps, next := OnTick(pool, me);
      }
    }

    /** The closed channel: flush whatever is left, then exit. */
    method Finish(ghost pool: Pool.System, ghost me: nat) returns (ghost steps: seq<Pool.Step>, ghost next: Pool.System)
      requires Valid() && |batch| < batchSize && Matches(pool, me)
      modifies this, db
      ensures Valid() && batch == [] && Leads(pool, steps, next)
      ensures me < |next.workers| && next.workers[me].Exited?
      ensures next.attempts == history && next.accepted == pool.accepted
      ensures if old(batch) == [] then reports == old(reports) else Reported(old(reports), reports, old(batch))
      ensures Flushed(reports) == Flushed(old(reports)) + old(batch)
    {
      CloseLeads(pool, me);
      ghost var closing := Dismissed(pool, me);
      steps, next := [Pool.SetClosed, Pool.CloseChannel, Pool.ReceiveClosed(me)], closing;
      ghost var empty := batch == [];
      ghost var tries := Flush();
      if !empty {
        ghost var more := FlushLeads(closing, me, tries, Last(reports).failed);
        next := Ended(closing, me, tries, Last(reports).failed);
        LeadsJoin(pool, steps, closing, more, next);
        steps := steps + more;
      }
    }

    /** run: from the first event to the closed channel, the flushed batches are the received
        events, in order and without loss or repetition; and all of it is a run of the pool, in
        which the events are accepted one by one and the worker exits at the end. */
    method RunLoop(inputs: seq<Input>, ghost pool: Pool.System, ghost me: nat)
      returns (ghost steps: seq<Pool.Step>, ghost end: Pool.System)
      requires Valid() && batch == [] && reports == [] && Matches(pool, me)
      modifies this, db
      ensures Valid() && batch == []
      ensures Flushed(reports) == Events(inputs)
      ensures Leads(pool, steps, end) && me < |end.workers| && end.workers[me].Exited? && end.attempts == history
      ensures end.accepted == pool.accepted + multiset(Events(inputs))
    {
      var i := 0;
      ghost var more;
      steps, end := [], pool;
      while i < |inputs|
        invariant 0 <= i <= |inputs|
        invariant Valid() && |batch| < batchSize && Matches(end, me) && Leads(pool, steps, end)
        invariant Flushed(reports) + batch == Events(inputs[..i])
        invariant end.accepted == pool.accepted + multiset(Events(inputs[..i]))
      {
        ghost var before := end;
        more, end := Turn(inputs[i], before, me);
        LeadsJoin(pool, steps, before, more, end);
        steps := steps + more;
        EventsNext(inputs, i);
        i := i + 1;
      }
      assert inputs[..|inputs|] == inputs;
      ghost var before := end;
      more, end := Finish(before, me);
      LeadsJoin(pool, steps, before, more, end);
      steps := steps + more;
    }
  }
}
