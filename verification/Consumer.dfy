/** internal/queue/kafka.go: one turn of KafkaConsumer.Run as the loops it is: decode, insert
    until success, and only then commit offsets. Each turn is a run of the protocol of module
    Delivery, so everything proved there about all runs holds for this code. */
module Consumer {
  import opened Words
  import opened Store
  import opened Database
  import opened Delivery
  import opened Reading
  import opened Recovery

  /** NewKafkaConsumer: a batch size that is not positive becomes 1000. */
  function PollSize(configured: int): (n: nat)
    ensures n > 0 && n == if configured > 0 then configured else 1000
  {
    if configured <= 0 then 1000 else configured
  }

  /** The decoding loop: a malformed record is skipped. */
  method DecodeRecords(records: seq<Record>) returns (events: seq<Event>)
    ensures events == Decodable(records)
  {
    events := [];
    var i := 0;
    while i < |records|
      invariant 0 <= i <= |records|
      invariant events == Decodable(records[..i])
    {
      assert Front(records[..i + 1]) == records[..i];
      if records[i].Good? {
        events := events + [records[i].event];
      }
      i := i + 1;
    }
    assert records[..|records|] == records;
  }

  /** The steps lead from one state of the protocol to another. */
  ghost predicate Leads(s: System, steps: seq<Step>, s': System) {
    Possible(s, steps) && After(s, steps) == s'
  }

  lemma LeadsOn(s: System, steps: seq<Step>, middle: System, step: Step)
    requires Leads(s, steps, middle) && Enabled(middle, step)
    ensures Leads(s, steps + [step], Take(middle, step))
  {
  }

  lemma LeadsJoin(s: System, first: seq<Step>, middle: System, second: seq<Step>, s': System)
    requires Leads(s, first, middle) && Leads(middle, second, s')
    ensures Leads(s, first + second, s')
  {
    JoinRuns(s, first, second);
  }

  /** The worker holds `events` and inserts them. */
  ghost predicate Carrying(s: System, w: nat, events: seq<Event>) {
    && w in s.workers && s.workers[w].phase == Inserting
    && SpansInLog(s, s.workers[w].spans)
    && events == Decodable(Polled(s, s.workers[w].spans))
  }

  /** What an insert leaves alone. */
  ghost predicate OnlyInserts(s: System, s': System, w: nat) {
    && s'.logs == s.logs && s'.offsets == s.offsets && s'.sent == s.sent && s'.takes == s.takes
    && w in s.workers && w in s'.workers && s'.workers[w].spans == s.workers[w].spans
    && s'.workers[w].positions == s.workers[w].positions
  }

  lemma {:induction false} SamePolled(s: System, s': System, spans: seq<Span>)
    requires s'.logs == s.logs && SpansInLog(s, spans)
    ensures SpansInLog(s', spans) && Polled(s', spans) == Polled(s, spans)
  {
    assert forall p :: Log(s', p) == Log(s, p);
    assert forall i :: 0 <= i < |spans| ==> InLog(s, spans[i]) && InLog(s', spans[i]);
    if spans != [] {
      SamePolled(s, s', Front(spans));
    }
  }

  /** One insert call as a step: it is recorded, and success ends the inserting. */
  lemma InsertStep(s: System, w: nat, events: seq<Event>, rows: seq<Event>, reply: Reply)
    requires Carrying(s, w, events) && IsOrdering(events, rows) && (reply != NotApplied ==> TakesAll(s.takes, events))
    ensures Enabled(s, Insert(w, rows, reply))
    ensures var s' := Take(s, Insert(w, rows, reply));
            && s'.attempts == s.attempts + [Attempt(events, rows, reply)]
            && OnlyInserts(s, s', w)
            && (if reply == Ok then s'.workers[w].phase == Inserted else Carrying(s', w, events))
  {
    SamePolled(s, Take(s, Insert(w, rows, reply)), s.workers[w].spans);
  }

  lemma PollStep(s: System, w: nat, spans: seq<Span>)
    requires w in s.workers && CanPoll(s, s.workers[w], spans)
    ensures var s' := Take(s, Poll(w, spans));
            && Carrying(s', w, Decodable(Polled(s, spans))) && s'.workers[w].spans == spans
            && s'.attempts == s.attempts && s'.offsets == s.offsets
            && s'.takes == s.takes && s'.batchSize == s.batchSize
            && Moved(s.workers[w].positions, s'.workers[w].positions, spans)
  {
    PollMoves(s, w, spans);
    SamePolled(s, Take(s, Poll(w, spans)), spans);
  }

  lemma ApplyStep(s: System, i: nat, span: Span)
    requires i < |s.sent| && s.sent[i] == span
    ensures var s' := Take(s, ApplyCommit(i));
            && s'.attempts == s.attempts && s'.sent == s.sent && s'.offsets == s.offsets[span.p := span.to]
            && s'.workers == s.workers
  {
  }

  lemma EmptyInsert(history: seq<Attempt>, rows: seq<Event>)
    requires WellFormed(history) && IsOrdering([], rows)
    ensures Run(history + [Attempt([], rows, Ok)]) == Run(history)
  {
    RunIsConsistent(history);
    OneMoreAttempt(history, Attempt([], rows, Ok));
    ReplayIsAbsorbed(Run(history), Committed(history), [], rows);
  }

  /** A worker process: its database handle, the group's committed offsets, and the state of
      the whole protocol that it takes part in as worker `me`. */
  class KafkaConsumer {
    const db: Db
    const me: nat
    const batchSize: nat
    var offsets: map<nat, nat>
    ghost var state: System

    ghost predicate Coupled()
      reads this, db
    {
      && WellFormed(state.attempts) && db.tables == Run(state.attempts) && offsets == state.offsets
      && db.takes == state.takes && batchSize == state.batchSize
    }

    ghost predicate Valid()
      reads this, db
    {
      Coupled() && Delivery.Valid(state)
    }

    /** NewKafkaConsumer, joining a group that polls with the same batch size. */
    constructor (db: Db, me: nat, batchSize: int, offsets: map<nat, nat>, ghost state: System)
      requires Delivery.Valid(state) && db.tables == Run(state.attempts) && offsets == state.offsets
      requires db.takes == state.takes && state.batchSize == PollSize(batchSize)
      ensures Valid() && this.db == db && this.me == me && this.state == state
      ensures this.batchSize == PollSize(batchSize)
    {
      this.db, this.me, this.offsets, this.state := db, me, offsets, state;
      this.batchSize := PollSize(batchSize);
    }

    /** One insert call. An empty batch is answered without asking the database. */
    method InsertOnce(events: seq<Event>, reply: Reply) returns (ok: bool, ghost step: Step)
      requires Coupled() && Carrying(state, me, events)
      modifies this`state, db
      ensures Coupled() && Enabled(old(state), step) && state == Take(old(state), step)
      ensures ok <==> events == [] || (reply == Ok && TakesAll(db.takes, events))
      ensures OnlyInserts(old(state), state, me)
      ensures if ok then state.workers[me].phase == Inserted else Carrying(state, me, events)
    {
      var inserted: nat;
      ghost var rows;
      inserted, ok, rows := db.InsertBatch(events, reply);
      ghost var answer := if events == [] then Ok else if TakesAll(db.takes, events) then reply else NotApplied;
      OneMoreAttempt(state.attempts, Attempt(events, rows, answer));
      if events == [] {
        EmptyInsert(state.attempts, rows);
      }
      InsertStep(state, me, events, rows, answer);
      step := Insert(me, rows, answer);
      state := Take(state, step);
    }

    /** Insert with patient retries: stop at the first success; the replies running out is
        the shutdown that interrupts the wait after a failure. */
    method InsertUntilStored(events: seq<Event>, replies: seq<Reply>) returns (ok: bool, ghost steps: seq<Step>)
      requires Coupled() && Carrying(state, me, events) && replies != []
      modifies this`state, db
      ensures Coupled() && Leads(old(state), steps, state)
      ensures ok <==> events == [] || (Ok in replies && TakesAll(db.takes, events))
      ensures OnlyInserts(old(state), state, me)
      ensures ok ==> state.workers[me].phase == Inserted
    {
      var tries := 0;
      ok, steps := false, [];
      while tries < |replies| && !ok
        invariant 0 <= tries <= |replies| && Coupled() && Leads(old(state), steps, state)
        invariant OnlyInserts(old(state), state, me)
        invariant if ok then state.workers[me].phase == Inserted else Carrying(state, me, events)
        invariant ok ==> events == [] || (Ok in replies && TakesAll(db.takes, events))
        invariant !ok && tries > 0 ==> events != [] && (Ok !in replies[..tries] || !TakesAll(db.takes, events))
        decreases |replies| - tries, !ok
      {
        ghost var step;
        ghost var before := state;
        ok, step := InsertOnce(events, replies[tries]);
        LeadsOn(old(state), steps, before, step);
        steps := steps + [step];
        tries := tries + 1;
      }
      assert replies[..|replies|] == replies;
    }

    /** The broker applies the commit of each partition. */
    method ApplyCommits(ghost sent: nat, spans: seq<Span>) returns (ghost steps: seq<Step>)
      requires Coupled() && sent + |spans| == |state.sent| && state.sent[sent..] == spans
      modifies this`state, this`offsets
      ensures Coupled() && Leads(old(state), steps, state) && state.workers == old(state.workers)
      ensures offsets == Advanced(old(offsets), spans)
    {
      steps := [];
      var i := 0;
      while i < |spans|
        invariant 0 <= i <= |spans| && Coupled() && Leads(old(state), steps, state)
        invariant state.sent == old(state.sent) && state.workers == old(state.workers)
        invariant offsets == Advanced(old(offsets), spans[..i])
      {
        assert Front(spans[..i + 1]) == spans[..i];
        ApplyStep(state, sent + i, spans[i]);
        LeadsOn(old(state), steps, state, ApplyCommit(sent + i));
        steps := steps + [ApplyCommit(sent + i)];
        state := Take(state, ApplyCommit(sent + i));
        offsets := offsets[spans[i].p := spans[i].to];
        i := i + 1;
      }
      assert spans[..|spans|] == spans;
    }

    /** CommitRecords. When the broker never applies it, the commit stays sent. */
    method CommitRecords(spans: seq<Span>, applied: bool) returns (ghost steps: seq<Step>)
      requires Coupled() && me in state.workers
      requires state.workers[me].phase == Inserted && state.workers[me].spans == spans
      modifies this`state, this`offsets
      ensures Coupled() && Leads(old(state), steps, state)
      ensures me in state.workers && state.workers[me].positions == old(state.workers[me].positions)
      ensures offsets == if applied then Advanced(old(offsets), spans) else old(offsets)
    {
      ghost var start := state;
      OneStep(start, SendCommit(me));
      steps := [SendCommit(me)];
      state := Take(start, SendCommit(me));
      if applied {
        ghost var sent := state;
        ghost var commits;
        commits := ApplyCommits(|start.sent|, spans);
        LeadsJoin(start, steps, sent, commits, state);
        steps := steps + commits;
      }
    }

    /** The poll and the inserts of a turn. */
    method PollAndInsert(events: seq<Event>, ghost spans: seq<Span>, replies: seq<Reply>)
      returns (ok: bool, ghost steps: seq<Step>)
      requires Coupled() && replies != [] && me in state.workers && CanPoll(state, state.workers[me], spans)
      requires events == Decodable(Polled(state, spans))
      modifies this`state, db
      ensures Coupled() && Leads(old(state), steps, state)
      ensures ok <==> events == [] || (Ok in replies && TakesAll(db.takes, events))
      ensures me in state.workers && Moved(old(state.workers[me].positions), state.workers[me].positions, spans)
      ensures ok ==> state.workers[me].phase == Inserted && state.workers[me].spans == spans
    {
      ghost var start := state;
      PollStep(start, me, spans);
      OneStep(start, Poll(me, spans));
      state := Take(start, Poll(me, spans));
      ghost var polled := state;
      ok, steps := InsertUntilStored(events, replies);
      LeadsJoin(start, [Poll(me, spans)], polled, steps, state);
      steps := [Poll(me, spans)] + steps;
    }

    /** One turn of Run on the records of one poll. It is a run of the protocol: a poll, the
        insert attempts and, only after one of them succeeded, the offset commit. A turn
        interrupted by shutdown leaves the offsets alone, so the records are polled again by
        whoever is assigned their partitions next; this worker reads on after them. */
    method RunBatch(records: seq<Record>, spans: seq<Span>, replies: seq<Reply>, applied: bool)
      returns (stopped: bool, ghost steps: seq<Step>)
      requires Valid() && replies != []
      requires records != [] ==> && me in state.workers && CanPoll(state, state.workers[me], spans)
                                 && records == Polled(state, spans)
      modifies this, db
      ensures Valid() && Leads(old(state), steps, state)
      ensures records != [] ==>
        me in state.workers && Moved(old(state.workers[me].positions), state.workers[me].positions, spans)
      ensures stopped <==> Decodable(records) != [] && (Ok !in replies || !TakesAll(db.takes, Decodable(records)))
      ensures offsets == if records == [] || stopped || !applied then old(offsets) else Advanced(old(offsets), spans)
    {
      if records == [] {
        return false, [];
      }
      ghost var start := state;
      var events := DecodeRecords(records);
      var ok;
      ok, steps := PollAndInsert(events, spans, replies);
      if ok {
        ghost var inserted := state;
        ghost var commits;
        commits := CommitRecords(spans, applied);
        LeadsJoin(start, steps, inserted, commits, state);
        steps := steps + commits;
      }
      Delivery.RunKeepsValid(start, steps);
      stopped := !ok;
    }
  }
}
