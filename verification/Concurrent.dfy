/** internal/queue/kafka.go on internal/store/store.go: the delivery protocol and the database
    transactions of its workers in one system. Workers poll, run their InsertBatch transactions
    statement by statement under row locks, give up on them, try again while the database is
    still at work on the last attempt, and commit offsets, all interleaved. Module Delivery takes
    an insert as one step; here it is as many as it really is. */
module Concurrent {
  import opened Words
  import opened Store
  import D = Delivery
  import T = Transactions
  import P = Progress
  import R = Recovery

  /** The protocol, whose attempts are recorded when they end; the database; and the transaction
      that each worker is waiting for. Any other open transaction has lost its worker: it timed
      out, or the worker crashed. */
  datatype State = State(protocol: D.System, world: T.World, current: map<nat, nat>)

  datatype Step =
    | Protocol(step: D.Step)
    | Begin(w: nat, tid: nat, rows: seq<Event>)
    | Statement(tid: nat)
    | Commit(w: nat, reply: Reply)
    | Abort(w: nat)
    | GiveUp(w: nat)
    | LateCommit(tid: nat)
    | LateAbort(tid: nat)

  predicate Inserting(p: D.System, w: nat) {
    w in p.workers && p.workers[w].phase == D.Inserting
  }

  /** The events in a worker's hands. */
  ghost function Batch(p: D.System, w: nat): seq<Event>
    requires w in p.workers && D.SpansInLog(p, p.workers[w].spans)
  {
    D.Decodable(D.Polled(p, p.workers[w].spans))
  }

  /** Steps of the protocol that are not the end of a transaction. An empty batch needs none. */
  ghost predicate Outside(s: State, step: D.Step) {
    !step.Late? && (step.Insert? ==> step.reply == Ok && step.w !in s.current && step.rows == [])
  }

  predicate HasCurrent(s: State, w: nat) {
    w in s.current && s.current[w] in s.world.txns
  }

  /** The step of the protocol that ends a worker's call. */
  function Ending(s: State, w: nat, reply: Reply): D.Step
    requires HasCurrent(s, w)
  {
    D.Insert(w, s.world.txns[s.current[w]].rows, reply)
  }

  /** A transaction that no worker waits for any more. */
  ghost predicate Detached(s: State, tid: nat) {
    tid in s.world.txns && forall w :: w in s.current ==> s.current[w] != tid
  }

  function LateEnding(s: State, tid: nat): D.Step
    requires tid in s.world.txns
  {
    D.Late(s.world.txns[tid].batch, s.world.txns[tid].rows)
  }

  ghost predicate Enabled(s: State, step: Step) {
    match step
    case Protocol(d) => D.Enabled(s.protocol, d) && Outside(s, d)
    case Begin(w, tid, rows) =>
      && w !in s.current && Inserting(s.protocol, w) && D.SpansInLog(s.protocol, s.protocol.workers[w].spans)
      && Batch(s.protocol, w) != []
      && T.Enabled(s.world, T.Begin(tid, Batch(s.protocol, w), rows))
    case Statement(tid) => T.Enabled(s.world, T.Forward(tid))
    case Commit(w, reply) =>
      && HasCurrent(s, w) && T.Enabled(s.world, T.Commit(s.current[w]))
      && reply != NotApplied && D.Enabled(s.protocol, Ending(s, w, reply))
    case Abort(w) => HasCurrent(s, w) && D.Enabled(s.protocol, Ending(s, w, NotApplied))
    case GiveUp(w) => HasCurrent(s, w) && D.Enabled(s.protocol, Ending(s, w, NotApplied))
    case LateCommit(tid) =>
      Detached(s, tid) && T.Enabled(s.world, T.Commit(tid)) && D.Enabled(s.protocol, LateEnding(s, tid))
    case LateAbort(tid) => Detached(s, tid)
  }

  ghost function Take(s: State, step: Step): State
    requires Enabled(s, step)
  {
    match step
    case Protocol(d) =>
      s.(protocol := D.Take(s.protocol, d), current := if d.Crash? then s.current - {d.w} else s.current)
    case Begin(w, tid, rows) =>
      s.(world := T.Take(s.world, T.Begin(tid, Batch(s.protocol, w), rows)), current := s.current[w := tid])
    case Statement(tid) => s.(world := T.Take(s.world, T.Forward(tid)))
    case Commit(w, reply) =>
      State(D.Take(s.protocol, Ending(s, w, reply)), T.Take(s.world, T.Commit(s.current[w])), s.current - {w})
    case Abort(w) =>
      State(D.Take(s.protocol, Ending(s, w, NotApplied)), T.Take(s.world, T.Abort(s.current[w])), s.current - {w})
    case GiveUp(w) => s.(protocol := D.Take(s.protocol, Ending(s, w, NotApplied)), current := s.current - {w})
    case LateCommit(tid) =>
      s.(protocol := D.Take(s.protocol, LateEnding(s, tid)), world := T.Take(s.world, T.Commit(tid)))
    case LateAbort(tid) => s.(world := T.Take(s.world, T.Abort(tid)))
  }

  ghost predicate Possible(s: State, steps: seq<Step>)
    decreases |steps|, 0
  {
    steps == [] || (Possible(s, Front(steps)) && Enabled(After(s, Front(steps)), Last(steps)))
  }

  ghost function After(s: State, steps: seq<Step>): State
    requires Possible(s, steps)
    decreases |steps|, 1
  {
    if steps == [] then s else Take(After(s, Front(steps)), Last(steps))
  }

  // ---- The invariant ----

  /** What an ended attempt adds to the log of the database. */
  function Logged(a: Attempt): seq<Attempt> {
    if a.reply == NotApplied || a.batch == [] then [] else [Attempt(a.batch, a.rows, Ok)]
  }

  /** The committed attempts, as the database logs them. */
  function Applied(attempts: seq<Attempt>): seq<Attempt> {
    if attempts == [] then [] else Applied(Front(attempts)) + Logged(Last(attempts))
  }

  lemma RunNext(attempts: seq<Attempt>, a: Attempt)
    ensures Run(attempts + [a]) == Perform(Run(attempts), a)
  {
    assert Front(attempts + [a]) == attempts;
  }

  lemma EmptyPerform(t: Tables, a: Attempt)
    requires IsOrdering(a.batch, a.rows) && a.batch == []
    ensures Perform(t, a) == t
  {
    assert |multiset(a.rows)| == 0;
    assert a.rows == [];
    EmptyApply(t);
  }

  lemma LoggedRuns(attempts: seq<Attempt>, a: Attempt)
    requires IsOrdering(a.batch, a.rows)
    ensures Run(attempts + Logged(a)) == Perform(Run(attempts), a)
  {
    if Logged(a) == [] {
      assert attempts + Logged(a) == attempts;
      if a.batch == [] {
        EmptyPerform(Run(attempts), a);
      }
    } else {
      RunNext(attempts, Attempt(a.batch, a.rows, Ok));
    }
  }

  lemma AppliedRunsOn(attempts: seq<Attempt>, a: Attempt)
    requires WellFormed(attempts) && IsOrdering(a.batch, a.rows) && Run(Applied(attempts)) == Run(attempts)
    ensures Run(Applied(attempts + [a])) == Run(attempts + [a])
  {
    AppliedNext(attempts, a);
    LoggedRuns(Applied(attempts), a);
    RunNext(attempts, a);
  }

  lemma {:induction false} AppliedRuns(attempts: seq<Attempt>)
    requires WellFormed(attempts)
    ensures Run(Applied(attempts)) == Run(attempts)
  {
    if attempts != [] {
      var front, last := Front(attempts), Last(attempts);
      assert WellFormed(front) && last in attempts;
      AppliedRuns(front);
      AppliedRunsOn(front, last);
      assert front + [last] == attempts;
    }
  }

  lemma AppliedNext(attempts: seq<Attempt>, a: Attempt)
    ensures Applied(attempts + [a]) == Applied(attempts) + Logged(a)
  {
    assert Front(attempts + [a]) == attempts;
  }

  /** An open transaction carries the events in its worker's hands. */
  ghost predicate Carries(p: D.System, w: nat, x: T.Txn) {
    && Inserting(p, w) && D.SpansInLog(p, p.workers[w].spans)
    && x.batch == Batch(p, w) && x.batch != [] && IsOrdering(x.batch, x.rows)
  }

  ghost predicate AllCarry(p: D.System, txns: map<nat, T.Txn>, current: map<nat, nat>) {
    forall w :: w in current ==> current[w] in txns && Carries(p, w, txns[current[w]])
  }

  ghost predicate Distinct(current: map<nat, nat>) {
    forall v, w :: v in current && w in current && v != w ==> current[v] != current[w]
  }

  /** Every open transaction, also one that lost its worker, carries records of the logs. */
  ghost predicate FromLog(p: D.System, x: T.Txn) {
    x.batch != [] && IsOrdering(x.batch, x.rows) && forall e :: e in x.batch ==> e in D.LogEvents(p)
  }

  ghost predicate AllFromLog(p: D.System, txns: map<nat, T.Txn>) {
    forall tid :: tid in txns ==> FromLog(p, txns[tid])
  }

  ghost predicate Valid(s: State) {
    && D.Valid(s.protocol) && T.Valid(s.world)
    && s.world.log == Applied(s.protocol.attempts)
    && AllCarry(s.protocol, s.world.txns, s.current) && Distinct(s.current)
    && AllFromLog(s.protocol, s.world.txns)
  }

  /** A worker's transaction can always be rolled back, and a finished one be committed if the
      schema takes its rows: the protocol never stands in the way. */
  lemma EndingIsEnabled(s: State, w: nat, reply: Reply)
    requires HasCurrent(s, w) && Carries(s.protocol, w, s.world.txns[s.current[w]])
    requires reply != NotApplied ==> TakesAll(s.protocol.takes, s.world.txns[s.current[w]].batch)
    ensures D.Enabled(s.protocol, Ending(s, w, reply))
  {
  }

  // ---- Every step keeps it ----

  lemma {:induction false} PolledGrows(p: D.System, p': D.System, spans: seq<D.Span>)
    requires D.SpansInLog(p, spans) && forall q :: D.Log(p, q) <= D.Log(p', q)
    ensures D.SpansInLog(p', spans) && D.Polled(p', spans) == D.Polled(p, spans)
  {
    forall i | 0 <= i < |spans|
      ensures D.InLog(p', spans[i])
    {
      assert D.InLog(p, spans[i]) && D.Log(p, spans[i].p) <= D.Log(p', spans[i].p);
    }
    if spans != [] {
      PolledGrows(p, p', Front(spans));
      var span := Last(spans);
      assert D.InLog(p, spans[|spans| - 1]) && D.Log(p, span.p) <= D.Log(p', span.p);
      assert D.Log(p, span.p)[span.from..span.to] == D.Log(p', span.p)[span.from..span.to];
    }
  }

  /** A worker that keeps its records and its phase goes on carrying them. */
  lemma StillCarries(p: D.System, p': D.System, w: nat, x: T.Txn)
    requires Carries(p, w, x) && Inserting(p', w) && p'.workers[w].spans == p.workers[w].spans
    requires forall q :: D.Log(p, q) <= D.Log(p', q)
    ensures Carries(p', w, x)
  {
    PolledGrows(p, p', p.workers[w].spans);
  }

  lemma LogsGrow(p: D.System, d: D.Step, q: nat)
    requires D.Enabled(p, d)
    ensures D.Log(p, q) <= D.Log(D.Take(p, d), q)
  {
  }

  lemma HandsStay(p: D.System, d: D.Step, w: nat, x: T.Txn)
    requires Carries(p, w, x) && D.Enabled(p, d) && (d.Insert? || d.Crash? ==> d.w != w)
    ensures Inserting(D.Take(p, d), w) && D.Take(p, d).workers[w].spans == p.workers[w].spans
  {
  }

  /** No step but the end of its own insert, or its crash, takes the records out of a worker's
      hands while it inserts. */
  lemma StepKeepsCarrying(p: D.System, d: D.Step, w: nat, x: T.Txn)
    requires Carries(p, w, x) && D.Enabled(p, d) && (d.Insert? || d.Crash? ==> d.w != w)
    ensures Carries(D.Take(p, d), w, x)
  {
    HandsStay(p, d, w, x);
    forall q
      ensures D.Log(p, q) <= D.Log(D.Take(p, d), q)
    {
      LogsGrow(p, d, q);
    }
    StillCarries(p, D.Take(p, d), w, x);
  }

  lemma LogEventsGrow(p: D.System, d: D.Step, e: Event)
    requires D.Enabled(p, d) && e in D.LogEvents(p)
    ensures e in D.LogEvents(D.Take(p, d))
  {
    var q, i :| q in p.logs && 0 <= i < |p.logs[q]| && p.logs[q][i].Good? && p.logs[q][i].event == e;
    var p' := D.Take(p, d);
    assert q in p'.logs && i < |p'.logs[q]| && p'.logs[q][i] == p.logs[q][i];
  }

  lemma StepKeepsFromLog(p: D.System, d: D.Step, txns: map<nat, T.Txn>)
    requires D.Enabled(p, d) && AllFromLog(p, txns)
    ensures AllFromLog(D.Take(p, d), txns)
  {
    forall tid | tid in txns
      ensures FromLog(D.Take(p, d), txns[tid])
    {
      assert FromLog(p, txns[tid]);
      forall e | e in txns[tid].batch
        ensures e in D.LogEvents(D.Take(p, d))
      {
        LogEventsGrow(p, d, e);
      }
    }
  }

  /** A step of the protocol that ends the insert of no worker in `current`, and crashes none. */
  lemma StepKeepsAllCarrying(p: D.System, d: D.Step, txns: map<nat, T.Txn>, current: map<nat, nat>)
    requires D.Enabled(p, d) && AllCarry(p, txns, current) && (d.Insert? || d.Crash? ==> d.w !in current)
    ensures AllCarry(D.Take(p, d), txns, current)
  {
    forall w | w in current
      ensures current[w] in txns && Carries(D.Take(p, d), w, txns[current[w]])
    {
      StepKeepsCarrying(p, d, w, txns[current[w]]);
    }
  }

  lemma FewerCarry(p: D.System, txns: map<nat, T.Txn>, current: map<nat, nat>, w: nat)
    requires AllCarry(p, txns, current) && Distinct(current)
    ensures AllCarry(p, txns, current - {w}) && Distinct(current - {w})
  {
  }

  /** Ending transactions that no worker waits for leaves the others as they are. */
  lemma WithoutDetached(p: D.System, txns: map<nat, T.Txn>, current: map<nat, nat>, tid: nat)
    requires AllCarry(p, txns, current) && forall w :: w in current ==> current[w] != tid
    ensures AllCarry(p, txns - {tid}, current)
  {
  }

  lemma OutsideLogsNothing(s: State, d: D.Step)
    requires D.Enabled(s.protocol, d) && Outside(s, d)
    ensures Applied(D.Take(s.protocol, d).attempts) == Applied(s.protocol.attempts)
  {
    if d.Insert? {
      var a := Attempt(Batch(s.protocol, d.w), d.rows, d.reply);
      assert |multiset(a.batch)| == |multiset(d.rows)| == 0;
      assert a.batch == [];
      AppliedNext(s.protocol.attempts, a);
    }
  }

  lemma ProtocolKeepsValid(s: State, d: D.Step)
    requires Valid(s) && Enabled(s, Protocol(d))
    ensures Valid(Take(s, Protocol(d)))
  {
    D.StepKeepsValid(s.protocol, d);
    OutsideLogsNothing(s, d);
    StepKeepsFromLog(s.protocol, d, s.world.txns);
    var current := if d.Crash? then s.current - {d.w} else s.current;
    if d.Crash? {
      FewerCarry(s.protocol, s.world.txns, s.current, d.w);
    }
    StepKeepsAllCarrying(s.protocol, d, s.world.txns, current);
  }

  lemma OneMoreCarries(p: D.System, txns: map<nat, T.Txn>, current: map<nat, nat>, w: nat, tid: nat, x: T.Txn)
    requires AllCarry(p, txns, current) && Distinct(current) && AllFromLog(p, txns)
    requires tid !in txns && w !in current && Carries(p, w, x) && FromLog(p, x)
    ensures AllCarry(p, txns[tid := x], current[w := tid]) && Distinct(current[w := tid])
    ensures AllFromLog(p, txns[tid := x])
  {
    assert forall v :: v in current ==> current[v] in txns;
  }

  lemma BeginCarries(p: D.System, w: nat, x: T.Txn)
    requires Inserting(p, w) && D.SpansInLog(p, p.workers[w].spans)
    requires x.batch == Batch(p, w) && x.batch != [] && IsOrdering(x.batch, x.rows)
    ensures Carries(p, w, x) && FromLog(p, x)
  {
    D.BatchIsFromLog(p, p.workers[w].spans);
  }

  lemma BeginKeepsValid(s: State, w: nat, tid: nat, rows: seq<Event>)
    requires Valid(s) && Enabled(s, Begin(w, tid, rows))
    ensures Valid(Take(s, Begin(w, tid, rows)))
  {
    var x := T.Take(s.world, T.Begin(tid, Batch(s.protocol, w), rows)).txns[tid];
    T.StepKeepsValid(s.world, T.Begin(tid, Batch(s.protocol, w), rows));
    BeginCarries(s.protocol, w, x);
    OneMoreCarries(s.protocol, s.world.txns, s.current, w, tid, x);
  }

  lemma StatementKeepsBatch(t: Tables, x: T.Txn)
    requires T.Executable(t, x, T.Next(x))
    ensures var x' := T.Execute(t, x, T.Next(x)); x'.batch == x.batch && x'.rows == x.rows
  {
  }

  /** Carrying depends on the batch and its rows only. */
  lemma SameBatchCarries(p: D.System, txns: map<nat, T.Txn>, current: map<nat, nat>, tid: nat, x: T.Txn)
    requires AllCarry(p, txns, current) && AllFromLog(p, txns) && tid in txns
    requires x.batch == txns[tid].batch && x.rows == txns[tid].rows
    ensures AllCarry(p, txns[tid := x], current) && AllFromLog(p, txns[tid := x])
  {
    var txns' := txns[tid := x];
    forall w | w in current
      ensures current[w] in txns' && Carries(p, w, txns'[current[w]])
    {
      assert Carries(p, w, txns[current[w]]);
    }
    forall t | t in txns'
      ensures FromLog(p, txns'[t])
    {
      assert FromLog(p, txns[t]);
    }
  }

  lemma StatementKeepsValid(s: State, tid: nat)
    requires Valid(s) && Enabled(s, Statement(tid))
    ensures Valid(Take(s, Statement(tid)))
  {
    T.StepKeepsValid(s.world, T.Forward(tid));
    StatementKeepsBatch(s.world.tables, s.world.txns[tid]);
    var x := T.Execute(s.world.tables, s.world.txns[tid], T.Next(s.world.txns[tid]));
    SameBatchCarries(s.protocol, s.world.txns, s.current, tid, x);
  }

  /** The end of one worker's call leaves the others' hands alone. */
  lemma EndingKeepsCarrying(s: State, w: nat, reply: Reply)
    requires Valid(s) && HasCurrent(s, w) && D.Enabled(s.protocol, Ending(s, w, reply))
    ensures var p', tid, others := D.Take(s.protocol, Ending(s, w, reply)), s.current[w], s.current - {w};
            && AllCarry(p', s.world.txns, others) && AllCarry(p', s.world.txns - {tid}, others)
            && Distinct(others) && AllFromLog(p', s.world.txns)
  {
    var d := Ending(s, w, reply);
    FewerCarry(s.protocol, s.world.txns, s.current, w);
    StepKeepsAllCarrying(s.protocol, d, s.world.txns, s.current - {w});
    StepKeepsFromLog(s.protocol, d, s.world.txns);
    WithoutDetached(D.Take(s.protocol, d), s.world.txns, s.current - {w}, s.current[w]);
  }

  lemma EndingIsRecorded(s: State, w: nat, reply: Reply)
    requires HasCurrent(s, w) && Carries(s.protocol, w, s.world.txns[s.current[w]])
    requires D.Enabled(s.protocol, Ending(s, w, reply))
    ensures var x := s.world.txns[s.current[w]];
            Applied(D.Take(s.protocol, Ending(s, w, reply)).attempts)
              == Applied(s.protocol.attempts) + if reply == NotApplied then [] else [Attempt(x.batch, x.rows, Ok)]
  {
    var x := s.world.txns[s.current[w]];
    AppliedNext(s.protocol.attempts, Attempt(x.batch, x.rows, reply));
  }

  lemma EndingKeepsValid(s: State, step: Step)
    requires Valid(s) && Enabled(s, step) && (step.Commit? || step.Abort? || step.GiveUp?)
    ensures Valid(Take(s, step))
  {
    var w, reply := step.w, if step.Commit? then step.reply else NotApplied;
    assert Carries(s.protocol, w, s.world.txns[s.current[w]]);
    D.StepKeepsValid(s.protocol, Ending(s, w, reply));
    EndingKeepsCarrying(s, w, reply);
    EndingIsRecorded(s, w, reply);
    if step.Commit? {
      T.StepKeepsValid(s.world, T.Commit(s.current[w]));
    } else if step.Abort? {
      T.StepKeepsValid(s.world, T.Abort(s.current[w]));
    }
  }

  lemma LateCommitIsRecorded(s: State, tid: nat)
    requires tid in s.world.txns && FromLog(s.protocol, s.world.txns[tid])
    requires D.Enabled(s.protocol, LateEnding(s, tid))
    ensures var x := s.world.txns[tid];
            Applied(D.Take(s.protocol, LateEnding(s, tid)).attempts)
              == Applied(s.protocol.attempts) + [Attempt(x.batch, x.rows, Ok)]
  {
    var x := s.world.txns[tid];
    AppliedNext(s.protocol.attempts, Attempt(x.batch, x.rows, LostReply));
  }

  lemma LateCommitKeepsValid(s: State, tid: nat)
    requires Valid(s) && Enabled(s, LateCommit(tid))
    ensures Valid(Take(s, LateCommit(tid)))
  {
    var d := LateEnding(s, tid);
    assert FromLog(s.protocol, s.world.txns[tid]);
    D.StepKeepsValid(s.protocol, d);
    T.StepKeepsValid(s.world, T.Commit(tid));
    LateCommitIsRecorded(s, tid);
    StepKeepsAllCarrying(s.protocol, d, s.world.txns, s.current);
    StepKeepsFromLog(s.protocol, d, s.world.txns);
    WithoutDetached(D.Take(s.protocol, d), s.world.txns, s.current, tid);
  }

  lemma StepKeepsValid(s: State, step: Step)
    requires Valid(s) && Enabled(s, step)
    ensures Valid(Take(s, step))
  {
    match step
    case Protocol(d) => ProtocolKeepsValid(s, d);
    case Begin(w, tid, rows) => BeginKeepsValid(s, w, tid, rows);
    case Statement(tid) => StatementKeepsValid(s, tid);
    case LateCommit(tid) => LateCommitKeepsValid(s, tid);
    case LateAbort(tid) =>
      T.StepKeepsValid(s.world, T.Abort(tid));
      WithoutDetached(s.protocol, s.world.txns, s.current, tid);
    case _ => EndingKeepsValid(s, step);
  }

  // ---- Every run ----

  ghost predicate Initial(s: State) {
    D.Initial(s.protocol) && s.world == T.START && s.current == map[]
  }

  lemma {:induction false} RunKeepsValid(start: State, steps: seq<Step>)
    requires Initial(start) && Possible(start, steps)
    ensures Valid(After(start, steps))
  {
    if steps == [] {
      T.Serializable([]);
    } else {
      RunKeepsValid(start, Front(steps));
      StepKeepsValid(After(start, Front(steps)), Last(steps));
    }
  }

  /** The steps of the protocol that a step amounts to: none while a transaction is under way. */
  ghost function Abstract(s: State, step: Step): seq<D.Step>
    requires Enabled(s, step)
  {
    match step
    case Protocol(d) => [d]
    case Commit(w, reply) => [Ending(s, w, reply)]
    case Abort(w) => [Ending(s, w, NotApplied)]
    case GiveUp(w) => [Ending(s, w, NotApplied)]
    case LateCommit(tid) => [LateEnding(s, tid)]
    case _ => []
  }

  lemma TablesAreOfAttempts(start: State, steps: seq<Step>)
    requires Initial(start) && Possible(start, steps)
    ensures After(start, steps).world.tables == Run(After(start, steps).protocol.attempts)
  {
    RunKeepsValid(start, steps);
    AppliedRuns(After(start, steps).protocol.attempts);
  }

  /** Atomic inserts are a sound abstraction: what the workers and the broker see of any run is
      a run of the protocol, and the tables are those of its attempts. */
  lemma {:induction false} Refines(start: State, steps: seq<Step>) returns (protocol: seq<D.Step>)
    requires Initial(start) && Possible(start, steps)
    ensures D.Possible(start.protocol, protocol)
    ensures D.After(start.protocol, protocol) == After(start, steps).protocol
    ensures After(start, steps).world.tables == Run(After(start, steps).protocol.attempts)
  {
    TablesAreOfAttempts(start, steps);
    if steps == [] {
      protocol := [];
    } else {
      protocol := Refines(start, Front(steps));
      var before, step := After(start, Front(steps)), Last(steps);
      var more := Abstract(before, step);
      if more == [] {
        assert protocol + more == protocol;
      } else {
        R.ThenStep(start.protocol, protocol, more[0]);
        protocol := protocol + [more[0]];
      }
    }
  }

  /** At least once, down to the statements: in every reachable state every decodable record
      below its partition's committed offset is in the committed events table. */
  lemma NothingIsSkipped(start: State, steps: seq<Step>, p: nat, i: nat)
    requires Initial(start) && Possible(start, steps)
    requires i < D.Offset(After(start, steps).protocol, p)
    ensures var s := After(start, steps);
            && i < |D.Log(s.protocol, p)|
            && (D.Log(s.protocol, p)[i].Good? ==> D.Log(s.protocol, p)[i].event.id in s.world.tables.events)
  {
    var protocol := Refines(start, steps);
    D.NothingIsSkipped(start.protocol, protocol, p, i);
  }

  /** Exactly once, down to the statements: when every partition is committed to its end, the
      committed tables hold exactly the ids of the decodable records, each once, and every
      rollup and sketch agrees with them. */
  lemma CountedExactlyOnce(start: State, steps: seq<Step>)
    requires Initial(start) && Possible(start, steps) && D.AllCommitted(After(start, steps).protocol)
    ensures var s := After(start, steps);
            && s.world.tables.events.Keys == D.LogIds(s.protocol)
            && Consistent(s.world.tables, Committed(s.world.log))
  {
    var protocol := Refines(start, steps);
    D.CountedExactlyOnce(start.protocol, protocol);
    RunKeepsValid(start, steps);
  }

  lemma CanEndLate(s: State, tid: nat)
    requires AllFromLog(s.protocol, s.world.txns) && T.Enabled(s.world, T.Commit(tid)) && Detached(s, tid)
    ensures Enabled(s, LateAbort(tid))
    ensures TakesAll(s.protocol.takes, s.world.txns[tid].batch) ==> Enabled(s, LateCommit(tid))
  {
    assert FromLog(s.protocol, s.world.txns[tid]);
  }

  /** A finished transaction can end: it commits if the schema takes its rows, whether or not a
      worker still waits for it. */
  lemma CanEnd(s: State, tid: nat) returns (step: Step)
    requires AllCarry(s.protocol, s.world.txns, s.current) && AllFromLog(s.protocol, s.world.txns)
    requires T.Enabled(s.world, T.Commit(tid))
    ensures Enabled(s, step)
    ensures if TakesAll(s.protocol.takes, s.world.txns[tid].batch) then step.Commit? || step.LateCommit?
            else step.Abort? || step.LateAbort?
  {
    var fits := TakesAll(s.protocol.takes, s.world.txns[tid].batch);
    if w :| w in s.current && s.current[w] == tid {
      EndingIsEnabled(s, w, if fits then Ok else NotApplied);
      step := if fits then Commit(w, Ok) else Abort(w);
    } else {
      CanEndLate(s, tid);
      step := if fits then LateCommit(tid) else LateAbort(tid);
    }
  }

  /** No deadlock between workers, those that gave up included: while transactions are open, one
      of them can execute its next statement or end. */
  lemma SomeoneCanStep(start: State, steps: seq<Step>) returns (step: Step)
    requires Initial(start) && Possible(start, steps) && After(start, steps).world.txns != map[]
    ensures Enabled(After(start, steps), step) && !step.Protocol? && !step.Begin? && !step.GiveUp?
  {
    var s := After(start, steps);
    RunKeepsValid(start, steps);
    var tid := P.SomeoneCanStep(s.world);
    if T.Enabled(s.world, T.Forward(tid)) {
      step := Statement(tid);
    } else {
      step := CanEnd(s, tid);
    }
  }

  // ---- Transactions end ----

  /** Steps of the database, as opposed to steps of workers and the broker. */
  predicate OfDatabase(step: Step) {
    !step.Protocol? && !step.Begin? && !step.GiveUp?
  }

  /** Every step of the database uses up work of the open transactions. */
  lemma DatabaseStepWorks(s: State, step: Step)
    requires Valid(s) && Enabled(s, step) && OfDatabase(step)
    ensures P.TotalWork(Take(s, step).world.txns) < P.TotalWork(s.world.txns)
  {
    match step
    case Statement(tid) => P.StepWorks(s.world, T.Forward(tid));
    case Commit(w, _) => P.StepWorks(s.world, T.Commit(s.current[w]));
    case Abort(w) => P.StepWorks(s.world, T.Abort(s.current[w]));
    case LateCommit(tid) => P.StepWorks(s.world, T.Commit(tid));
    case LateAbort(tid) => P.StepWorks(s.world, T.Abort(tid));
  }

  /** A worker that gives up leaves its transaction to the database, with all its locks. */
  lemma GiveUpLeavesTransaction(s: State, w: nat)
    requires Valid(s) && Enabled(s, GiveUp(w))
    ensures Take(s, GiveUp(w)).world == s.world && Detached(Take(s, GiveUp(w)), s.current[w])
    ensures w !in Take(s, GiveUp(w)).current
  {
  }

  lemma ThenStep(start: State, steps: seq<Step>, step: Step)
    requires Possible(start, steps) && Enabled(After(start, steps), step)
    ensures Possible(start, steps + [step]) && After(start, steps + [step]) == Take(After(start, steps), step)
  {
    assert Front(steps + [step]) == steps;
  }

  ghost function WorkLeft(start: State, steps: seq<Step>): nat
    requires Possible(start, steps)
  {
    P.TotalWork(After(start, steps).world.txns)
  }

  ghost predicate AllEnded(start: State, steps: seq<Step>) {
    Possible(start, steps) && After(start, steps).world.txns == map[]
  }

  /** `all` goes on after `steps` with steps of the database only. */
  ghost predicate OnlyDatabaseAfter(steps: seq<Step>, all: seq<Step>) {
    steps <= all && forall i :: |steps| <= i < |all| ==> OfDatabase(all[i])
  }

  lemma NextWorks(start: State, steps: seq<Step>, step: Step)
    requires Possible(start, steps) && Valid(After(start, steps))
    requires Enabled(After(start, steps), step) && OfDatabase(step)
    ensures Possible(start, steps + [step]) && WorkLeft(start, steps + [step]) < WorkLeft(start, steps)
  {
    DatabaseStepWorks(After(start, steps), step);
    ThenStep(start, steps, step);
  }

  /** While transactions are open, the database can take a step that uses up work. */
  lemma SomeoneWorks(start: State, steps: seq<Step>) returns (more: seq<Step>)
    requires Initial(start) && Possible(start, steps) && !AllEnded(start, steps)
    ensures |more| == |steps| + 1 && OnlyDatabaseAfter(steps, more)
    ensures Possible(start, more) && WorkLeft(start, more) < WorkLeft(start, steps)
  {
    var step := SomeoneCanStep(start, steps);
    RunKeepsValid(start, steps);
    NextWorks(start, steps, step);
    more := steps + [step];
  }

  /** From every reachable state the database alone can end all open transactions, those that
      lost their worker included. */
  lemma {:induction false} AllCanEnd(start: State, steps: seq<Step>) returns (all: seq<Step>)
    requires Initial(start) && Possible(start, steps)
    ensures OnlyDatabaseAfter(steps, all) && AllEnded(start, all)
    decreases WorkLeft(start, steps)
  {
    if AllEnded(start, steps) {
      all := steps;
    } else {
      var more := SomeoneWorks(start, steps);
      all := AllCanEnd(start, more);
    }
  }
}
