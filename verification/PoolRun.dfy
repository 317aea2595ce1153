/** internal/worker/worker.go: what one worker does in one turn of its select, as runs of the
    pool's steps. */
module PoolRun {
  import opened Words
  import opened Store
  import opened Pool
  import opened Shutdown

  /** The steps lead from one state of the pool to another. */
  ghost predicate Leads(s: System, steps: seq<Step>, s': System) {
    Possible(s, steps) && After(s, steps) == s'
  }

  lemma LeadsOn(s: System, steps: seq<Step>, middle: System, step: Step)
    requires Leads(s, steps, middle) && Enabled(middle, step)
    ensures Leads(s, steps + [step], Take(middle, step))
  {
    ThenStep(s, steps, step);
  }

  /** The attempts of one flush: at most `left`, of which only the last may succeed. */
  ghost predicate IsFlush(tries: seq<Attempt>, batch: seq<Event>, left: nat, failed: bool) {
    && 0 < |tries| <= left
    && (forall i :: 0 <= i < |tries| ==> tries[i].batch == batch && IsOrdering(batch, tries[i].rows))
    && (forall i :: 0 <= i < |tries| - 1 ==> tries[i].reply != Ok)
    && (failed <==> Last(tries).reply != Ok)
    && (failed ==> |tries| == left)
  }

  /** The attempts so far: all failed, or the last one succeeded. */
  ghost predicate IsTrying(tries: seq<Attempt>, batch: seq<Event>, ok: bool) {
    && (forall i :: 0 <= i < |tries| ==> tries[i].batch == batch && IsOrdering(batch, tries[i].rows))
    && (forall i :: 0 <= i < |tries| - (if ok then 1 else 0) ==> tries[i].reply != Ok)
    && (ok ==> tries != [] && Last(tries).reply == Ok)
  }

  lemma TryAgain(tries: seq<Attempt>, batch: seq<Event>, a: Attempt)
    requires IsTrying(tries, batch, false) && a.batch == batch && IsOrdering(batch, a.rows)
    ensures IsTrying(tries + [a], batch, a.reply == Ok)
  {
  }

  lemma TryingEnds(tries: seq<Attempt>, batch: seq<Event>, ok: bool, left: nat)
    requires IsTrying(tries, batch, ok) && 0 < |tries| <= left && (ok || |tries| == left)
    ensures IsFlush(tries, batch, left, !ok)
  {
  }

  lemma IsFlushRest(tries: seq<Attempt>, batch: seq<Event>, left: nat, failed: bool)
    requires IsFlush(tries, batch, left, failed) && |tries| > 1
    ensures tries[0].reply != Ok && IsFlush(tries[1..], batch, left - 1, failed)
  {
  }

  /** The worker is inside flush. */
  ghost predicate InFlush(s: System, w: nat) {
    !s.panicked && w < |s.workers| && s.workers[w].Flushing? && s.workers[w].attempt <= s.maxRetries
  }

  ghost function Left(s: System, w: nat): nat
    requires InFlush(s, w)
  {
    s.maxRetries - s.workers[w].attempt + 1
  }

  /** The schema takes the batch, or none of the attempts was applied. */
  ghost predicate Answerable(takes: Event -> bool, batch: seq<Event>, tries: seq<Attempt>) {
    TakesAll(takes, batch) || forall i :: 0 <= i < |tries| ==> tries[i].reply == NotApplied
  }

  /** The pool after an attempt that failed and is not the last. */
  ghost function Retrying(s: System, w: nat, a: Attempt): System
    requires InFlush(s, w)
  {
    s.(attempts := s.attempts + [a],
       workers := s.workers[w := s.workers[w].(attempt := s.workers[w].attempt + 1)])
  }

  /** The pool after a flush by worker `w`. */
  ghost function Ended(s: System, w: nat, tries: seq<Attempt>, failed: bool): System
    requires InFlush(s, w)
  {
    var batch := multiset(s.workers[w].batch);
    s.(attempts := s.attempts + tries,
       workers := s.workers[w := AfterFlush(s.workers[w])],
       flushed := if failed then s.flushed else s.flushed + batch,
       dropped := if failed then s.dropped + batch else s.dropped)
  }

  lemma FailedTry(s: System, w: nat, a: Attempt)
    requires InFlush(s, w) && s.workers[w].attempt < s.maxRetries
    requires a.batch == s.workers[w].batch && IsOrdering(a.batch, a.rows) && a.reply != Ok
    requires a.reply != NotApplied ==> TakesAll(s.takes, a.batch)
    ensures Enabled(s, TryInsert(w, a.rows, a.reply))
    ensures Take(s, TryInsert(w, a.rows, a.reply)) == Retrying(s, w, a)
    ensures InFlush(Retrying(s, w, a), w) && Left(Retrying(s, w, a), w) == Left(s, w) - 1
  {
  }

  lemma LastTry(s: System, w: nat, a: Attempt)
    requires InFlush(s, w) && (a.reply == Ok || s.workers[w].attempt == s.maxRetries)
    requires a.batch == s.workers[w].batch && IsOrdering(a.batch, a.rows)
    requires a.reply != NotApplied ==> TakesAll(s.takes, a.batch)
    ensures Enabled(s, TryInsert(w, a.rows, a.reply))
    ensures Take(s, TryInsert(w, a.rows, a.reply)) == Ended(s, w, [a], a.reply != Ok)
  {
  }

  lemma EndedAfterRetry(s: System, w: nat, a: Attempt, rest: seq<Attempt>, failed: bool)
    requires InFlush(s, w) && InFlush(Retrying(s, w, a), w)
    ensures Ended(Retrying(s, w, a), w, rest, failed) == Ended(s, w, [a] + rest, failed)
  {
    var s1 := Retrying(s, w, a);
    assert s1.attempts + rest == s.attempts + ([a] + rest);
    assert s1.workers[w := AfterFlush(s1.workers[w])] == s.workers[w := AfterFlush(s.workers[w])];
  }

  lemma LeadsAfter(s: System, step: Step, middle: System, rest: seq<Step>, s': System)
    requires Enabled(s, step) && Take(s, step) == middle && Leads(middle, rest, s')
    ensures Leads(s, [step] + rest, s')
  {
    PrependStep(s, step, rest);
  }

  ghost predicate OnlyTries(steps: seq<Step>) {
    forall i :: 0 <= i < |steps| ==> steps[i].TryInsert?
  }

  lemma LastTryLeads(s: System, w: nat, tries: seq<Attempt>, failed: bool) returns (steps: seq<Step>)
    requires InFlush(s, w) && |tries| == 1 && IsFlush(tries, s.workers[w].batch, Left(s, w), failed)
    requires Answerable(s.takes, s.workers[w].batch, tries)
    ensures Leads(s, steps, Ended(s, w, tries, failed)) && OnlyTries(steps)
  {
    var a := tries[0];
    assert tries == [a];
    LastTry(s, w, a);
    OneStep(s, TryInsert(w, a.rows, a.reply));
    steps := [TryInsert(w, a.rows, a.reply)];
  }

  lemma FirstTryLeads(s: System, w: nat, tries: seq<Attempt>, failed: bool)
    requires InFlush(s, w) && |tries| > 1 && IsFlush(tries, s.workers[w].batch, Left(s, w), failed)
    requires Answerable(s.takes, s.workers[w].batch, tries)
    ensures var a := tries[0]; var s' := Retrying(s, w, a);
            && Enabled(s, TryInsert(w, a.rows, a.reply)) && Take(s, TryInsert(w, a.rows, a.reply)) == s'
            && InFlush(s', w) && IsFlush(tries[1..], s'.workers[w].batch, Left(s', w), failed)
            && Answerable(s'.takes, s'.workers[w].batch, tries[1..])
            && Ended(s', w, tries[1..], failed) == Ended(s, w, tries, failed)
  {
    var a := tries[0];
    IsFlushRest(tries, s.workers[w].batch, Left(s, w), failed);
    FailedTry(s, w, a);
    EndedAfterRetry(s, w, a, tries[1..], failed);
    assert tries == [a] + tries[1..];
  }

  /** A flush is a run of insert attempts. */
  lemma {:induction false} FlushLeads(s: System, w: nat, tries: seq<Attempt>, failed: bool) returns (steps: seq<Step>)
    requires InFlush(s, w) && IsFlush(tries, s.workers[w].batch, Left(s, w), failed)
    requires Answerable(s.takes, s.workers[w].batch, tries)
    ensures Leads(s, steps, Ended(s, w, tries, failed)) && OnlyTries(steps)
    decreases |tries|
  {
    if |tries| == 1 {
      steps := LastTryLeads(s, w, tries, failed);
    } else {
      var a := tries[0];
      var step := TryInsert(w, a.rows, a.reply);
      FirstTryLeads(s, w, tries, failed);
      var rest := FlushLeads(Retrying(s, w, a), w, tries[1..], failed);
      LeadsAfter(s, step, Retrying(s, w, a), rest, Ended(s, w, tries, failed));
      steps := [step] + rest;
    }
  }

  lemma LastStepLeads(s: System, steps: seq<Step>, s': System) returns (before: System)
    requires Leads(s, steps, s') && steps != []
    ensures Leads(s, Front(steps), before) && Enabled(before, Last(steps)) && Take(before, Last(steps)) == s'
    ensures steps == Front(steps) + [Last(steps)]
  {
    before := After(s, Front(steps));
  }

  lemma {:induction false} LeadsJoin(s: System, first: seq<Step>, middle: System, second: seq<Step>, s': System)
    requires Leads(s, first, middle) && Leads(middle, second, s')
    ensures Leads(s, first + second, s')
    decreases |second|
  {
    if second == [] {
      assert first + second == first;
    } else {
      var front, last := Front(second), Last(second);
      var before := LastStepLeads(middle, second, s');
      LeadsJoin(s, first, middle, front, before);
      LeadsOn(s, first + front, before, last);
      ThreeParts(first, front, [last]);
    }
  }

  // ---- One worker, fed one event at a time ----

  /** Worker `w` collects `batch`; the queue is open and empty, and nobody is sending. */
  ghost predicate Collecting(s: System, w: nat, batch: seq<Event>) {
    && !s.panicked && w < |s.workers| && s.workers[w] == Filling(batch)
    && s.queue == [] && s.capacity > 0 && !s.closed && !s.channelClosed && s.producers == map[]
    && s.batchSize > 0 && s.maxRetries > 0
  }

  /** The pool once an event was accepted and received by worker `w`. */
  ghost function Fed(s: System, w: nat, e: Event): System
    requires w < |s.workers| && s.workers[w].Filling?
  {
    var batch := s.workers[w].batch + [e];
    s.(accepted := s.accepted + multiset{e},
       workers := s.workers[w := if |batch| >= s.batchSize then Flushing(batch, 1, false) else Filling(batch)])
  }

  /** A producer enqueues an event and the worker receives it. */
  lemma FeedLeads(s: System, w: nat, e: Event)
    requires Collecting(s, w, if w < |s.workers| && s.workers[w].Filling? then s.workers[w].batch else [])
    ensures Leads(s, [Check(0, e), Send(0), Receive(w)], Fed(s, w, e))
  {
    var s1 := s.(producers := map[0 := e]);
    var s2 := s.(queue := [e], accepted := s.accepted + multiset{e});
    OneStep(s, Check(0, e));
    assert Take(s, Check(0, e)) == s1;
    assert s1.producers - {0} == map[];
    assert Take(s1, Send(0)) == s2;
    LeadsOn(s, [Check(0, e)], s1, Send(0));
    assert [Check(0, e)] + [Send(0)] == [Check(0, e), Send(0)];
    assert Take(s2, Receive(w)) == Fed(s, w, e);
    LeadsOn(s, [Check(0, e), Send(0)], s2, Receive(w));
    assert [Check(0, e), Send(0)] + [Receive(w)] == [Check(0, e), Send(0), Receive(w)];
  }

  /** The pool once the queue is closed and worker `w` has seen it. */
  ghost function Dismissed(s: System, w: nat): System
    requires w < |s.workers| && s.workers[w].Filling?
  {
    var batch := s.workers[w].batch;
    s.(closed := true, channelClosed := true,
       workers := s.workers[w := if batch == [] then Exited else Flushing(batch, 1, true)])
  }

  lemma CloseLeads(s: System, w: nat)
    requires Collecting(s, w, if w < |s.workers| && s.workers[w].Filling? then s.workers[w].batch else [])
    ensures Leads(s, [SetClosed, CloseChannel, ReceiveClosed(w)], Dismissed(s, w))
  {
    var s1 := s.(closed := true);
    var s2 := s1.(channelClosed := true);
    OneStep(s, SetClosed);
    LeadsOn(s, [SetClosed], s1, CloseChannel);
    assert [SetClosed] + [CloseChannel] == [SetClosed, CloseChannel];
    LeadsOn(s, [SetClosed, CloseChannel], s2, ReceiveClosed(w));
    assert [SetClosed, CloseChannel] + [ReceiveClosed(w)] == [SetClosed, CloseChannel, ReceiveClosed(w)];
  }
}
