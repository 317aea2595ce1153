/** internal/queue/kafka.go: how far the protocol can get. From any reachable state one new
    worker brings every partition to its first record that the schema does not take, one batch
    at a time, and no run gets any further: such a record decodes, so it is not skipped, and its
    insert is retried for ever. */
module Recovery {
  import opened Words
  import opened Store
  import opened Delivery
  import opened Reading

  lemma {:induction false} JoinRuns(s: System, first: seq<Step>, second: seq<Step>)
    requires Possible(s, first) && Possible(After(s, first), second)
    ensures Possible(s, first + second)
    ensures After(s, first + second) == After(After(s, first), second)
  {
    if second == [] {
      assert first + second == first;
    } else {
      JoinRuns(s, first, Front(second));
      assert Front(first + second) == first + Front(second);
    }
  }

  lemma OneStep(s: System, step: Step)
    requires Enabled(s, step)
    ensures Possible(s, [step]) && After(s, [step]) == Take(s, step)
  {
    assert Front([step]) == [];
  }

  lemma ThenStep(s: System, steps: seq<Step>, step: Step)
    requires Possible(s, steps) && Enabled(After(s, steps), step)
    ensures Possible(s, steps + [step]) && After(s, steps + [step]) == Take(After(s, steps), step)
  {
  }

  /** A malformed record is skipped; any other has to be inserted. */
  predicate Passable(takes: Event -> bool, r: Record) {
    r.Malformed? || takes(r.event)
  }

  /** The position of the first record that cannot be passed, or the end of the log. */
  function Limit(takes: Event -> bool, log: seq<Record>): nat {
    if log == [] || !Passable(takes, log[0]) then 0 else 1 + Limit(takes, log[1..])
  }

  lemma {:induction false} LimitMeaning(takes: Event -> bool, log: seq<Record>)
    ensures Limit(takes, log) <= |log|
    ensures forall i :: 0 <= i < Limit(takes, log) ==> Passable(takes, log[i])
    ensures Limit(takes, log) < |log| ==> !Passable(takes, log[Limit(takes, log)])
  {
    if log != [] && Passable(takes, log[0]) {
      LimitMeaning(takes, log[1..]);
      assert forall i :: 1 <= i < |log| ==> log[i] == log[1..][i - 1];
    }
  }

  /** The worker is between batches. */
  predicate Ready(s: System, w: nat) {
    w in s.workers && s.workers[w].phase == Polling
  }

  /** The worker reads partition `p` next at its committed offset. */
  predicate AtOffset(s: System, w: nat, p: nat) {
    Ready(s, w) && p in s.workers[w].positions && s.workers[w].positions[p] == Offset(s, p)
  }

  /** The records of the log from `from` to `to` can all be passed. */
  ghost predicate AllPass(s: System, p: nat, from: nat, to: nat) {
    from <= to <= |Log(s, p)| && forall i :: from <= i < to ==> Passable(s.takes, Log(s, p)[i])
  }

  lemma PassableRecords(takes: Event -> bool, records: seq<Record>)
    requires forall i :: 0 <= i < |records| ==> Passable(takes, records[i])
    ensures TakesAll(takes, Decodable(records))
  {
    DecodableMeaning(records);
    forall e | e in Decodable(records)
      ensures takes(e)
    {
      var i :| 0 <= i < |records| && records[i] == Good(e);
      assert Passable(takes, records[i]);
    }
  }

  lemma PassableSlice(takes: Event -> bool, log: seq<Record>, from: nat, to: nat)
    requires from <= to <= |log| && forall i :: from <= i < to ==> Passable(takes, log[i])
    ensures TakesAll(takes, Decodable(log[from..to]))
  {
    PassableRecords(takes, log[from..to]);
  }

  lemma PassableBatch(s: System, span: Span)
    requires AllPass(s, span.p, span.from, span.to)
    ensures SpansInLog(s, [span]) && TakesAll(s.takes, Decodable(Polled(s, [span])))
  {
    PolledOfOne(s, span);
    PassableSlice(s.takes, Log(s, span.p), span.from, span.to);
  }

  lemma PollSpan(s: System, w: nat, span: Span)
    requires AtOffset(s, w, span.p) && span.from == Offset(s, span.p) && InLog(s, span)
    requires 0 < span.to - span.from <= s.batchSize
    ensures Enabled(s, Poll(w, [span]))
    ensures var s' := Take(s, Poll(w, [span]));
            && s'.logs == s.logs && s'.offsets == s.offsets && s'.sent == s.sent && s'.takes == s.takes
            && w in s'.workers && s'.workers[w].phase == Inserting && s'.workers[w].spans == [span]
            && span.p in s'.workers[w].positions && s'.workers[w].positions[span.p] == span.to
  {
    PolledOfOne(s, span);
    assert InLog(s, [span][0]) && CanPoll(s, s.workers[w], [span]);
    PollMoves(s, w, [span]);
    assert [span][0].p == span.p;
  }

  /** A step of a turn on partition `p`: nothing is assigned, and only `p` is polled. */
  predicate IsOfTurn(step: Step, w: nat, p: nat) {
    && Keeps(step, w, p) && !step.Assign?
    && (step.Poll? ==> forall i :: 0 <= i < |step.spans| ==> step.spans[i].p == p)
  }

  lemma {:induction false} TurnsPollNoOther(turns: seq<Step>, w: nat, p: nat, q: nat)
    requires q != p && forall i :: 0 <= i < |turns| ==> IsOfTurn(turns[i], w, p)
    ensures PolledBy(turns, w, q) == []
  {
    if turns != [] {
      TurnsPollNoOther(Front(turns), w, p, q);
      var step := Last(turns);
      assert IsOfTurn(turns[|turns| - 1], w, p);
      if step.Poll? {
        NoSpansOf(step.spans, q);
      }
    }
  }

  lemma InsertAndSend(s: System, w: nat, span: Span) returns (steps: seq<Step>)
    requires w in s.workers && s.workers[w].phase == Inserting && s.workers[w].spans == [span]
    requires AllPass(s, span.p, span.from, span.to)
    ensures Possible(s, steps) && forall i :: 0 <= i < |steps| ==> IsOfTurn(steps[i], w, span.p)
    ensures var s' := After(s, steps);
            && s'.logs == s.logs && s'.offsets == s.offsets && s'.sent == s.sent + [span]
            && Ready(s', w) && s'.workers[w].positions == s.workers[w].positions
  {
    PassableBatch(s, span);
    var batch := Decodable(Polled(s, [span]));
    ArrangeIsOrdering(batch);
    var insert := Insert(w, Arrange(batch), Ok);
    OneStep(s, insert);
    ThenStep(s, [insert], SendCommit(w));
    steps := [insert] + [SendCommit(w)];
  }

  /** One turn of Run: poll the next records, insert them, commit. The committed offset and the
      worker's position both move to the end of the span, and nothing else does. */
  lemma OneTurn(s: System, w: nat, span: Span) returns (steps: seq<Step>)
    requires AtOffset(s, w, span.p) && span.from == Offset(s, span.p)
    requires 0 < span.to - span.from <= s.batchSize && AllPass(s, span.p, span.from, span.to)
    ensures Possible(s, steps) && forall i :: 0 <= i < |steps| ==> IsOfTurn(steps[i], w, span.p)
    ensures var s' := After(s, steps);
            && s'.logs == s.logs && s'.offsets == s.offsets[span.p := span.to] && AtOffset(s', w, span.p)
  {
    var poll := Poll(w, [span]);
    PollSpan(s, w, span);
    OneStep(s, poll);
    var s1 := Take(s, poll);
    assert Log(s1, span.p) == Log(s, span.p);
    var rest := InsertAndSend(s1, w, span);
    JoinRuns(s, [poll], rest);
    var s2 := After(s, [poll] + rest);
    ThenStep(s, [poll] + rest, ApplyCommit(|s2.sent| - 1));
    steps := [poll] + rest + [ApplyCommit(|s2.sent| - 1)];
  }

  lemma {:induction false} SettingsAreFixed(s: System, steps: seq<Step>)
    requires Possible(s, steps)
    ensures After(s, steps).batchSize == s.batchSize && After(s, steps).takes == s.takes
  {
    if steps != [] {
      SettingsAreFixed(s, Front(steps));
    }
  }

  function LimitOf(s: System, p: nat): nat {
    Limit(s.takes, Log(s, p))
  }

  /** Successive turns, each of as many records as a poll may return, bring a partition that the
      worker has to its limit; the worker keeps it all the while. */
  lemma {:induction false} TurnByTurn(s: System, w: nat, p: nat) returns (steps: seq<Step>)
    requires s.batchSize > 0 && AtOffset(s, w, p) && Offset(s, p) <= LimitOf(s, p)
    ensures Possible(s, steps) && forall i :: 0 <= i < |steps| ==> IsOfTurn(steps[i], w, p)
    ensures var s' := After(s, steps);
            && s'.logs == s.logs && AtOffset(s', w, p) && Offset(s', p) == LimitOf(s, p)
            && forall q :: q != p ==> Offset(s', q) == Offset(s, q)
    decreases LimitOf(s, p) - Offset(s, p)
  {
    LimitMeaning(s.takes, Log(s, p));
    if Offset(s, p) == LimitOf(s, p) {
      steps := [];
    } else {
      var from, left := Offset(s, p), LimitOf(s, p) - Offset(s, p);
      var span := Span(p, from, from + if left <= s.batchSize then left else s.batchSize);
      var first := OneTurn(s, w, span);
      var s1 := After(s, first);
      SettingsAreFixed(s, first);
      assert Log(s1, p) == Log(s, p) && Offset(s1, p) == span.to;
      var rest := TurnByTurn(s1, w, p);
      JoinRuns(s, first, rest);
      steps := first + rest;
    }
  }

  /** One assignment, then turn by turn: the partition is at its limit, and the worker polled the
      records from the old offset to there once each, in order. */
  lemma OnePartition(s: System, w: nat, p: nat) returns (steps: seq<Step>, turns: seq<Step>)
    requires s.batchSize > 0 && Ready(s, w) && Offset(s, p) <= LimitOf(s, p)
    ensures steps == [Assign(w, p)] + turns && Possible(s, steps)
    ensures forall i :: 0 <= i < |turns| ==> IsOfTurn(turns[i], w, p)
    ensures IsChain(PolledBy(turns, w, p), Offset(s, p), LimitOf(s, p))
    ensures var s' := After(s, steps);
            && s'.logs == s.logs && Ready(s', w) && Offset(s', p) == LimitOf(s, p)
            && forall q :: q != p ==> Offset(s', q) == Offset(s, q)
  {
    OneStep(s, Assign(w, p));
    var s1 := Take(s, Assign(w, p));
    assert Log(s1, p) == Log(s, p);
    turns := TurnByTurn(s1, w, p);
    assert forall i :: 0 <= i < |turns| ==> IsOfTurn(turns[i], w, p) && Keeps(turns[i], w, p);
    ReadsInOrder(s1, turns, w, p);
    JoinRuns(s, [Assign(w, p)], turns);
    steps := [Assign(w, p)] + turns;
  }

  /** No committed offset is past a record that cannot be passed. */
  lemma OffsetWithinLimit(s: System, p: nat)
    requires Valid(s)
    ensures Offset(s, p) <= LimitOf(s, p) <= |Log(s, p)|
  {
    assert StoredUpTo(s, p, Offset(s, p));
    LimitMeaning(s.takes, Log(s, p));
  }

  ghost predicate AtLimits(s: System) {
    forall p :: Offset(s, p) == LimitOf(s, p)
  }

  ghost function Lagging(s: System): set<nat> {
    set p | p in s.logs && Offset(s, p) != LimitOf(s, p)
  }

  /** Partitions are assigned in these steps at most once each, and only lagging ones. */
  ghost predicate AssignsOnce(steps: seq<Step>, lagging: set<nat>) {
    && (forall i :: 0 <= i < |steps| && steps[i].Assign? ==> steps[i].p in lagging)
    && (forall i, j :: 0 <= i < j < |steps| && steps[i].Assign? && steps[j].Assign? ==> steps[i].p != steps[j].p)
  }

  /** Of every partition the worker polls the records from the committed offset to the limit, once
      each and in order. */
  ghost predicate ReadsEachOnce(s: System, steps: seq<Step>, w: nat) {
    forall p :: IsChain(PolledBy(steps, w, p), Offset(s, p), LimitOf(s, p))
  }

  lemma NothingLags(s: System)
    requires Valid(s) && Lagging(s) == {}
    ensures AtLimits(s)
  {
    forall p
      ensures Offset(s, p) == LimitOf(s, p)
    {
      OffsetWithinLimit(s, p);
      assert p in s.logs ==> p !in Lagging(s);
    }
  }

  lemma OneLessLags(s: System, s': System, p: nat)
    requires p in Lagging(s) && s'.logs == s.logs && s'.takes == s.takes && Offset(s', p) == LimitOf(s, p)
    requires forall q :: q != p ==> Offset(s', q) == Offset(s, q)
    ensures Lagging(s') == Lagging(s) - {p}
  {
    assert forall q :: Log(s', q) == Log(s, q);
  }

  lemma AssignsJoin(turns: seq<Step>, rest: seq<Step>, w: nat, p: nat, lagging: set<nat>)
    requires p in lagging && AssignsOnce(rest, lagging - {p})
    requires forall i :: 0 <= i < |turns| ==> IsOfTurn(turns[i], w, p)
    ensures AssignsOnce([Assign(w, p)] + turns + rest, lagging)
  {
    var first, all := [Assign(w, p)] + turns, [Assign(w, p)] + turns + rest;
    assert forall i :: 0 <= i < |all| && all[i].Assign? ==> i == 0 || i >= |first|;
    assert forall i :: |first| <= i < |all| ==> all[i] == rest[i - |first|];
  }

  lemma PolledByFirst(assign: seq<Step>, turns: seq<Step>, w: nat, p: nat, q: nat)
    requires |assign| == 1 && assign[0].Assign? && forall i :: 0 <= i < |turns| ==> IsOfTurn(turns[i], w, p)
    ensures PolledBy(assign + turns, w, q) == if q == p then PolledBy(turns, w, p) else []
  {
    PolledByBoth(assign, turns, w, q);
    assert Front(assign) == [] && !Last(assign).Poll?;
    assert PolledBy(assign, w, q) == [];
    if q != p {
      TurnsPollNoOther(turns, w, p, q);
    }
  }

  lemma PolledByTurns(first: seq<Step>, turns: seq<Step>, rest: seq<Step>, w: nat, p: nat, q: nat)
    requires first == [Assign(w, p)] + turns && forall i :: 0 <= i < |turns| ==> IsOfTurn(turns[i], w, p)
    ensures PolledBy(first + rest, w, q) == (if q == p then PolledBy(turns, w, p) else []) + PolledBy(rest, w, q)
  {
    PolledByFirst([Assign(w, p)], turns, w, p, q);
    PolledByBoth(first, rest, w, q);
  }

  lemma ReadsJoin(turns: seq<Span>, rest: seq<Span>, same: bool, from: nat, middle: nat, limit: nat)
    requires IsChain(rest, middle, limit)
    requires if same then IsChain(turns, from, limit) && middle == limit else middle == from
    ensures IsChain((if same then turns else []) + rest, from, limit)
  {
    if same {
      ChainsJoin(turns, rest, from, middle, limit);
    } else {
      assert [] + rest == rest;
    }
  }

  /** One idle worker brings every partition to its limit: each lagging partition is assigned to it
      once, and it polls each remaining record once. */
  lemma {:induction false} EveryPartition(s: System, w: nat) returns (steps: seq<Step>)
    requires Valid(s) && Ready(s, w)
    ensures Possible(s, steps) && AtLimits(After(s, steps)) && After(s, steps).logs == s.logs
    ensures AssignsOnce(steps, Lagging(s)) && ReadsEachOnce(s, steps, w)
    decreases Lagging(s)
  {
    if Lagging(s) == {} {
      steps := [];
      NothingLags(s);
    } else {
      var p :| p in Lagging(s);
      OffsetWithinLimit(s, p);
      var first, turns := OnePartition(s, w, p);
      var s1 := After(s, first);
      RunKeepsValid(s, first);
      SettingsAreFixed(s, first);
      OneLessLags(s, s1, p);
      var rest := EveryPartition(s1, w);
      JoinRuns(s, first, rest);
      AssignsJoin(turns, rest, w, p, Lagging(s));
      forall q
        ensures IsChain(PolledBy(first + rest, w, q), Offset(s, q), LimitOf(s, q))
      {
        assert Log(s1, q) == Log(s, q);
        PolledByTurns(first, turns, rest, w, p, q);
        ReadsJoin(PolledBy(turns, w, p), PolledBy(rest, w, q), q == p, Offset(s, q), Offset(s1, q), LimitOf(s, q));
      }
      steps := first + rest;
    }
  }

  lemma FreshWorker(workers: map<nat, Worker>) returns (w: nat)
    ensures w !in workers
  {
    var ids := workers.Keys;
    w := 0;
    while w in ids
      invariant forall i :: 0 <= i < w ==> i in workers
      invariant ids == set i | i in workers && i >= w
      decreases |ids|
    {
      var smaller := ids - {w};
      assert smaller == set i | i in workers && i >= w + 1;
      ids := smaller;
      w := w + 1;
    }
  }

  /** From every reachable state every partition can be committed up to its first record that
      the schema does not take. */
  lemma CanReachLimits(start: System, before: seq<Step>) returns (steps: seq<Step>)
    requires Initial(start) && Possible(start, before)
    ensures Possible(start, before + steps)
    ensures var s := After(start, before + steps);
            s.logs == After(start, before).logs && AtLimits(s)
  {
    var s := After(start, before);
    RunKeepsValid(start, before);
    var w := FreshWorker(s.workers);
    OneStep(s, Join(w));
    RunKeepsValid(s, [Join(w)]);
    var rest := EveryPartition(Take(s, Join(w)), w);
    JoinRuns(s, [Join(w)], rest);
    steps := [Join(w)] + rest;
    JoinRuns(start, before, steps);
  }

  /** And in no reachable state, however long the run, is any offset beyond it. */
  lemma NeverPassesLimit(start: System, steps: seq<Step>, p: nat, i: nat)
    requires Initial(start) && Possible(start, steps)
    requires var s := After(start, steps); i < |Log(s, p)| && !Passable(start.takes, Log(s, p)[i])
    ensures Offset(After(start, steps), p) <= i
  {
    RunKeepsValid(start, steps);
    SettingsAreFixed(start, steps);
    var s := After(start, steps);
    assert StoredUpTo(s, p, Offset(s, p));
  }

  /** A continuation that leaves the logs alone and commits every partition to its end. */
  ghost predicate Finishes(start: System, before: seq<Step>, steps: seq<Step>) {
    && Possible(start, before) && Possible(start, before + steps)
    && After(start, before + steps).logs == After(start, before).logs
    && AllCommitted(After(start, before + steps))
  }

  ghost predicate AllPassable(s: System) {
    forall e :: e in LogEvents(s) ==> s.takes(e)
  }

  lemma AllPassableMeansNoLimit(s: System, p: nat)
    requires AllPassable(s)
    ensures LimitOf(s, p) == |Log(s, p)|
  {
    LimitMeaning(s.takes, Log(s, p));
  }

  lemma FinishedMeansPassable(start: System, before: seq<Step>, steps: seq<Step>)
    requires Initial(start) && Finishes(start, before, steps)
    ensures AllPassable(After(start, before))
  {
    var s, s' := After(start, before), After(start, before + steps);
    RunKeepsValid(start, before + steps);
    SettingsAreFixed(start, before);
    SettingsAreFixed(start, before + steps);
    forall e | e in LogEvents(s)
      ensures s.takes(e)
    {
      var p, i :| p in s.logs && 0 <= i < |s.logs[p]| && s.logs[p][i].Good? && s.logs[p][i].event == e;
      assert StoredUpTo(s', p, Offset(s', p)) && Log(s', p)[i] == s.logs[p][i];
    }
  }

  lemma PassableFinishes(start: System, before: seq<Step>, steps: seq<Step>)
    requires Possible(start, before) && Possible(start, before + steps)
    requires After(start, before + steps).logs == After(start, before).logs
    requires AllPassable(After(start, before)) && AtLimits(After(start, before + steps))
    ensures Finishes(start, before, steps)
  {
    var s, s' := After(start, before), After(start, before + steps);
    SettingsAreFixed(start, before);
    SettingsAreFixed(start, before + steps);
    forall p
      ensures Offset(s', p) == |Log(s', p)|
    {
      AllPassableMeansNoLimit(s, p);
      assert Log(s', p) == Log(s, p);
    }
  }

  /** From any reachable state the logs can be drained, and every decodable record counted
      exactly once, if and only if the schema takes every decodable record in them. */
  lemma CanFinishExactly(start: System, before: seq<Step>)
    requires Initial(start) && Possible(start, before)
    ensures (exists steps :: Finishes(start, before, steps)) <==> AllPassable(After(start, before))
    ensures forall steps :: Finishes(start, before, steps) ==>
              var s := After(start, before + steps);
              && Run(s.attempts).events.Keys == LogIds(s)
              && TotalInserted(s.attempts) == |LogIds(s)|
  {
    if AllPassable(After(start, before)) {
      var steps := CanReachLimits(start, before);
      PassableFinishes(start, before, steps);
    }
    forall steps | Finishes(start, before, steps)
      ensures AllPassable(After(start, before))
      ensures var s := After(start, before + steps);
              && Run(s.attempts).events.Keys == LogIds(s)
              && TotalInserted(s.attempts) == |LogIds(s)|
    {
      FinishedMeansPassable(start, before, steps);
      CountedExactlyOnce(start, before + steps);
    }
  }
}
