/** internal/queue/queue.go and cmd/tally/main.go: when closing the queue is safe, and why the
    pool then drains. */
module Shutdown {
  import opened Words
  import opened Store
  import opened Pool

  // ---- Sending on a closed channel ----

  /** Close respects the shutdown contract when no Enqueue is between its check and its send
      at the moment the channel is closed. */
  ghost predicate Respectful(s: System, steps: seq<Step>)
    requires Possible(s, steps)
    decreases |steps|
  {
    steps == []
    || (Respectful(s, Front(steps)) && (Last(steps).CloseChannel? ==> After(s, Front(steps)).producers == map[]))
  }

  ghost predicate Calm(s: System) {
    !s.panicked && (s.channelClosed ==> s.closed && s.producers == map[])
  }

  lemma StepKeepsCalm(s: System, step: Step)
    requires Calm(s) && Enabled(s, step) && (step.CloseChannel? ==> s.producers == map[])
    ensures Calm(Take(s, step)) && (s.channelClosed ==> Take(s, step).channelClosed)
  {
  }

  lemma {:induction false} RespectfulKeepsCalm(s: System, steps: seq<Step>)
    requires Calm(s) && Possible(s, steps) && Respectful(s, steps)
    ensures Calm(After(s, steps))
  {
    if steps != [] {
      RespectfulKeepsCalm(s, Front(steps));
      StepKeepsCalm(After(s, Front(steps)), Last(steps));
    }
  }

  /** A run that respects the contract never sends on a closed channel. */
  lemma NeverPanics(start: System, steps: seq<Step>)
    requires Initial(start) && Possible(start, steps) && Respectful(start, steps)
    ensures !After(start, steps).panicked
  {
    RespectfulKeepsCalm(start, steps);
  }

  lemma {:induction false} ClosedStaysCalm(s: System, steps: seq<Step>)
    requires Calm(s) && s.channelClosed && Possible(s, steps)
    ensures Calm(After(s, steps)) && After(s, steps).channelClosed
  {
    if steps != [] {
      ClosedStaysCalm(s, Front(steps));
      StepKeepsCalm(After(s, Front(steps)), Last(steps));
    }
  }

  lemma OneStep(s: System, step: Step)
    requires Enabled(s, step)
    ensures Possible(s, [step]) && After(s, [step]) == Take(s, step)
  {
    assert Front([step]) == [];
  }

  /** The contract is exact: the moment the channel is closed, some continuation panics if
      and only if a producer is past the closed check. The shutdown of main does not rule
      this out: when draining the HTTP server times out, it goes on to close the queue. */
  lemma CloseIsSafeExactlyWhenNobodySends(s: System)
    requires Valid(s) && Enabled(s, CloseChannel)
    ensures (exists steps :: Possible(Take(s, CloseChannel), steps) && After(Take(s, CloseChannel), steps).panicked)
       <==> s.producers != map[]
  {
    var closed := Take(s, CloseChannel);
    if s.producers != map[] {
      var pid :| pid in s.producers;
      OneStep(closed, Send(pid));
      assert After(closed, [Send(pid)]).panicked;
    } else {
      forall steps | Possible(closed, steps)
        ensures !After(closed, steps).panicked
      {
        ClosedStaysCalm(closed, steps);
      }
    }
  }

  lemma ThenStep(s: System, steps: seq<Step>, step: Step)
    requires Possible(s, steps) && Enabled(After(s, steps), step)
    ensures Possible(s, steps + [step]) && After(s, steps + [step]) == Take(After(s, steps), step)
  {
    assert Front(steps + [step]) == steps;
  }

  /** And such a moment can come about: a producer passes the check, Close runs, it sends. */
  lemma PanicIsReachable(start: System, e: Event)
    requires Initial(start)
    ensures Possible(start, [Check(0, e), SetClosed, CloseChannel, Send(0)])
    ensures After(start, [Check(0, e), SetClosed, CloseChannel, Send(0)]).panicked
  {
    var one, two, three := [Check(0, e)], [Check(0, e), SetClosed], [Check(0, e), SetClosed, CloseChannel];
    OneStep(start, Check(0, e));
    ThenStep(start, one, SetClosed);
    assert one + [SetClosed] == two;
    ThenStep(start, two, CloseChannel);
    assert two + [CloseChannel] == three;
    ThenStep(start, three, Send(0));
    assert three + [Send(0)] == [Check(0, e), SetClosed, CloseChannel, Send(0)];
  }

  // ---- Draining ----

  /** Steps a worker still takes with what it holds. */
  function WorkerWork(s: System, worker: Worker): nat {
    match worker
    case Filling(batch) => if batch == [] then 1 else s.maxRetries + 2
    case Flushing(_, attempt, _) => if attempt <= s.maxRetries then s.maxRetries - attempt + 2 else 2
    case Exited => 0
  }

  function PoolWork(s: System, workers: seq<Worker>): nat {
    if workers == [] then 0 else WorkerWork(s, workers[0]) + PoolWork(s, workers[1..])
  }

  /** An upper bound on the worker steps left: every queued event starts at most one flush. */
  function Work(s: System): nat {
    (s.maxRetries + 2) * |s.queue| + PoolWork(s, s.workers)
  }

  lemma {:induction false} PoolWorkUpdate(s: System, workers: seq<Worker>, w: nat, worker: Worker)
    requires w < |workers|
    ensures PoolWork(s, workers[w := worker])
         == PoolWork(s, workers) - WorkerWork(s, workers[w]) + WorkerWork(s, worker)
  {
    var updated := workers[w := worker];
    if w == 0 {
      assert updated[1..] == workers[1..];
    } else {
      PoolWorkUpdate(s, workers[1..], w - 1, worker);
      assert updated[1..] == workers[1..][w - 1 := worker];
    }
  }

  lemma {:induction false} SameConfigSameWork(s: System, s': System, workers: seq<Worker>)
    requires s'.maxRetries == s.maxRetries
    ensures PoolWork(s', workers) == PoolWork(s, workers)
  {
    if workers != [] {
      SameConfigSameWork(s, s', workers[1..]);
    }
  }

  /** A step of a worker other than a tick on an empty batch. */
  predicate IsWork(s: System, step: Step) {
    match step
    case Receive(_) => true
    case ReceiveClosed(_) => true
    case TryInsert(_, _, _) => true
    case Tick(w) => w < |s.workers| && s.workers[w].Filling? && s.workers[w].batch != []
    case _ => false
  }

  lemma WorkerStepWorks(s: System, step: Step)
    requires Valid(s) && Enabled(s, step) && IsWork(s, step)
    ensures var worker, worker' := s.workers[step.w], Take(s, step).workers[step.w];
            if step.Receive? then WorkerWork(s, worker') < WorkerWork(s, worker) + s.maxRetries + 2
            else WorkerWork(s, worker') < WorkerWork(s, worker)
  {
    assert WorkerOk(s, s.workers[step.w]);
  }

  lemma OneWorkerChanges(s: System, step: Step)
    requires Enabled(s, step) && IsWork(s, step)
    ensures var s' := Take(s, step);
            && s'.maxRetries == s.maxRetries
            && s'.workers == s.workers[step.w := s'.workers[step.w]]
            && |s'.queue| == |s.queue| - if step.Receive? then 1 else 0
  {
  }

  lemma QueueWork(m: nat, before: nat, after: nat, d: nat)
    requires after == before - d && d <= 1
    ensures m * before == m * after + if d == 1 then m else 0
  {
  }

  /** Every worker step uses up work. */
  lemma StepWorks(s: System, step: Step)
    requires Valid(s) && Enabled(s, step) && IsWork(s, step)
    ensures Work(Take(s, step)) < Work(s)
  {
    var s' := Take(s, step);
    OneWorkerChanges(s, step);
    WorkerStepWorks(s, step);
    SameConfigSameWork(s, s', s'.workers);
    PoolWorkUpdate(s, s.workers, step.w, s'.workers[step.w]);
    QueueWork(s.maxRetries + 2, |s.queue|, |s'.queue|, if step.Receive? then 1 else 0);
  }

  /** The channel is closed and nobody is sending: from here on only the workers act. */
  predicate Draining(s: System) {
    !s.panicked && s.channelClosed && s.closed && s.producers == map[]
  }

  lemma OnlyWorkersAct(s: System, step: Step)
    requires Valid(s) && Draining(s) && Enabled(s, step)
    ensures Draining(Take(s, step))
    ensures IsWork(s, step) || Take(s, step) == s
  {
  }

  ghost function WorkSteps(s: System, steps: seq<Step>): nat
    requires Possible(s, steps)
    decreases |steps|
  {
    if steps == [] then 0
    else WorkSteps(s, Front(steps)) + if IsWork(After(s, Front(steps)), Last(steps)) then 1 else 0
  }

  /** After Close, a run takes at most `Work` steps that are not idle ticks or refused sends. */
  lemma {:induction false} DrainingIsBounded(s: System, steps: seq<Step>)
    requires Valid(s) && Draining(s) && Possible(s, steps)
    ensures Draining(After(s, steps)) && WorkSteps(s, steps) + Work(After(s, steps)) <= Work(s)
  {
    if steps != [] {
      DrainingIsBounded(s, Front(steps));
      RunKeepsValid(s, Front(steps));
      var before := After(s, Front(steps));
      if IsWork(before, Last(steps)) {
        StepWorks(before, Last(steps));
      }
      OnlyWorkersAct(before, Last(steps));
    }
  }

  /** And as long as a worker is left, one can take such a step, whatever the database answers. */
  lemma SomeWorkerCanStep(s: System, reply: Reply) returns (step: Step)
    requires Valid(s) && Draining(s) && !AllExited(s)
    ensures Enabled(s, step) && IsWork(s, step)
    ensures step.TryInsert? ==>
      step.reply == if TakesAll(s.takes, s.workers[step.w].batch) then reply else NotApplied
  {
    var w :| 0 <= w < |s.workers| && !s.workers[w].Exited?;
    if s.workers[w].Flushing? {
      ArrangeIsOrdering(s.workers[w].batch);
      var answer := if TakesAll(s.takes, s.workers[w].batch) then reply else NotApplied;
      step := TryInsert(w, Arrange(s.workers[w].batch), answer);
    } else if s.queue == [] {
      step := ReceiveClosed(w);
    } else {
      step := Receive(w);
    }
  }

  lemma {:induction false} PrependStep(s: System, step: Step, steps: seq<Step>)
    requires Enabled(s, step) && Possible(Take(s, step), steps)
    ensures Possible(s, [step] + steps)
    ensures After(s, [step] + steps) == After(Take(s, step), steps)
  {
    if steps == [] {
      assert [step] + steps == [step];
      OneStep(s, step);
    } else {
      PrependStep(s, step, Front(steps));
      assert Front([step] + steps) == [step] + Front(steps);
    }
  }

  /** The attempts made between two states were answered as `answers` says, except those for a
      batch that the schema does not take. */
  ghost predicate AnsweredBy(s: System, s': System, answers: nat -> Reply) {
    && s'.takes == s.takes && s.attempts <= s'.attempts
    && forall i :: |s.attempts| <= i < |s'.attempts| ==>
         s'.attempts[i].reply == if TakesAll(s.takes, s'.attempts[i].batch) then answers(i) else NotApplied
  }

  lemma AnsweredFirst(s: System, middle: System, s': System, answers: nat -> Reply)
    requires AnsweredBy(s, middle, answers) && AnsweredBy(middle, s', answers)
    ensures AnsweredBy(s, s', answers)
  {
  }

  lemma InsertAttempts(s: System, w: nat, rows: seq<Event>, reply: Reply)
    requires Enabled(s, TryInsert(w, rows, reply))
    ensures var s' := Take(s, TryInsert(w, rows, reply));
            s'.takes == s.takes && s'.attempts == s.attempts + [Attempt(s.workers[w].batch, rows, reply)]
  {
  }

  lemma TakesIsFixed(s: System, step: Step)
    requires Enabled(s, step)
    ensures Take(s, step).takes == s.takes
  {
  }

  lemma StepIsAnswered(s: System, step: Step, answers: nat -> Reply)
    requires Enabled(s, step)
    requires step.TryInsert? ==>
      step.reply == if TakesAll(s.takes, s.workers[step.w].batch) then answers(|s.attempts|) else NotApplied
    ensures AnsweredBy(s, Take(s, step), answers)
  {
    TakesIsFixed(s, step);
    if step.TryInsert? {
      InsertAttempts(s, step.w, step.rows, step.reply);
    } else {
      OnlyInsertsAttempt(s, step);
    }
  }

  lemma WorkAcceptsNothing(s: System, step: Step)
    requires Enabled(s, step) && IsWork(s, step)
    ensures Take(s, step).accepted == s.accepted && |Take(s, step).workers| == |s.workers|
  {
  }

  lemma GoodStep(s: System, answers: nat -> Reply) returns (step: Step)
    requires Valid(s) && Draining(s) && !AllExited(s)
    ensures Enabled(s, step) && Valid(Take(s, step)) && Draining(Take(s, step))
    ensures Work(Take(s, step)) < Work(s)
    ensures Take(s, step).accepted == s.accepted && |Take(s, step).workers| == |s.workers|
    ensures AnsweredBy(s, Take(s, step), answers)
  {
    step := SomeWorkerCanStep(s, answers(|s.attempts|));
    StepIsAnswered(s, step, answers);
    StepWorks(s, step);
    WorkAcceptsNothing(s, step);
    OnlyWorkersAct(s, step);
    StepKeepsValid(s, step);
  }

  /** A run after Close that cannot go on has drained: together with DrainingIsBounded, no run
      in which the workers keep taking the steps they can take misses that point. */
  lemma StuckMeansDrained(s: System, steps: seq<Step>)
    requires Valid(s) && Draining(s) && Possible(s, steps) && |After(s, steps).workers| > 0
    requires forall step :: Enabled(After(s, steps), step) ==> !IsWork(After(s, steps), step)
    ensures var s' := After(s, steps);
            AllExited(s') && s'.queue == [] && s'.accepted == s'.flushed + s'.dropped
  {
    var s' := After(s, steps);
    RunKeepsValid(s, steps);
    DrainingIsBounded(s, steps);
    if !AllExited(s') {
      var step := SomeWorkerCanStep(s', Ok);
    }
    ExitedMeansDrained(s');
  }

  /** Close and Wait finish, whatever the database answers to each attempt: the workers can all
      exit, and then nothing is queued or held and every accepted event was flushed or reported
      dropped. */
  lemma {:induction false} WaitReturns(s: System, answers: nat -> Reply) returns (steps: seq<Step>)
    requires Valid(s) && Draining(s) && |s.workers| > 0
    ensures Possible(s, steps)
    ensures AllExited(After(s, steps)) && After(s, steps).queue == []
    ensures After(s, steps).accepted == s.accepted
    ensures After(s, steps).accepted == After(s, steps).flushed + After(s, steps).dropped
    ensures AnsweredBy(s, After(s, steps), answers)
    decreases Work(s)
  {
    if AllExited(s) {
      steps := [];
      ExitedMeansDrained(s);
    } else {
      var step := GoodStep(s, answers);
      var rest := WaitReturns(Take(s, step), answers);
      PrependStep(s, step, rest);
      AnsweredFirst(s, Take(s, step), After(Take(s, step), rest), answers);
      steps := [step] + rest;
    }
  }
}
