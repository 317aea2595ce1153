/** internal/queue/kafka.go: what a worker reads. Between two assignments it reads each record of
    a partition once, in order and without a gap. */
module Reading {
  import opened Words
  import opened Store
  import opened Delivery

  // ---- Where a worker reads next ----

  lemma {:induction false} AdvancedElsewhere(positions: map<nat, nat>, spans: seq<Span>, p: nat)
    requires forall i :: 0 <= i < |spans| ==> spans[i].p != p
    ensures p in Advanced(positions, spans) <==> p in positions
    ensures p in positions ==> Advanced(positions, spans)[p] == positions[p]
  {
    if spans != [] {
      AdvancedElsewhere(positions, Front(spans), p);
    }
  }

  lemma {:induction false} AdvancedAt(positions: map<nat, nat>, spans: seq<Span>, i: nat)
    requires i < |spans| && forall j, k :: 0 <= j < k < |spans| ==> spans[j].p != spans[k].p
    ensures spans[i].p in Advanced(positions, spans) && Advanced(positions, spans)[spans[i].p] == spans[i].to
  {
    if i < |spans| - 1 {
      AdvancedAt(positions, Front(spans), i);
    }
  }

  /** Each partition of the spans moved from the start of its span to its end, and no other. */
  ghost predicate Moved(before: map<nat, nat>, after: map<nat, nat>, spans: seq<Span>) {
    && (forall i :: 0 <= i < |spans| ==>
          && spans[i].p in before && before[spans[i].p] == spans[i].from
          && spans[i].p in after && after[spans[i].p] == spans[i].to)
    && forall p :: (forall i :: 0 <= i < |spans| ==> spans[i].p != p) ==>
         (p in after <==> p in before) && (p in before ==> after[p] == before[p])
  }

  /** A poll moves each polled partition to the end of its span and no other; it takes records
      from the next position on, at least one and at most batchSize in all. */
  lemma PollMoves(s: System, w: nat, spans: seq<Span>)
    requires Enabled(s, Poll(w, spans))
    ensures 0 < |Polled(s, spans)| <= s.batchSize
    ensures Moved(s.workers[w].positions, Take(s, Poll(w, spans)).workers[w].positions, spans)
  {
    var positions := s.workers[w].positions;
    forall i | 0 <= i < |spans|
      ensures spans[i].p in Advanced(positions, spans) && Advanced(positions, spans)[spans[i].p] == spans[i].to
    {
      AdvancedAt(positions, spans, i);
    }
    forall p | forall i :: 0 <= i < |spans| ==> spans[i].p != p
      ensures p in Advanced(positions, spans) <==> p in positions
      ensures p in positions ==> Advanced(positions, spans)[p] == positions[p]
    {
      AdvancedElsewhere(positions, spans, p);
    }
  }

  /** Right after an assignment the next poll of the partition starts at its committed offset. */
  lemma AssignedStartsAtOffset(s: System, w: nat, p: nat, spans: seq<Span>, i: nat)
    requires Enabled(s, Assign(w, p)) && Enabled(Take(s, Assign(w, p)), Poll(w, spans))
    requires i < |spans| && spans[i].p == p
    ensures spans[i].from == Offset(s, p)
  {
  }

  /** A partition taken away is not polled, and a new worker has none. */
  lemma NotAssignedNotPolled(s: System, w: nat, p: nat, spans: seq<Span>)
    ensures Enabled(s, Revoke(w, p)) && Enabled(Take(s, Revoke(w, p)), Poll(w, spans)) ==>
      forall i :: 0 <= i < |spans| ==> spans[i].p != p
    ensures Enabled(s, Join(w)) ==> !Enabled(Take(s, Join(w)), Poll(w, spans))
    ensures Enabled(s, Crash(w)) ==> !Enabled(Take(s, Crash(w)), Poll(w, spans))
  {
  }

  /** A record produced goes to the end of its partition's log, and to no other. */
  lemma ProduceAppends(s: System, p: nat, r: Record, q: nat)
    ensures Log(Take(s, Produce(p, r)), q) == if q == p then Log(s, q) + [r] else Log(s, q)
  {
  }

  // ---- What it reads over a run ----

  /** The spans of one partition among those of a poll. */
  function SpansOf(spans: seq<Span>, p: nat): seq<Span> {
    if spans == [] then []
    else SpansOf(Front(spans), p) + if Last(spans).p == p then [Last(spans)] else []
  }

  /** Everything that a worker polls of a partition in a run, in order. */
  function PolledBy(steps: seq<Step>, w: nat, p: nat): seq<Span> {
    if steps == [] then []
    else
      var step := Last(steps);
      PolledBy(Front(steps), w, p) + if step.Poll? && step.w == w then SpansOf(step.spans, p) else []
  }

  lemma {:induction false} PolledByBoth(first: seq<Step>, second: seq<Step>, w: nat, p: nat)
    ensures PolledBy(first + second, w, p) == PolledBy(first, w, p) + PolledBy(second, w, p)
  {
    if second == [] {
      assert first + second == first;
    } else {
      PolledByBoth(first, Front(second), w, p);
      assert Front(first + second) == first + Front(second) && Last(first + second) == Last(second);
      ThreeParts(PolledBy(first, w, p), PolledBy(Front(second), w, p),
                 if Last(second).Poll? && Last(second).w == w then SpansOf(Last(second).spans, p) else []);
    }
  }

  lemma {:induction false} NoSpansOf(spans: seq<Span>, p: nat)
    requires forall i :: 0 <= i < |spans| ==> spans[i].p != p
    ensures SpansOf(spans, p) == []
  {
    if spans != [] {
      NoSpansOf(Front(spans), p);
    }
  }

  /** The spans follow one another from `from` to `to`. */
  ghost predicate IsChain(spans: seq<Span>, from: nat, to: nat)
    decreases |spans|
  {
    if spans == [] then from == to
    else IsChain(Front(spans), from, Last(spans).from) && Last(spans).from <= Last(spans).to == to
  }

  /** The worker keeps the partition: it is neither assigned anew nor taken away, nor does the
      worker crash. */
  predicate Keeps(step: Step, w: nat, p: nat) {
    && (step.Assign? || step.Revoke? ==> step.w != w || step.p != p)
    && (step.Crash? || step.Join? ==> step.w != w)
  }

  lemma {:induction false} SpansOfMeaning(spans: seq<Span>, p: nat)
    requires forall j, k :: 0 <= j < k < |spans| ==> spans[j].p != spans[k].p
    ensures (forall i :: 0 <= i < |spans| ==> spans[i].p != p) ==> SpansOf(spans, p) == []
    ensures forall i :: 0 <= i < |spans| && spans[i].p == p ==> SpansOf(spans, p) == [spans[i]]
  {
    if spans != [] {
      SpansOfMeaning(Front(spans), p);
      if Last(spans).p == p {
        assert forall i :: 0 <= i < |Front(spans)| ==> Front(spans)[i].p != p;
      }
    }
  }

  /** One step: the worker goes on from where it is, or stays. */
  lemma StepReads(s: System, step: Step, w: nat, p: nat)
    requires Enabled(s, step) && Keeps(step, w, p) && w in s.workers && p in s.workers[w].positions
    ensures var s' := Take(s, step);
            && w in s'.workers && p in s'.workers[w].positions
            && IsChain(if step.Poll? && step.w == w then SpansOf(step.spans, p) else [],
                       s.workers[w].positions[p], s'.workers[w].positions[p])
  {
    if step.Poll? && step.w == w {
      var spans := step.spans;
      PollMoves(s, w, spans);
      SpansOfMeaning(spans, p);
      if i :| 0 <= i < |spans| && spans[i].p == p {
        assert InLog(s, spans[i]) && Front([spans[i]]) == [];
      }
    } else {
      OtherStepsKeepPosition(s, step, w, p);
    }
  }

  lemma OtherStepsKeepPosition(s: System, step: Step, w: nat, p: nat)
    requires Enabled(s, step) && Keeps(step, w, p) && w in s.workers && p in s.workers[w].positions
    requires !(step.Poll? && step.w == w)
    ensures var s' := Take(s, step);
            && w in s'.workers && p in s'.workers[w].positions
            && s'.workers[w].positions[p] == s.workers[w].positions[p]
  {
  }

  lemma {:induction false} ChainsJoin(first: seq<Span>, second: seq<Span>, from: nat, middle: nat, to: nat)
    requires IsChain(first, from, middle) && IsChain(second, middle, to)
    ensures IsChain(first + second, from, to)
    decreases |second|
  {
    if second == [] {
      assert first + second == first;
    } else {
      ChainsJoin(first, Front(second), from, middle, Last(second).from);
      assert Front(first + second) == first + Front(second);
    }
  }

  /** As long as a worker keeps a partition, what it polls of it is one chain from its first
      position to its last: each record between them once, in order. */
  lemma {:induction false} ReadsInOrder(s: System, steps: seq<Step>, w: nat, p: nat)
    requires Possible(s, steps) && w in s.workers && p in s.workers[w].positions
    requires forall i :: 0 <= i < |steps| ==> Keeps(steps[i], w, p)
    ensures var s' := After(s, steps);
            && w in s'.workers && p in s'.workers[w].positions
            && IsChain(PolledBy(steps, w, p), s.workers[w].positions[p], s'.workers[w].positions[p])
  {
    if steps != [] {
      ReadsInOrder(s, Front(steps), w, p);
      var before, step := After(s, Front(steps)), Last(steps);
      assert Keeps(steps[|steps| - 1], w, p);
      StepReads(before, step, w, p);
      ChainsJoin(PolledBy(Front(steps), w, p), if step.Poll? && step.w == w then SpansOf(step.spans, p) else [],
                 s.workers[w].positions[p], before.workers[w].positions[p], After(s, steps).workers[w].positions[p]);
    }
  }

  predicate Holds(span: Span, k: nat) {
    span.from <= k < span.to
  }

  /** A chain holds each record between its ends in exactly one span, and no other. */
  lemma {:induction false} ChainHoldsOnce(spans: seq<Span>, from: nat, to: nat, k: nat)
    requires IsChain(spans, from, to)
    ensures from <= to
    ensures from <= k < to <==> exists i :: 0 <= i < |spans| && Holds(spans[i], k)
    ensures forall i, j :: 0 <= i < j < |spans| && Holds(spans[i], k) ==> !Holds(spans[j], k)
    decreases |spans|
  {
    if spans != [] {
      ChainHoldsOnce(Front(spans), from, Last(spans).from, k);
      var n := |spans| - 1;
      assert Last(spans) == spans[n];
      assert forall i :: 0 <= i < n ==> Front(spans)[i] == spans[i];
      forall i | 0 <= i < n && Holds(spans[i], k)
        ensures from <= k < Last(spans).from
      {
        assert Holds(Front(spans)[i], k);
      }
    }
  }

  // ---- The records of a poll, in order ----

  lemma {:induction false} DecodableInOrder(first: seq<Record>, second: seq<Record>)
    ensures Decodable(first + second) == Decodable(first) + Decodable(second)
  {
    if second == [] {
      assert first + second == first;
    } else {
      DecodableInOrder(first, Front(second));
      assert Front(first + second) == first + Front(second);
    }
  }

  /** Decoding a single record; with DecodableInOrder this fixes decoding altogether. */
  lemma DecodableOfOne(r: Record)
    ensures Decodable([r]) == if r.Good? then [r.event] else []
  {
    assert Front([r]) == [];
  }

  lemma PolledNext(s: System, spans: seq<Span>, span: Span)
    requires SpansInLog(s, spans) && InLog(s, span)
    ensures SpansInLog(s, spans + [span])
    ensures Polled(s, spans + [span]) == Polled(s, spans) + Log(s, span.p)[span.from..span.to]
  {
    assert forall i :: 0 <= i < |spans + [span]| ==> (spans + [span])[i] == if i < |spans| then spans[i] else span;
    assert Front(spans + [span]) == spans;
  }

  lemma PolledStep(s: System, first: seq<Span>, front: seq<Span>, last: Span)
    requires SpansInLog(s, first) && SpansInLog(s, front) && InLog(s, last) && SpansInLog(s, first + front)
    requires Polled(s, first + front) == Polled(s, first) + Polled(s, front)
    ensures SpansInLog(s, front + [last]) && SpansInLog(s, first + (front + [last]))
    ensures Polled(s, first + (front + [last])) == Polled(s, first) + Polled(s, front + [last])
  {
    PolledNext(s, first + front, last);
    PolledNext(s, front, last);
    ThreeParts(first, front, [last]);
    ThreeParts(Polled(s, first), Polled(s, front), Log(s, last.p)[last.from..last.to]);
  }

  lemma InLogFront(s: System, spans: seq<Span>)
    requires SpansInLog(s, spans) && spans != []
    ensures SpansInLog(s, Front(spans)) && InLog(s, Last(spans)) && spans == Front(spans) + [Last(spans)]
  {
    assert InLog(s, spans[|spans| - 1]);
  }

  /** A poll returns the records of its spans, span after span. */
  lemma {:induction false} PolledInOrder(s: System, first: seq<Span>, second: seq<Span>)
    requires SpansInLog(s, first) && SpansInLog(s, second)
    ensures SpansInLog(s, first + second) && Polled(s, first + second) == Polled(s, first) + Polled(s, second)
    decreases |second|
  {
    if second == [] {
      assert first + second == first;
    } else {
      InLogFront(s, second);
      PolledInOrder(s, first, Front(second));
      PolledStep(s, first, Front(second), Last(second));
    }
  }

  lemma PolledOfOne(s: System, span: Span)
    requires InLog(s, span)
    ensures SpansInLog(s, [span]) && Polled(s, [span]) == Log(s, span.p)[span.from..span.to]
  {
    assert Front([span]) == [] && forall i :: 0 <= i < 1 ==> [span][i] == span;
  }
}
