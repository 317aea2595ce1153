/** internal/grpcingest/server.go: Publish, which may enqueue part of a batch before it fails,
    and why retrying the whole batch is safe. */
module Publish {
  import opened Words
  import opened Store
  import opened Queue
  import Loss
  import Offers
  import Pool

  /** An event as a client sends it: no timestamp. */
  datatype Wire = Wire(id: GoString, name: GoString, user: GoString, properties: GoString)

  datatype Reason = IdRequired | NameRequired

  datatype Rejected = Rejected(index: nat, reason: Reason)

  datatype Status = ResourceExhausted | Unavailable | Internal

  datatype Response = Failed(status: Status) | Published(accepted: nat, rejected: seq<Rejected>)

  predicate Acceptable(w: Wire) {
    w.id != [] && w.name != []
  }

  function Stamped(w: Wire, now: int): Event {
    Event(w.id, w.name, w.user, w.properties, now)
  }

  /** The events a request stands for, stamped on arrival, in order. */
  function Accepts(req: seq<Wire>, now: int): seq<Event> {
    if req == [] then []
    else if Acceptable(Last(req)) then Accepts(Front(req), now) + [Stamped(Last(req), now)]
    else Accepts(Front(req), now)
  }

  /** The rejections a request gets, in order. */
  function Rejects(req: seq<Wire>): seq<Rejected> {
    if req == [] then []
    else if Acceptable(Last(req)) then Rejects(Front(req))
    else Rejects(Front(req)) + [Rejected(|req| - 1, if Last(req).id == [] then IdRequired else NameRequired)]
  }

  /** The event that an entry of the request stands for at the time of the call. */
  predicate IsEntry(e: Event, w: Wire, now: int) {
    && w.id != [] && w.name != []
    && e.id == w.id && e.name == w.name && e.user == w.user && e.properties == w.properties && e.ts == now
  }

  /** The indexes of the entries with an id and a name, in order. */
  ghost predicate AreAcceptable(req: seq<Wire>, at: seq<nat>) {
    && (forall i, j :: 0 <= i < j < |at| ==> at[i] < at[j])
    && (forall i :: i in at ==> i < |req|)
    && forall i :: 0 <= i < |req| ==> (i in at <==> req[i].id != [] && req[i].name != [])
  }

  lemma NextEntry(req: seq<Wire>, before: seq<nat>)
    requires req != [] && AreAcceptable(Front(req), before)
    ensures AreAcceptable(req, if Acceptable(Last(req)) then before + [|req| - 1] else before)
  {
    var more := before + [|req| - 1];
    assert forall i :: i in more <==> i in before || i == |req| - 1;
    assert |req| - 1 !in before;
    forall k | 0 <= k < |before|
      ensures before[k] < |req| - 1
    {
      assert before[k] in before;
    }
  }

  ghost predicate AreEntries(events: seq<Event>, req: seq<Wire>, at: seq<nat>, now: int) {
    && |events| <= |at|
    && forall k :: 0 <= k < |events| ==> at[k] < |req| && IsEntry(events[k], req[at[k]], now)
  }

  lemma EntriesGrow(events: seq<Event>, req: seq<Wire>, at: seq<nat>, now: int)
    requires req != [] && AreEntries(events, Front(req), at, now) && |events| == |at|
    ensures AreEntries(events, req, at, now)
    ensures Acceptable(Last(req)) ==> AreEntries(events + [Stamped(Last(req), now)], req, at + [|req| - 1], now)
  {
    forall k | 0 <= k < |events|
      ensures at[k] < |req| && IsEntry(events[k], req[at[k]], now)
    {
      assert IsEntry(events[k], Front(req)[at[k]], now);
    }
  }

  /** The k-th event is the k-th acceptable entry, field by field. */
  lemma {:induction false} AcceptsEntries(req: seq<Wire>, now: int) returns (at: seq<nat>)
    ensures AreAcceptable(req, at) && |at| == |Accepts(req, now)|
    ensures AreEntries(Accepts(req, now), req, at, now)
  {
    at := [];
    if req != [] {
      var before := AcceptsEntries(Front(req), now);
      NextEntry(req, before);
      EntriesGrow(Accepts(Front(req), now), req, before, now);
      at := if Acceptable(Last(req)) then before + [|req| - 1] else before;
    }
  }

  predicate RejectedFor(r: Rejected, req: seq<Wire>) {
    && r.index < |req|
    && (req[r.index].id == [] || req[r.index].name == [])
    && (r.reason == IdRequired <==> req[r.index].id == [])
  }

  function Indexes(rejected: seq<Rejected>): set<nat> {
    set r | r in rejected :: r.index
  }

  /** The rejected indexes are increasing and exactly those of unacceptable events, each with
      the first rule it breaks; every event is accepted or rejected. */
  lemma {:induction false} RejectsExactly(req: seq<Wire>, now: int)
    ensures forall i, j :: 0 <= i < j < |Rejects(req)| ==> Rejects(req)[i].index < Rejects(req)[j].index
    ensures forall r :: r in Rejects(req) ==> RejectedFor(r, req)
    ensures Indexes(Rejects(req)) == set i | 0 <= i < |req| && (req[i].id == [] || req[i].name == [])
    ensures |Accepts(req, now)| + |Rejects(req)| == |req|
  {
    if req != [] {
      RejectsExactly(Front(req), now);
      RejectsStep(req);
    }
  }

  lemma RejectsStep(req: seq<Wire>)
    requires req != [] && forall r :: r in Rejects(Front(req)) ==> RejectedFor(r, Front(req))
    ensures forall r :: r in Rejects(req) ==> RejectedFor(r, req)
    ensures Indexes(Rejects(req)) == Indexes(Rejects(Front(req))) + if Acceptable(Last(req)) then {} else {|req| - 1}
    ensures forall i :: 0 <= i < |Rejects(Front(req))| ==> Rejects(Front(req))[i].index < |req| - 1
  {
    forall r | r in Rejects(Front(req))
      ensures RejectedFor(r, req)
    {
      assert RejectedFor(r, Front(req));
    }
    forall i | 0 <= i < |Rejects(Front(req))|
      ensures Rejects(Front(req))[i].index < |req| - 1
    {
      assert RejectedFor(Rejects(Front(req))[i], Front(req));
    }
  }

  function StatusOf(answer: Answer): Status {
    match answer
    case ErrFull => ResourceExhausted
    case ErrClosed => Unavailable
    case ErrUnavailable => Unavailable
    case _ => Internal
  }

  /** Any queue behind the Enqueuer interface: `answers` says how it will answer each call, and
      `offered` is every call so far. */
  class Enqueuer {
    const answers: nat -> Answer
    var offered: seq<Offer>

    constructor (answers: nat -> Answer)
      ensures this.answers == answers && offered == []
    {
      this.answers, offered := answers, [];
    }

    method Enqueue(e: Event) returns (answer: Answer)
      modifies this
      ensures answer == answers(|old(offered)|) && offered == old(offered) + [Offer(e, answer)]
    {
      answer := answers(|offered|);
      offered := offered + [Offer(e, answer)];
    }
  }

  /** One call of Publish for a request: when it arrived and how many of its acceptable events
      it enqueued. */
  datatype Call = Call(now: int, sent: nat)

  /** The calls of Enqueue that one call of Publish makes: acceptable events in order, all but
      possibly the last accepted, and all of them unless the last was not. */
  ghost predicate IsCall(req: seq<Wire>, call: Call, offers: seq<Offer>) {
    && call.sent <= |Accepts(req, call.now)| && call.sent <= |offers| <= call.sent + 1
    && (forall i :: 0 <= i < call.sent ==> offers[i] == Offer(Accepts(req, call.now)[i], Accepted))
    && (|offers| > call.sent ==>
          && call.sent < |Accepts(req, call.now)|
          && offers[call.sent].event == Accepts(req, call.now)[call.sent]
          && offers[call.sent].answer != Accepted)
  }

  lemma {:induction false} AcceptsPrefix(req: seq<Wire>, now: int, i: nat)
    requires i <= |req|
    ensures Accepts(req[..i], now) <= Accepts(req, now)
  {
    if i == |req| {
      assert req[..i] == req;
    } else {
      AcceptsPrefix(Front(req), now, i);
      assert req[..i] == Front(req)[..i];
    }
  }

  /** The event at an acceptable index is the next one after those before it. */
  lemma NextAccepted(req: seq<Wire>, now: int, i: nat)
    requires i < |req| && Acceptable(req[i])
    ensures var n := |Accepts(req[..i], now)|;
            n < |Accepts(req, now)| && Accepts(req, now)[n] == Stamped(req[i], now)
  {
    assert Front(req[..i + 1]) == req[..i];
    AcceptsPrefix(req, now, i + 1);
  }

  lemma OneEntryMore(req: seq<Wire>, now: int, i: nat)
    requires i < |req|
    ensures if req[i].id == [] || req[i].name == [] then
              && Accepts(req[..i + 1], now) == Accepts(req[..i], now)
              && Rejects(req[..i + 1])
                   == Rejects(req[..i]) + [Rejected(i, if req[i].id == [] then IdRequired else NameRequired)]
            else
              && Accepts(req[..i + 1], now) == Accepts(req[..i], now) + [Stamped(req[i], now)]
              && Rejects(req[..i + 1]) == Rejects(req[..i])
  {
    assert Front(req[..i + 1]) == req[..i];
  }

  /** What the loop has done after the first `n` acceptable events. */
  ghost predicate AllTaken(accepts: seq<Event>, offers: seq<Offer>) {
    |offers| == |accepts| && forall i :: 0 <= i < |offers| ==> offers[i] == Offer(accepts[i], Accepted)
  }

  lemma FailedCall(req: seq<Wire>, now: int, i: nat, offers: seq<Offer>, answer: Answer)
    requires i < |req| && Acceptable(req[i]) && AllTaken(Accepts(req[..i], now), offers) && answer != Accepted
    ensures IsCall(req, Call(now, |offers|), offers + [Offer(Stamped(req[i], now), answer)])
  {
    NextAccepted(req, now, i);
    AcceptsPrefix(req, now, i);
  }

  /** The events offered are those of the first acceptable entries, field by field. */
  ghost predicate OffersEntries(req: seq<Wire>, at: seq<nat>, offers: seq<Offer>, now: int) {
    && AreAcceptable(req, at) && |offers| <= |at|
    && forall k :: 0 <= k < |offers| ==> at[k] < |req| && IsEntry(offers[k].event, req[at[k]], now)
  }

  lemma CallOffersEntries(req: seq<Wire>, call: Call, offers: seq<Offer>) returns (at: seq<nat>)
    requires IsCall(req, call, offers)
    ensures OffersEntries(req, at, offers, call.now) && |at| == |Accepts(req, call.now)|
  {
    at := AcceptsEntries(req, call.now);
    forall k | 0 <= k < |offers|
      ensures at[k] < |req| && IsEntry(offers[k].event, req[at[k]], call.now)
    {
      assert IsEntry(Accepts(req, call.now)[k], req[at[k]], call.now);
    }
  }

  /** The loop over the request: every acceptable event is enqueued, in order, until one enqueue
      fails. */
  method PublishEach(q: Enqueuer, req: seq<Wire>, now: int)
    returns (resp: Response, ghost call: Call, ghost offers: seq<Offer>)
    modifies q
    ensures q.offered == old(q.offered) + offers && call.now == now && IsCall(req, call, offers)
    ensures forall i :: 0 <= i < |offers| ==> offers[i].answer == q.answers(|old(q.offered)| + i)
    ensures resp.Published? ==>
      && call.sent == |Accepts(req, now)| && resp.rejected == Rejects(req)
      && resp.accepted == |offers| == |Accepts(req, now)|
    ensures resp.Failed? ==> |offers| == call.sent + 1 && resp.status == StatusOf(Last(offers).answer)
  {
    offers := [];
    var accepted, rejected := 0, [];
    var i := 0;
    while i < |req|
      invariant 0 <= i <= |req| && q.offered == old(q.offered) + offers
      invariant AllTaken(Accepts(req[..i], now), offers) && accepted == |offers|
      invariant forall k :: 0 <= k < |offers| ==> offers[k].answer == q.answers(|old(q.offered)| + k)
      invariant rejected == Rejects(req[..i])
    {
      var w := req[i];
      OneEntryMore(req, now, i);
      if w.id == [] || w.name == [] {
        rejected := rejected + [Rejected(i, if w.id == [] then IdRequired else NameRequired)];
      } else {
        var answer := q.Enqueue(Stamped(w, now));
        if answer != Accepted {
          FailedCall(req, now, i, offers, answer);
          return Failed(StatusOf(answer)), Call(now, |offers|), offers + [Offer(Stamped(w, now), answer)];
        }
        offers := offers + [Offer(Stamped(w, now), answer)];
        accepted := accepted + 1;
      }
      i := i + 1;
    }
    assert req[..|req|] == req;
    return Published(accepted, rejected), Call(now, |offers|), offers;
  }

  /** On success every acceptable event was enqueued, in order, and the answer accounts for
      every index of the request. On failure the enqueued events are the acceptable ones before
      the one whose enqueue failed, and the status says why. */
  method PublishBatch(q: Enqueuer, req: seq<Wire>, allowed: bool, now: int)
    returns (resp: Response, ghost call: Call, ghost offers: seq<Offer>, ghost at: seq<nat>)
    modifies q
    ensures q.offered == old(q.offered) + offers && call.now == now && IsCall(req, call, offers)
    ensures OffersEntries(req, at, offers, now)
    ensures forall i :: 0 <= i < |offers| ==> offers[i].answer == q.answers(|old(q.offered)| + i)
    ensures !allowed ==> resp == Failed(ResourceExhausted) && offers == []
    ensures resp.Published? ==>
      && call.sent == |Accepts(req, now)| && resp.rejected == Rejects(req)
      && resp.accepted == |offers| == |at| == |req| - |resp.rejected|
    ensures allowed && resp.Failed? ==>
      && |offers| == call.sent + 1
      && match Last(offers).answer {
           case Accepted => false
           case ErrFull => resp.status == ResourceExhausted
           case ErrClosed => resp.status == Unavailable
           case ErrUnavailable => resp.status == Unavailable
           case OtherError => resp.status == Internal
         }
  {
    if allowed {
      resp, call, offers := PublishEach(q, req, now);
    } else {
      resp, call, offers := Failed(ResourceExhausted), Call(now, 0), [];
    }
    at := CallOffersEntries(req, call, offers);
    RejectsExactly(req, now);
  }

  // ---- Retrying a batch ----

  ghost predicate Retried(req: seq<Wire>, calls: seq<Call>) {
    && calls != []
    && (forall i :: 0 <= i < |calls| ==> calls[i].sent <= |Accepts(req, calls[i].now)|)
    && Last(calls).sent == |Accepts(req, Last(calls).now)|
  }

  ghost predicate SentBy(req: seq<Wire>, call: Call, e: Event) {
    call.sent <= |Accepts(req, call.now)| && e in Accepts(req, call.now)[..call.sent]
  }

  ghost predicate Sent(req: seq<Wire>, calls: seq<Call>, e: Event) {
    exists i :: 0 <= i < |calls| && SentBy(req, calls[i], e)
  }

  function AcceptableIds(req: seq<Wire>): set<GoString> {
    set w | w in req && w.id != [] && w.name != [] :: w.id
  }

  lemma {:induction false} AcceptedIds(req: seq<Wire>, now: int)
    ensures Ids(Accepts(req, now)) == AcceptableIds(req)
  {
    if req != [] {
      AcceptedIds(Front(req), now);
      assert req == Front(req) + [Last(req)];
      var before := Accepts(Front(req), now);
      assert Ids(before + [Stamped(Last(req), now)]) == Ids(before) + {Last(req).id};
    }
  }

  /** The calls of Enqueue that a client's calls of Publish make, one after the other. */
  ghost predicate IsSession(req: seq<Wire>, calls: seq<Call>, offers: seq<Offer>)
    decreases |calls|
  {
    if calls == [] then offers == []
    else exists k :: 0 <= k <= |offers| && SessionSplits(req, calls, offers, k)
  }

  ghost predicate SessionSplits(req: seq<Wire>, calls: seq<Call>, offers: seq<Offer>, k: int)
    requires calls != [] && 0 <= k <= |offers|
    decreases |calls|, 0
  {
    IsSession(req, Front(calls), offers[..k]) && IsCall(req, Last(calls), offers[k..])
  }

  lemma {:induction false} TakenOfAccepted(offers: seq<Offer>, events: seq<Event>)
    requires |offers| == |events| && forall i :: 0 <= i < |offers| ==> offers[i] == Offer(events[i], Accepted)
    ensures Taken(offers) == events
  {
    if offers != [] {
      TakenOfAccepted(Front(offers), Front(events));
      assert events == Front(events) + [Last(events)];
    }
  }

  /** A call enqueues a prefix of its acceptable events. */
  lemma CallTakes(req: seq<Wire>, call: Call, offers: seq<Offer>)
    requires IsCall(req, call, offers)
    ensures Taken(offers) == Accepts(req, call.now)[..call.sent]
  {
    TakenOfAccepted(offers[..call.sent], Accepts(req, call.now)[..call.sent]);
    if |offers| > call.sent {
      assert Front(offers) == offers[..call.sent];
    } else {
      assert offers == offers[..call.sent];
    }
  }

  lemma SentNext(req: seq<Wire>, calls: seq<Call>, e: Event)
    requires calls != []
    ensures Sent(req, calls, e) <==> Sent(req, Front(calls), e) || SentBy(req, Last(calls), e)
  {
    if Sent(req, Front(calls), e) {
      var i :| 0 <= i < |Front(calls)| && SentBy(req, Front(calls)[i], e);
      assert calls[i] == Front(calls)[i];
    }
    if SentBy(req, Last(calls), e) {
      assert SentBy(req, calls[|calls| - 1], e);
    }
    if Sent(req, calls, e) {
      var i :| 0 <= i < |calls| && SentBy(req, calls[i], e);
      assert i < |calls| - 1 ==> Front(calls)[i] == calls[i];
    }
  }

  lemma {:induction false} SessionTakes(req: seq<Wire>, calls: seq<Call>, offers: seq<Offer>, e: Event)
    requires IsSession(req, calls, offers)
    ensures e in Taken(offers) <==> Sent(req, calls, e)
    decreases |calls|
  {
    if calls != [] {
      var k :| 0 <= k <= |offers| && SessionSplits(req, calls, offers, k);
      SessionTakes(req, Front(calls), offers[..k], e);
      CallTakes(req, Last(calls), offers[k..]);
      assert offers == offers[..k] + offers[k..];
      Offers.TakenOfBoth(offers[..k], offers[k..]);
      SentNext(req, calls, e);
    }
  }

  lemma SomeTrySent(req: seq<Wire>, calls: seq<Call>, id: GoString) returns (e: Event)
    requires Retried(req, calls) && id in AcceptableIds(req)
    ensures Sent(req, calls, e) && e.id == id
  {
    var all := Accepts(req, Last(calls).now);
    AcceptedIds(req, Last(calls).now);
    e :| e in all && e.id == id;
    assert all[..Last(calls).sent] == all;
    assert SentBy(req, calls[|calls| - 1], e);
  }

  lemma SentIsAcceptable(req: seq<Wire>, calls: seq<Call>, e: Event)
    requires Sent(req, calls, e)
    ensures e.id in AcceptableIds(req)
  {
    var i :| 0 <= i < |calls| && SentBy(req, calls[i], e);
    AcceptedIds(req, calls[i].now);
    assert e in Accepts(req, calls[i].now);
  }

  /** The event of an entry of the request, stamped by one of the calls. */
  ghost predicate FromRequest(req: seq<Wire>, calls: seq<Call>, e: Event) {
    exists i, j :: 0 <= i < |req| && 0 <= j < |calls| && IsEntry(e, req[i], calls[j].now)
  }

  lemma SentIsFromRequest(req: seq<Wire>, calls: seq<Call>, e: Event)
    requires Sent(req, calls, e)
    ensures FromRequest(req, calls, e)
  {
    var j :| 0 <= j < |calls| && SentBy(req, calls[j], e);
    var accepts := Accepts(req, calls[j].now);
    var at := AcceptsEntries(req, calls[j].now);
    var k :| 0 <= k < |accepts| && accepts[k] == e;
    assert IsEntry(e, req[at[k]], calls[j].now);
  }

  /** Rows whose id nobody else sent have the fields of a request entry. */
  ghost predicate RowsFromRequest(req: seq<Wire>, calls: seq<Call>, others: seq<Event>, t: Tables) {
    forall id :: id in t.events && id !in Ids(others) ==> t.events[id].id == id && FromRequest(req, calls, t.events[id])
  }

  lemma RowsAreFromRequest(req: seq<Wire>, calls: seq<Call>, others: seq<Event>, attempts: seq<Attempt>)
    requires WellFormed(attempts)
    requires forall e :: e in Committed(attempts) ==> Sent(req, calls, e) || e in others
    ensures RowsFromRequest(req, calls, others, Run(attempts))
  {
    RunIsConsistent(attempts);
    var t := Run(attempts);
    forall id | id in t.events && id !in Ids(others)
      ensures t.events[id].id == id && FromRequest(req, calls, t.events[id])
    {
      assert t.events[id] in Committed(attempts);
      SentIsFromRequest(req, calls, t.events[id]);
    }
  }

  ghost function IdsOf(events: multiset<Event>): set<GoString> {
    set e | e in events :: e.id
  }

  /** The ids of everything that the calls and others sent. */
  lemma SentIds(req: seq<Wire>, calls: seq<Call>, others: seq<Event>, all: multiset<Event>)
    requires Retried(req, calls)
    requires forall e :: e in all <==> Sent(req, calls, e) || e in others
    ensures IdsOf(all) == AcceptableIds(req) + Ids(others)
  {
    forall id | id in AcceptableIds(req)
      ensures id in IdsOf(all)
    {
      var e := SomeTrySent(req, calls, id);
      assert e in all;
    }
    forall id | id in IdsOf(all)
      ensures id in AcceptableIds(req) + Ids(others)
    {
      var e :| e in all && e.id == id;
      if e !in others {
        SentIsAcceptable(req, calls, e);
      }
    }
    forall id | id in Ids(others)
      ensures id in IdsOf(all)
    {
      var e :| e in others && e.id == id;
      assert e in all;
    }
  }

  /** Failed calls followed by one that succeeds: once everything enqueued has been flushed,
      in whatever batches and mixed with whatever `others` sent, each acceptable event id is
      stored and counted exactly once, although each try carried its own timestamps; and a row
      whose id nobody else sent has the name, user and properties of an entry with that id. */
  lemma RetryCountsOnce(req: seq<Wire>, calls: seq<Call>, others: seq<Event>, attempts: seq<Attempt>)
    requires Retried(req, calls) && WellFormed(attempts)
    requires forall e :: e in Committed(attempts) <==> Sent(req, calls, e) || e in others
    ensures Run(attempts).events.Keys == AcceptableIds(req) + Ids(others)
    ensures TotalInserted(attempts) == |AcceptableIds(req) + Ids(others)|
    ensures RollupsAgree(Run(attempts)) && RowsFromRequest(req, calls, others, Run(attempts))
  {
    RowsAreFromRequest(req, calls, others, attempts);
    RunIsConsistent(attempts);
    SentIds(req, calls, others, multiset(Committed(attempts)));
    assert Ids(Committed(attempts)) == IdsOf(multiset(Committed(attempts)));
    assert |Run(attempts).events| == |Run(attempts).events.Keys|;
  }

  /** The same through the memory queue and the worker pool, in any interleaving: if the calls
      of Enqueue that producer `pid` completes are those of Publish calls of which the last
      succeeded, and everything accepted was in an applied attempt, then each acceptable id is
      stored, and all ids are counted exactly once. */
  lemma RetryThroughPool(
      req: seq<Wire>, calls: seq<Call>, start: Pool.System, steps: seq<Pool.Step>, pid: nat)
    requires Retried(req, calls) && Pool.Initial(start) && Pool.Possible(start, steps)
    requires IsSession(req, calls, Offers.OffersOf(start, steps, pid))
    requires Loss.AllApplied(Pool.After(start, steps))
    ensures var attempts := Pool.After(start, steps).attempts;
            var ids := AcceptableIds(req) + Ids(Offers.TakenFromOthers(start, steps, pid));
            && Run(attempts).events.Keys == ids && TotalInserted(attempts) == |ids|
            && RowsFromRequest(req, calls, Offers.TakenFromOthers(start, steps, pid), Run(attempts))
  {
    var s, others := Pool.After(start, steps), Offers.TakenFromOthers(start, steps, pid);
    Loss.NothingLostExactly(start, steps);
    Offers.AcceptedFromBoth(start, steps, pid);
    forall e
      ensures e in s.accepted <==> Sent(req, calls, e) || e in others
    {
      SessionTakes(req, calls, Offers.OffersOf(start, steps, pid), e);
    }
    SentIds(req, calls, others, s.accepted);
    Pool.InitialIsValid(start);
    Pool.RunKeepsValid(start, steps);
    RowsAreFromRequest(req, calls, others, s.attempts);
    assert Pool.AcceptedIds(s) == IdsOf(s.accepted);
    assert |Run(s.attempts).events| == |Run(s.attempts).events.Keys|;
  }
}
