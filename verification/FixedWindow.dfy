/** internal/ratelimit/ratelimit.go: the Redis limiter, one counter per client and second of
    the day. Instances stamp requests with their own clocks; Redis runs the script when a
    request arrives. All times are in milliseconds. */
module FixedWindow {
  import opened Words

  /** `local` is the instance's clock when Allow builds the key, `at` Redis's when the script
      runs. */
  datatype Request = Request(client: GoString, local: int, at: int)

  /** What the key names: a client and "15:04:05". It recurs every day. */
  datatype Key = Key(client: GoString, second: int)

  /** What the key is meant to name: a client and one second of one day. */
  datatype Window = Window(client: GoString, second: int)

  type pos = n: nat | n > 0 witness 1

  datatype Counter = Counter(count: pos, expires: int)

  const SECOND: int := 1000
  const DAY_SECONDS: int := 86_400
  const EXPIRY: int := 1999

  function WindowOf(r: Request): Window {
    Window(r.client, r.local / SECOND)
  }

  function KeyOf(r: Request): Key {
    Key(r.client, r.local / SECOND % DAY_SECONDS)
  }

  /** Two requests share a key exactly when they are of one client and a whole number of days
      apart, to the second. */
  lemma SameKeyExactly(q: Request, r: Request)
    ensures KeyOf(q) == KeyOf(r) <==>
              q.client == r.client && (q.local / 1000 - r.local / 1000) % 86_400 == 0
  {
  }

  /** A window is one client's requests stamped within one whole second. */
  lemma WindowMeaning(r: Request, w: Window)
    ensures WindowOf(r) == w <==> r.client == w.client && w.second * 1000 <= r.local < (w.second + 1) * 1000
  {
  }

  // ---- The script ----

  /** INCR on the live counter, or on a fresh one that then gets its expiry. Redis keeps a key
      through the millisecond of its deadline and drops it after. */
  function Bump(counters: map<Key, Counter>, r: Request): map<Key, Counter> {
    var k := KeyOf(r);
    counters[k :=
      if k in counters && r.at <= counters[k].expires then Counter(counters[k].count + 1, counters[k].expires)
      else Counter(1, r.at + EXPIRY)]
  }

  function Counters(trace: seq<Request>): map<Key, Counter> {
    if trace == [] then map[] else Bump(Counters(Front(trace)), Last(trace))
  }

  /** The script's answer to the last request of a trace. */
  predicate Granted(trace: seq<Request>, limit: nat)
    requires trace != []
  {
    KeyOf(Last(trace)) in Counters(trace) && Counters(trace)[KeyOf(Last(trace))].count <= limit
  }

  function CountIn(trace: seq<Request>, w: Window): nat {
    if trace == [] then 0 else CountIn(Front(trace), w) + if WindowOf(Last(trace)) == w then 1 else 0
  }

  function GrantedIn(trace: seq<Request>, limit: nat, w: Window): nat {
    if trace == [] then 0
    else GrantedIn(Front(trace), limit, w) + if WindowOf(Last(trace)) == w && Granted(trace, limit) then 1 else 0
  }

  // ---- The assumption ----

  function Lag(r: Request): int {
    r.at - r.local
  }

  /** Redis takes requests in order, and clock skew and delivery delay together never differ
      by more than `d` between two requests. */
  ghost predicate Timely(trace: seq<Request>, d: nat) {
    && (forall i, j :: 0 <= i <= j < |trace| ==> trace[i].at <= trace[j].at)
    && (forall i, j :: 0 <= i < |trace| && 0 <= j < |trace| ==> Lag(trace[i]) - Lag(trace[j]) <= d)
  }

  lemma SameKeyOtherDayIsFar(q: Request, r: Request, d: nat)
    requires KeyOf(q) == KeyOf(r) && WindowOf(q) != WindowOf(r) && q.at <= r.at
    requires Lag(q) - Lag(r) <= d && Lag(r) - Lag(q) <= d && d <= 1000
    ensures r.at - q.at >= 86_398_000
  {
  }

  // ---- The invariant of one key ----

  /** Request `o` created the live counter of `k`: it is the first of its window, every
      request for the key since then belongs to that window, and the counter counts them. */
  ghost predicate IsOrigin(trace: seq<Request>, k: Key, o: int) {
    && 0 <= o < |trace|
    && KeyOf(trace[o]) == k
    && k in Counters(trace)
    && Counters(trace)[k].count == CountIn(trace, WindowOf(trace[o]))
    && Counters(trace)[k].expires == trace[o].at + EXPIRY
    && (forall i :: o <= i < |trace| && KeyOf(trace[i]) == k ==> WindowOf(trace[i]) == WindowOf(trace[o]))
    && (forall i :: 0 <= i < o ==> WindowOf(trace[i]) != WindowOf(trace[o]))
  }

  ghost predicate HasOrigin(trace: seq<Request>, k: Key) {
    exists o :: IsOrigin(trace, k, o)
  }

  ghost predicate KeyOk(trace: seq<Request>, k: Key) {
    if k in Counters(trace) then HasOrigin(trace, k)
    else forall i :: 0 <= i < |trace| ==> KeyOf(trace[i]) != k
  }

  lemma TimelyFront(trace: seq<Request>, d: nat)
    requires trace != [] && Timely(trace, d)
    ensures Timely(Front(trace), d)
  {
  }

  lemma {:induction false} NoneCounted(trace: seq<Request>, w: Window)
    requires forall i :: 0 <= i < |trace| ==> WindowOf(trace[i]) != w
    ensures CountIn(trace, w) == 0
  {
    if trace != [] {
      NoneCounted(Front(trace), w);
    }
  }

  lemma OtherKeyKeepsOrigin(trace: seq<Request>, k: Key, o: int)
    requires trace != [] && KeyOf(Last(trace)) != k && IsOrigin(Front(trace), k, o)
    ensures IsOrigin(trace, k, o)
  {
  }

  /** A request that finds a live counter belongs to the counter's window. */
  lemma LiveIsSameWindow(trace: seq<Request>, d: nat, o: int)
    requires trace != [] && Timely(trace, d) && d <= 1000
    requires IsOrigin(Front(trace), KeyOf(Last(trace)), o) && Last(trace).at <= trace[o].at + EXPIRY
    ensures IsOrigin(trace, KeyOf(Last(trace)), o)
  {
    assert trace[o] == Front(trace)[o];
    if WindowOf(Last(trace)) != WindowOf(trace[o]) {
      SameKeyOtherDayIsFar(trace[o], Last(trace), d);
      assert false;
    }
  }

  /** A request that finds an expired counter is the first of its window. */
  lemma ExpiredIsNewWindow(trace: seq<Request>, d: nat, o: int, i: int)
    requires trace != [] && Timely(trace, d) && d <= 1000
    requires IsOrigin(Front(trace), KeyOf(Last(trace)), o) && Last(trace).at > trace[o].at + EXPIRY
    requires 0 <= i < |trace| - 1
    ensures WindowOf(trace[i]) != WindowOf(Last(trace))
  {
  }

  lemma NewOrigin(trace: seq<Request>)
    requires trace != []
    requires var k := KeyOf(Last(trace));
             k in Counters(Front(trace)) ==> Last(trace).at > Counters(Front(trace))[k].expires
    requires forall i :: 0 <= i < |trace| - 1 ==> WindowOf(trace[i]) != WindowOf(Last(trace))
    ensures IsOrigin(trace, KeyOf(Last(trace)), |trace| - 1)
  {
    NoneCounted(Front(trace), WindowOf(Last(trace)));
  }

  lemma {:induction false} EveryKeyOk(trace: seq<Request>, d: nat, k: Key)
    requires Timely(trace, d) && d <= 1000
    ensures KeyOk(trace, k)
  {
    if trace != [] {
      TimelyFront(trace, d);
      EveryKeyOk(Front(trace), d, k);
      if k != KeyOf(Last(trace)) {
        if k in Counters(Front(trace)) {
          var o :| IsOrigin(Front(trace), k, o);
          OtherKeyKeepsOrigin(trace, k, o);
        } else {
          assert trace == Front(trace) + [Last(trace)];
        }
      } else {
        TouchedKeyOk(trace, d);
      }
    }
  }

  lemma TouchedKeyOk(trace: seq<Request>, d: nat)
    requires trace != [] && Timely(trace, d) && d <= 1000
    requires KeyOk(Front(trace), KeyOf(Last(trace)))
    ensures HasOrigin(trace, KeyOf(Last(trace)))
  {
    var k := KeyOf(Last(trace));
    if k in Counters(Front(trace)) {
      var o :| IsOrigin(Front(trace), k, o);
      assert trace[o] == Front(trace)[o];
      if Last(trace).at <= trace[o].at + EXPIRY {
        LiveIsSameWindow(trace, d, o);
      } else {
        forall i | 0 <= i < |trace| - 1
          ensures WindowOf(trace[i]) != WindowOf(Last(trace))
        {
          ExpiredIsNewWindow(trace, d, o, i);
        }
        NewOrigin(trace);
      }
    } else {
      assert forall i :: 0 <= i < |trace| - 1 ==> trace[i] == Front(trace)[i];
      NewOrigin(trace);
    }
  }

  // ---- The limit ----

  /** The script sees each request's true rank in its window. */
  lemma CountIsTrue(trace: seq<Request>, d: nat)
    requires trace != [] && Timely(trace, d) && d <= 1000
    ensures KeyOf(Last(trace)) in Counters(trace)
    ensures Counters(trace)[KeyOf(Last(trace))].count == CountIn(trace, WindowOf(Last(trace)))
  {
    EveryKeyOk(trace, d, KeyOf(Last(trace)));
    var o :| IsOrigin(trace, KeyOf(Last(trace)), o);
    assert Last(trace) == trace[|trace| - 1];
  }

  function Min(a: nat, b: nat): nat {
    if a <= b then a else b
  }

  /** With skew and delay within 1000 ms, exactly the first `limit` requests of each client in
      each second are granted, although the key recurs every day. */
  lemma {:induction false} GrantsFirstOfWindow(trace: seq<Request>, d: nat, limit: nat, w: Window)
    requires Timely(trace, d) && d <= 1000
    ensures GrantedIn(trace, limit, w) == Min(limit, CountIn(trace, w))
  {
    if trace != [] {
      TimelyFront(trace, d);
      GrantsFirstOfWindow(Front(trace), d, limit, w);
      CountIsTrue(trace, d);
    }
  }

  // ---- The bound is exact ----

  /** `limit` requests at the start of a second, and one more stamped at its end but arriving
      when the counter has just expired. */
  function LateTrace(limit: nat): seq<Request> {
    Repeat(Request([], 0, 0), limit) + [Request([], 999, 2000)]
  }

  ghost predicate AllAre(trace: seq<Request>, r: Request) {
    forall i :: 0 <= i < |trace| ==> trace[i] == r
  }

  lemma TwoMoments(trace: seq<Request>, r: Request, late: Request, d: nat)
    requires AllAre(trace, r) && r.at <= late.at
    requires -(d as int) <= Lag(late) - Lag(r) <= d
    ensures Timely(trace, 0) && Timely(trace + [late], d)
  {
  }

  lemma SharedCounter(trace: seq<Request>, r: Request)
    requires trace != [] && AllAre(trace, r) && Timely(trace, 0)
    ensures KeyOf(r) in Counters(trace) && Counters(trace)[KeyOf(r)].expires == r.at + EXPIRY
  {
  }

  /** A request that finds its counter expired is granted. */
  lemma LateIsGranted(early: seq<Request>, late: Request, limit: nat)
    requires limit > 0 && KeyOf(late) in Counters(early) && Counters(early)[KeyOf(late)].expires < late.at
    ensures GrantedIn(early + [late], limit, WindowOf(late)) == GrantedIn(early, limit, WindowOf(late)) + 1
  {
    var trace := early + [late];
    assert Front(trace) == early && Last(trace) == late;
    assert Counters(trace)[KeyOf(late)] == Counter(1, late.at + EXPIRY);
  }

  /** Requests for one counter, and one more of their window when it has expired. */
  lemma LateMeaning(r: Request, late: Request, limit: nat)
    requires limit > 0 && KeyOf(late) == KeyOf(r) && WindowOf(late) == WindowOf(r)
    requires r.at + EXPIRY < late.at && 0 <= Lag(late) - Lag(r) <= 1001
    ensures Timely(Repeat(r, limit) + [late], 1001)
    ensures GrantedIn(Repeat(r, limit) + [late], limit, WindowOf(r)) == limit + 1
  {
    var early := Repeat(r, limit);
    TwoMoments(early, r, late, 1001);
    GrantsFirstOfWindow(early, 0, limit, WindowOf(r));
    AllCounted(r, limit);
    SharedCounter(early, r);
    LateIsGranted(early, late, limit);
  }

  lemma LateTraceMeaning(limit: nat)
    requires limit > 0
    ensures Timely(LateTrace(limit), 1001)
    ensures GrantedIn(LateTrace(limit), limit, Window([], 0)) == limit + 1
  {
    LateMeaning(Request([], 0, 0), Request([], 999, 2000), limit);
  }

  lemma {:induction false} AllCounted(r: Request, n: nat)
    ensures CountIn(Repeat(r, n), WindowOf(r)) == n
  {
    if n > 0 {
      AllCounted(r, n - 1);
      assert Front(Repeat(r, n)) == Repeat(r, n - 1);
    }
  }

  ghost predicate LimitHolds(d: nat, limit: nat) {
    forall trace, w {:trigger GrantedIn(trace, limit, w)} ::
      Timely(trace, d) ==> GrantedIn(trace, limit, w) <= limit
  }

  lemma MoreSlack(trace: seq<Request>, d: nat, d': nat)
    requires Timely(trace, d) && d <= d'
    ensures Timely(trace, d')
  {
  }

  /** At most `limit` grants per window for every trace, if and only if skew and delay stay
      within 1000 ms: the 1999 ms of the expiry less the 999 ms that a window spans. The
      inclusive deadline of Redis counts here; with an exclusive one it would be 999 ms. */
  lemma LimitHoldsExactly(d: nat, limit: nat)
    requires limit > 0
    ensures LimitHolds(d, limit) <==> d <= 1000
  {
    if d <= 1000 {
      forall trace, w | Timely(trace, d)
        ensures GrantedIn(trace, limit, w) <= limit
      {
        GrantsFirstOfWindow(trace, d, limit, w);
      }
    } else {
      LateTraceMeaning(limit);
      MoreSlack(LateTrace(limit), 1001, d);
      assert GrantedIn(LateTrace(limit), limit, Window([], 0)) > limit;
    }
  }

  // ---- Any one second ----

  /** Grants of one client among the requests stamped in [from, from + 1 s). */
  function GrantedBetween(trace: seq<Request>, limit: nat, client: GoString, from: int): nat {
    if trace == [] then 0
    else
      var r := Last(trace);
      GrantedBetween(Front(trace), limit, client, from)
      + if r.client == client && from <= r.local < from + SECOND && Granted(trace, limit) then 1 else 0
  }

  lemma {:induction false} TwoWindows(trace: seq<Request>, limit: nat, client: GoString, from: int)
    ensures GrantedBetween(trace, limit, client, from)
         <= GrantedIn(trace, limit, Window(client, from / SECOND))
          + GrantedIn(trace, limit, Window(client, from / SECOND + 1))
  {
    if trace != [] {
      TwoWindows(Front(trace), limit, client, from);
    }
  }

  /** A fixed window lets at most twice the limit through of what is stamped in any second,
      aligned or not. */
  lemma AtMostTwiceTheLimit(trace: seq<Request>, d: nat, limit: nat, client: GoString, from: int)
    requires Timely(trace, d) && d <= 1000
    ensures GrantedBetween(trace, limit, client, from) <= 2 * limit
  {
    TwoWindows(trace, limit, client, from);
    GrantsFirstOfWindow(trace, d, limit, Window(client, from / SECOND));
    GrantsFirstOfWindow(trace, d, limit, Window(client, from / SECOND + 1));
  }

  /** Grants of one client among the requests that arrive in [from, from + 1 s). */
  function GrantedArriving(trace: seq<Request>, limit: nat, client: GoString, from: int): nat {
    if trace == [] then 0
    else
      var r := Last(trace);
      GrantedArriving(Front(trace), limit, client, from)
      + if r.client == client && from <= r.at < from + SECOND && Granted(trace, limit) then 1 else 0
  }

  /** All requests that arrive in the second are stamped in `n` windows from `first` on. */
  ghost predicate StampedWithin(trace: seq<Request>, from: int, first: int, n: nat) {
    forall i :: 0 <= i < |trace| && from <= trace[i].at < from + SECOND ==>
      first <= trace[i].local / SECOND < first + n
  }

  lemma StampedFront(trace: seq<Request>, from: int, first: int, n: nat)
    requires trace != [] && StampedWithin(trace, from, first, n)
    ensures StampedWithin(Front(trace), from, first, n)
    ensures var r := Last(trace); from <= r.at < from + SECOND ==> first <= r.local / SECOND < first + n
  {
    assert Last(trace) == trace[|trace| - 1];
  }

  lemma {:induction false} AtMostPerWindow(
      trace: seq<Request>, limit: nat, client: GoString, from: int, first: int)
    ensures StampedWithin(trace, from, first, 3) ==>
      GrantedArriving(trace, limit, client, from)
        <= GrantedIn(trace, limit, Window(client, first)) + GrantedIn(trace, limit, Window(client, first + 1))
         + GrantedIn(trace, limit, Window(client, first + 2))
    ensures StampedWithin(trace, from, first, 2) ==>
      GrantedArriving(trace, limit, client, from)
        <= GrantedIn(trace, limit, Window(client, first)) + GrantedIn(trace, limit, Window(client, first + 1))
  {
    if trace != [] {
      AtMostPerWindow(Front(trace), limit, client, from, first);
      if StampedWithin(trace, from, first, 2) {
        StampedFront(trace, from, first, 2);
      }
      if StampedWithin(trace, from, first, 3) {
        StampedFront(trace, from, first, 3);
      }
    }
  }

  lemma {:induction false} LeastLag(trace: seq<Request>) returns (lag: int)
    requires trace != []
    ensures exists i :: 0 <= i < |trace| && Lag(trace[i]) == lag
    ensures forall i :: 0 <= i < |trace| ==> lag <= Lag(trace[i])
  {
    lag := Lag(Last(trace));
    assert Lag(trace[|trace| - 1]) == lag;
    if |trace| > 1 {
      var front := LeastLag(Front(trace));
      var i :| 0 <= i < |Front(trace)| && Lag(Front(trace)[i]) == front;
      assert Lag(trace[i]) == front;
      assert forall k :: 0 <= k < |trace| - 1 ==> trace[k] == Front(trace)[k];
      if front < lag {
        lag := front;
      }
    }
  }

  /** Stamps spread over a second and the difference of the lags: over two windows if that is at
      most 1 ms, over three if it is at most 1000. */
  lemma StampsSpread(trace: seq<Request>, d: nat, from: int) returns (first: int)
    requires Timely(trace, d) && d <= 1000
    ensures StampedWithin(trace, from, first, 3)
    ensures d <= 1 ==> StampedWithin(trace, from, first, 2)
  {
    first := 0;
    if trace != [] {
      var lag := LeastLag(trace);
      var k :| 0 <= k < |trace| && Lag(trace[k]) == lag;
      var low := from - lag - d;
      first := low / SECOND;
      forall i | 0 <= i < |trace| && from <= trace[i].at < from + SECOND
        ensures first <= trace[i].local / SECOND < first + 3
        ensures d <= 1 ==> trace[i].local / SECOND < first + 2
      {
        assert lag <= Lag(trace[i]) <= lag + d;
        assert low <= trace[i].local <= low + d + 999;
      }
    }
  }

  ghost predicate ArrivalsHold(d: nat, limit: nat, times: nat) {
    forall trace, client, from {:trigger GrantedArriving(trace, limit, client, from)} ::
      Timely(trace, d) ==> GrantedArriving(trace, limit, client, from) <= times * limit
  }

  /** By the clock of Redis, at most three times the limit in any second. */
  lemma AtMostThriceArriving(d: nat, limit: nat)
    requires d <= 1000
    ensures ArrivalsHold(d, limit, 3)
    ensures d <= 1 ==> ArrivalsHold(d, limit, 2)
  {
    forall trace, client, from | Timely(trace, d)
      ensures GrantedArriving(trace, limit, client, from) <= 3 * limit
      ensures d <= 1 ==> GrantedArriving(trace, limit, client, from) <= 2 * limit
    {
      var first := StampsSpread(trace, d, from);
      AtMostPerWindow(trace, limit, client, from, first);
      GrantsFirstOfWindow(trace, d, limit, Window(client, first));
      GrantsFirstOfWindow(trace, d, limit, Window(client, first + 1));
      GrantsFirstOfWindow(trace, d, limit, Window(client, first + 2));
    }
  }

  /** Three windows in one second of arrivals: the end of one, all of the next, the start of a
      third, with lags of 1, 0 and -1 ms. */
  function SpreadTrace(n: nat): seq<Request> {
    Repeat(Request([], 999, 1000), n) + Repeat(Request([], 1500, 1500), n) + Repeat(Request([], 2000, 1999), n)
  }

  lemma {:induction false} CountInBoth(first: seq<Request>, second: seq<Request>, w: Window)
    ensures CountIn(first + second, w) == CountIn(first, w) + CountIn(second, w)
  {
    if second == [] {
      assert first + second == first;
    } else {
      CountInBoth(first, Front(second), w);
      assert Front(first + second) == first + Front(second);
    }
  }

  lemma RepeatedCount(r: Request, n: nat, w: Window)
    ensures CountIn(Repeat(r, n), w) == if w == WindowOf(r) then n else 0
  {
    if w == WindowOf(r) {
      AllCounted(r, n);
    } else {
      NoneCounted(Repeat(r, n), w);
    }
  }

  lemma SpreadCount(n: nat, w: Window)
    requires w == Window([], 0) || w == Window([], 1) || w == Window([], 2)
    ensures CountIn(SpreadTrace(n), w) == n
  {
    var a, b, c := Request([], 999, 1000), Request([], 1500, 1500), Request([], 2000, 1999);
    CountInBoth(Repeat(a, n) + Repeat(b, n), Repeat(c, n), w);
    CountInBoth(Repeat(a, n), Repeat(b, n), w);
    RepeatedCount(a, n, w);
    RepeatedCount(b, n, w);
    RepeatedCount(c, n, w);
  }

  ghost predicate IsSpread(r: Request) {
    r == Request([], 999, 1000) || r == Request([], 1500, 1500) || r == Request([], 2000, 1999)
  }

  lemma SpreadIsTimely(n: nat)
    ensures Timely(SpreadTrace(n), 2)
    ensures forall i :: 0 <= i < 3 * n ==> IsSpread(SpreadTrace(n)[i])
  {
  }

  lemma {:induction false} AllArrive(trace: seq<Request>, limit: nat)
    requires forall i :: 0 <= i < |trace| ==> IsSpread(trace[i])
    ensures GrantedArriving(trace, limit, [], 1000)
         == GrantedIn(trace, limit, Window([], 0)) + GrantedIn(trace, limit, Window([], 1))
          + GrantedIn(trace, limit, Window([], 2))
  {
    if trace != [] {
      AllArrive(Front(trace), limit);
      assert IsSpread(trace[|trace| - 1]);
    }
  }

  lemma SpreadTraceMeaning(limit: nat)
    ensures Timely(SpreadTrace(limit), 2)
    ensures GrantedArriving(SpreadTrace(limit), limit, [], 1000) == 3 * limit
  {
    var trace := SpreadTrace(limit);
    SpreadIsTimely(limit);
    AllArrive(trace, limit);
    SpreadCount(limit, Window([], 0));
    SpreadCount(limit, Window([], 1));
    SpreadCount(limit, Window([], 2));
    GrantsFirstOfWindow(trace, 2, limit, Window([], 0));
    GrantsFirstOfWindow(trace, 2, limit, Window([], 1));
    GrantsFirstOfWindow(trace, 2, limit, Window([], 2));
  }

  /** By the clock of Redis, twice the limit bounds every second of every trace if and only if
      lags differ by at most 1 ms. */
  lemma TwiceArrivingExactly(d: nat, limit: nat)
    requires limit > 0
    ensures ArrivalsHold(d, limit, 2) <==> d <= 1
  {
    if d <= 1 {
      AtMostThriceArriving(d, limit);
    } else {
      SpreadTraceMeaning(limit);
      MoreSlack(SpreadTrace(limit), 2, d);
      assert GrantedArriving(SpreadTrace(limit), limit, [], 1000) > 2 * limit;
    }
  }

  // ---- The limiter object ----

  /** How a call of Redis can go wrong: before the script ran, or after. */
  datatype Fault = NoFault | NotRun | ReplyLost

  /** Redis as one limiter sees it; `trace` is every request that any instance has counted. */
  class Redis {
    const limit: nat
    var counters: map<Key, Counter>
    ghost var trace: seq<Request>

    ghost predicate Valid()
      reads this
    {
      counters == Counters(trace)
    }

    /** NewRedis, joining a server that other instances may have used already. */
    constructor (limit: nat, counters: map<Key, Counter>, ghost trace: seq<Request>)
      requires counters == Counters(trace)
      ensures Valid() && this.limit == limit && this.counters == counters && this.trace == trace
    {
      this.limit, this.counters, this.trace := limit, counters, trace;
    }

    /** The script: INCR, PEXPIRE on the first, compare. */
    method Script(r: Request) returns (ok: bool)
      requires Valid()
      modifies this
      ensures Valid() && trace == old(trace) + [r]
      ensures ok == Granted(trace, limit)
    {
      var k := KeyOf(r);
      if k in counters && counters[k].expires < r.at {
        counters := counters - {k};
      }
      var n := if k in counters then counters[k].count + 1 else 1;
      counters := counters[k := Counter(n, if n == 1 then r.at + EXPIRY else counters[k].expires)];
      ok := n <= limit;
      assert Front(trace + [r]) == trace;
      trace := trace + [r];
    }

    /** Allow: the script's answer, and yes when Redis cannot be asked or does not answer. A
        request whose reply was lost is counted all the same. */
    method Allow(r: Request, fault: Fault) returns (ok: bool)
      requires Valid()
      modifies this
      ensures Valid() && trace == if fault == NotRun then old(trace) else old(trace) + [r]
      ensures ok <==> fault != NoFault || Granted(trace, limit)
    {
      if fault == NotRun {
        return true;
      }
      ok := Script(r);
      if fault == ReplyLost {
        ok := true;
      }
    }
  }
}
