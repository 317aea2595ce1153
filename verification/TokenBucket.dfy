/** internal/ratelimit/ratelimit.go: the in-memory limiter, one token bucket per key, and the
    janitor that evicts idle buckets. Times are in seconds. */
module TokenBucket {
  import opened Words

  /** NewMemory's settings. main only builds a limiter with a positive rate. */
  datatype Config = Config(rps: real, burst: int)

  /** An entry: the limiter's tokens as of its last grant, and when the entry was last used. */
  datatype Bucket = Bucket(tokens: real, refilled: real, last: real)

  type Buckets = map<GoString, Bucket>

  const IDLE: real := 600.0

  // ---- One bucket ----

  function Gain(cfg: Config, elapsed: real): real {
    elapsed * cfg.rps
  }

  /** The tokens of a bucket at a later time: refilled at rps, capped at burst. */
  function Available(cfg: Config, b: Bucket, now: real): real {
    var refilled := b.tokens + Gain(cfg, now - b.refilled);
    if refilled > cfg.burst as real then cfg.burst as real else refilled
  }

  lemma GainAtLeast(cfg: Config, x: real, y: real)
    requires x >= y && cfg.rps > 0.0
    ensures Gain(cfg, x) >= Gain(cfg, y)
    ensures Gain(cfg, 0.0) == 0.0
  {
  }

  lemma AvailableNow(cfg: Config, b: Bucket, now: real)
    requires b.refilled == now && b.tokens <= cfg.burst as real
    ensures Available(cfg, b, now) == b.tokens
  {
  }

  lemma LastDoesNotMatter(cfg: Config, b: Bucket, last: real, now: real)
    ensures Available(cfg, b.(last := last), now) == Available(cfg, b, now)
  {
  }

  /** rate.NewLimiter starts full. */
  function FreshBucket(cfg: Config, now: real): Bucket {
    Bucket(cfg.burst as real, now, now)
  }

  predicate Grants(cfg: Config, b: Bucket, now: real) {
    cfg.burst >= 1 && Available(cfg, b, now) >= 1.0
  }

  /** rate.Limiter.Allow takes one token or leaves the limiter as it was; the entry's last
      use is noted either way. */
  function Used(cfg: Config, b: Bucket, now: real): Bucket {
    if Grants(cfg, b, now) then Bucket(Available(cfg, b, now) - 1.0, now, now) else b.(last := now)
  }

  // ---- All keys ----

  function BucketFor(cfg: Config, buckets: Buckets, key: GoString, now: real): Bucket {
    if key in buckets then buckets[key] else FreshBucket(cfg, now)
  }

  function Swept(buckets: Buckets, now: real): Buckets {
    map k | k in buckets && !(buckets[k].last < now - IDLE) :: buckets[k]
  }

  datatype Op = Allow(key: GoString, at: real) | Sweep(at: real)

  /** The buckets after a trace, with the janitor's sweeps or without. */
  function After(cfg: Config, trace: seq<Op>, evict: bool): Buckets {
    if trace == [] then map[]
    else
      var before, op := After(cfg, Front(trace), evict), Last(trace);
      match op
      case Allow(key, at) => before[key := Used(cfg, BucketFor(cfg, before, key, at), at)]
      case Sweep(at) => if evict then Swept(before, at) else before
  }

  /** The answer to the Allow that ends a trace. */
  predicate Answer(cfg: Config, trace: seq<Op>, evict: bool)
    requires trace != [] && Last(trace).Allow?
  {
    Grants(cfg, BucketFor(cfg, After(cfg, Front(trace), evict), Last(trace).key, Last(trace).at), Last(trace).at)
  }

  ghost predicate Chronological(trace: seq<Op>) {
    forall i, j :: 0 <= i <= j < |trace| ==> trace[i].at <= trace[j].at
  }

  // ---- Eviction is invisible ----

  ghost predicate BucketOk(cfg: Config, b: Bucket, now: real) {
    0.0 <= b.tokens <= cfg.burst as real && b.refilled <= b.last <= now
  }

  /** A key's bucket is the same in both runs, or was evicted after ten idle minutes. */
  ghost predicate Related(cfg: Config, kept: Buckets, swept: Buckets, k: GoString, now: real) {
    && (k in swept ==> k in kept && kept[k] == swept[k])
    && (k in kept ==> BucketOk(cfg, kept[k], now))
    && (k in kept && k !in swept ==> kept[k].last < now - IDLE)
  }

  /** A bucket idle for ten minutes is full again if burst is at most 600 rps. */
  lemma IdleIsFull(cfg: Config, b: Bucket, now: real)
    requires cfg.rps > 0.0 && cfg.burst as real <= IDLE * cfg.rps
    requires BucketOk(cfg, b, now) && b.last <= now - IDLE
    ensures Available(cfg, b, now) == cfg.burst as real
  {
    GainAtLeast(cfg, now - b.refilled, IDLE);
    assert Gain(cfg, IDLE) >= cfg.burst as real;
    assert b.tokens + Gain(cfg, now - b.refilled) >= cfg.burst as real;
  }

  lemma UsedIsOk(cfg: Config, b: Bucket, before: real, now: real)
    requires cfg.rps > 0.0 && BucketOk(cfg, b, before) && before <= now
    ensures BucketOk(cfg, Used(cfg, b, now), now)
  {
  }

  lemma AllowKeepsRelated(cfg: Config, kept: Buckets, swept: Buckets, key: GoString, before: real, now: real)
    requires cfg.rps > 0.0 && 1.0 <= cfg.burst as real <= IDLE * cfg.rps && before <= now
    requires Related(cfg, kept, swept, key, before)
    ensures var b, c := BucketFor(cfg, kept, key, now), BucketFor(cfg, swept, key, now);
            && (Grants(cfg, b, now) <==> Grants(cfg, c, now))
            && Used(cfg, b, now) == Used(cfg, c, now)
            && BucketOk(cfg, Used(cfg, b, now), now)
  {
    var b := BucketFor(cfg, kept, key, now);
    if key in kept {
      UsedIsOk(cfg, b, before, now);
      if key !in swept {
        IdleIsFull(cfg, b, now);
      }
    } else {
      UsedIsOk(cfg, b, now, now);
    }
  }

  lemma LaterStaysRelated(cfg: Config, kept: Buckets, swept: Buckets, k: GoString, before: real, now: real)
    requires Related(cfg, kept, swept, k, before) && before <= now
    ensures Related(cfg, kept, swept, k, now)
    ensures Related(cfg, kept, Swept(swept, now), k, now)
  {
  }

  lemma {:induction false} RunsAreRelated(cfg: Config, trace: seq<Op>, k: GoString, start: real)
    requires cfg.rps > 0.0 && 1.0 <= cfg.burst as real <= IDLE * cfg.rps && Chronological(trace)
    ensures Related(cfg, After(cfg, trace, false), After(cfg, trace, true), k,
              if trace == [] then start else Last(trace).at)
  {
    if trace != [] {
      var op := Last(trace);
      RunsAreRelated(cfg, Front(trace), k, op.at);
      var kept, swept := After(cfg, Front(trace), false), After(cfg, Front(trace), true);
      var before := if Front(trace) == [] then op.at else Last(Front(trace)).at;
      assert before <= op.at;
      LaterStaysRelated(cfg, kept, swept, k, before, op.at);
      if op.Allow? && op.key == k {
        AllowKeepsRelated(cfg, kept, swept, k, before, op.at);
      }
    }
  }

  ghost predicate IsQuestion(trace: seq<Op>) {
    trace != [] && Last(trace).Allow? && Chronological(trace)
  }

  ghost predicate Transparent(cfg: Config) {
    forall trace :: IsQuestion(trace) ==> (Answer(cfg, trace, true) <==> Answer(cfg, trace, false))
  }

  lemma EvictionIsInvisible(cfg: Config, trace: seq<Op>)
    requires cfg.rps > 0.0 && cfg.burst as real <= IDLE * cfg.rps
    requires IsQuestion(trace)
    ensures Answer(cfg, trace, true) <==> Answer(cfg, trace, false)
  {
    if cfg.burst >= 1 {
      var op := Last(trace);
      RunsAreRelated(cfg, Front(trace), op.key, op.at);
      var before := if Front(trace) == [] then op.at else Last(Front(trace)).at;
      assert before <= op.at;
      AllowKeepsRelated(cfg, After(cfg, Front(trace), false), After(cfg, Front(trace), true), op.key, before, op.at);
    }
  }

  // ---- And only then ----

  function Requests(n: nat, at: real): seq<Op> {
    Repeat(Allow([], at), n)
  }

  /** Tokens in the bucket of the one key the traces below use. */
  function Tokens(cfg: Config, trace: seq<Op>, evict: bool, at: real): real {
    Available(cfg, BucketFor(cfg, After(cfg, trace, evict), [], at), at)
  }

  lemma SpendOne(cfg: Config, buckets: Buckets, at: real)
    requires cfg.burst >= 1 && Available(cfg, BucketFor(cfg, buckets, [], at), at) >= 1.0
    ensures var b := BucketFor(cfg, buckets, [], at);
            && Used(cfg, b, at) == Bucket(Available(cfg, b, at) - 1.0, at, at)
            && Available(cfg, Used(cfg, b, at), at) == Available(cfg, b, at) - 1.0
  {
    AvailableNow(cfg, Used(cfg, BucketFor(cfg, buckets, [], at), at), at);
  }

  lemma {:induction false} SpendMany(cfg: Config, trace: seq<Op>, evict: bool, at: real, n: nat)
    requires cfg.burst >= 1 && Tokens(cfg, trace, evict, at) >= n as real
    ensures Tokens(cfg, trace + Requests(n, at), evict, at) == Tokens(cfg, trace, evict, at) - n as real
    ensures n > 0 ==>
      && [] in After(cfg, trace + Requests(n, at), evict)
      && After(cfg, trace + Requests(n, at), evict)[[]] == Bucket(Tokens(cfg, trace, evict, at) - n as real, at, at)
  {
    var longer := trace + Requests(n, at);
    if n == 0 {
      assert longer == trace;
    } else {
      SpendMany(cfg, trace, evict, at, n - 1);
      assert Front(longer) == trace + Requests(n - 1, at) && Last(longer) == Allow([], at);
      SpendOne(cfg, After(cfg, Front(longer), evict), at);
    }
  }

  /** Spend the whole burst at once, let the janitor evict the idle bucket at `at`, and send
      `n` requests more. */
  function Comeback(burst: nat, at: real, n: nat): seq<Op> {
    Requests(burst, 0.0) + [Sweep(at)] + Requests(n, at)
  }

  lemma BurstSpent(cfg: Config, evict: bool)
    requires cfg.burst >= 1
    ensures var buckets := After(cfg, Requests(cfg.burst, 0.0), evict);
            [] in buckets && buckets[[]] == Bucket(0.0, 0.0, 0.0)
  {
    AvailableNow(cfg, FreshBucket(cfg, 0.0), 0.0);
    SpendMany(cfg, [], evict, 0.0, cfg.burst);
    assert [] + Requests(cfg.burst, 0.0) == Requests(cfg.burst, 0.0);
  }

  lemma AfterBurst(cfg: Config, at: real)
    requires cfg.rps > 0.0 && cfg.burst >= 1 && at > IDLE && at * cfg.rps < cfg.burst as real
    ensures var trace := Requests(cfg.burst, 0.0) + [Sweep(at)];
            && Tokens(cfg, trace, true, at) == cfg.burst as real
            && Tokens(cfg, trace, false, at) == at * cfg.rps
  {
    var first := Requests(cfg.burst, 0.0);
    var trace := first + [Sweep(at)];
    assert Front(trace) == first && Last(trace) == Sweep(at);
    BurstSpent(cfg, true);
    BurstSpent(cfg, false);
    assert [] !in After(cfg, trace, true);
    AvailableNow(cfg, FreshBucket(cfg, at), at);
    assert Gain(cfg, at - 0.0) == at * cfg.rps;
  }

  lemma ComebackTimes(burst: nat, at: real, n: nat)
    ensures var trace := Comeback(burst, at, n);
            forall i :: 0 <= i < |trace| ==> trace[i].at == if i < burst then 0.0 else at
  {
  }

  lemma ComebackIsChronological(burst: nat, at: real, n: nat)
    requires at >= 0.0
    ensures Chronological(Comeback(burst, at, n))
  {
    ComebackTimes(burst, at, n);
  }

  lemma ComebackTokens(cfg: Config, at: real, n: nat)
    requires cfg.rps > 0.0 && cfg.burst >= 1 && at > IDLE && n as real <= at * cfg.rps < cfg.burst as real
    ensures Tokens(cfg, Comeback(cfg.burst, at, n), true, at) == cfg.burst as real - n as real
    ensures Tokens(cfg, Comeback(cfg.burst, at, n), false, at) == at * cfg.rps - n as real
  {
    AfterBurst(cfg, at);
    SpendMany(cfg, Requests(cfg.burst, 0.0) + [Sweep(at)], true, at, n);
    SpendMany(cfg, Requests(cfg.burst, 0.0) + [Sweep(at)], false, at, n);
  }

  lemma LastAnswer(cfg: Config, at: real, n: nat, evict: bool)
    requires cfg.burst >= 1
    ensures var trace := Comeback(cfg.burst, at, n + 1);
            && trace != [] && Last(trace) == Allow([], at)
            && (Answer(cfg, trace, evict) <==> Tokens(cfg, Comeback(cfg.burst, at, n), evict, at) >= 1.0)
  {
    assert Front(Comeback(cfg.burst, at, n + 1)) == Comeback(cfg.burst, at, n);
  }

  ghost predicate Differs(cfg: Config, trace: seq<Op>) {
    IsQuestion(trace) && Answer(cfg, trace, true) && !Answer(cfg, trace, false)
  }

  /** The evicted client gets a full bucket, the kept one only what ten minutes refilled. */
  lemma ComebackDiffers(cfg: Config, at: real, n: nat)
    requires cfg.rps > 0.0 && cfg.burst >= n + 1 && at > IDLE
    requires n as real <= at * cfg.rps < cfg.burst as real && at * cfg.rps < n as real + 1.0
    ensures Differs(cfg, Comeback(cfg.burst, at, n + 1))
  {
    ComebackTokens(cfg, at, n);
    LastAnswer(cfg, at, n, true);
    LastAnswer(cfg, at, n, false);
    ComebackIsChronological(cfg.burst, at, n + 1);
  }

  lemma ComebackTime(cfg: Config) returns (at: real)
    requires cfg.rps > 0.0 && cfg.burst as real > IDLE * cfg.rps
    ensures at > IDLE && at * cfg.rps < cfg.burst as real && at * cfg.rps > 0.0
  {
    var full := cfg.burst as real / cfg.rps;
    assert full * cfg.rps == cfg.burst as real;
    assert Gain(cfg, full) == cfg.burst as real > Gain(cfg, IDLE);
    if full <= IDLE {
      GainAtLeast(cfg, IDLE, full);
    }
    at := (IDLE + full) / 2.0;
    assert at * cfg.rps == (IDLE * cfg.rps + cfg.burst as real) / 2.0;
    assert IDLE * cfg.rps > 0.0;
  }

  /** The limiter with the janitor answers every trace like one that never evicts, if and
      only if burst is at most 600 times rps. */
  lemma TransparentExactly(cfg: Config)
    requires cfg.rps > 0.0
    ensures Transparent(cfg) <==> cfg.burst as real <= 600.0 * cfg.rps
  {
    if cfg.burst as real <= IDLE * cfg.rps {
      forall trace | IsQuestion(trace)
        ensures Answer(cfg, trace, true) <==> Answer(cfg, trace, false)
      {
        EvictionIsInvisible(cfg, trace);
      }
    } else {
      var at := ComebackTime(cfg);
      ComebackDiffers(cfg, at, (at * cfg.rps).Floor);
    }
  }

  // ---- The rate ----

  function GrantsTo(cfg: Config, trace: seq<Op>, key: GoString): nat {
    if trace == [] then 0
    else
      GrantsTo(cfg, Front(trace), key)
      + if Last(trace).Allow? && Last(trace).key == key && Answer(cfg, trace, true) then 1 else 0
  }

  /** The settings with the rate that eviction makes of them: a client that keeps coming back
      just after the janitor threw its bucket away gets a burst every ten minutes. */
  function Effective(cfg: Config): Config {
    if cfg.burst as real <= IDLE * cfg.rps then cfg else cfg.(rps := cfg.burst as real / IDLE)
  }

  lemma EffectiveRate(cfg: Config)
    requires cfg.rps > 0.0
    ensures var eff := Effective(cfg);
            eff.rps >= cfg.rps && eff.burst == cfg.burst && cfg.burst as real <= IDLE * eff.rps
  {
  }

  /** What a key can take at `now` at most: its bucket, refilled at the effective rate. */
  function Credit(cfg: Config, buckets: Buckets, key: GoString, now: real): real {
    Available(Effective(cfg), BucketFor(cfg, buckets, key, now), now)
  }

  ghost predicate KeyOk(cfg: Config, buckets: Buckets, key: GoString, now: real) {
    key in buckets ==> BucketOk(cfg, buckets[key], now)
  }

  lemma {:induction false} EveryKeyOk(cfg: Config, trace: seq<Op>, key: GoString, now: real)
    requires cfg.rps > 0.0 && cfg.burst >= 1 && Chronological(trace)
    requires forall i :: 0 <= i < |trace| ==> trace[i].at <= now
    ensures KeyOk(cfg, After(cfg, trace, true), key, now)
  {
    if trace != [] {
      var op := Last(trace);
      EveryKeyOk(cfg, Front(trace), key, op.at);
      var before := After(cfg, Front(trace), true);
      if op.Allow? && op.key == key {
        UsedIsOk(cfg, BucketFor(cfg, before, key, op.at), op.at, op.at);
      }
    }
  }

  lemma CreditAtMostBurst(cfg: Config, buckets: Buckets, key: GoString, now: real)
    ensures Credit(cfg, buckets, key, now) <= cfg.burst as real
  {
  }

  lemma CreditIsNotNegative(cfg: Config, buckets: Buckets, key: GoString, now: real)
    requires cfg.rps > 0.0 && cfg.burst >= 1 && KeyOk(cfg, buckets, key, now)
    ensures Credit(cfg, buckets, key, now) >= 0.0
  {
    EffectiveRate(cfg);
    GainAtLeast(Effective(cfg), now - BucketFor(cfg, buckets, key, now).refilled, 0.0);
  }

  lemma GainAdds(cfg: Config, start: real, middle: real, end: real)
    ensures Gain(cfg, end - start) == Gain(cfg, middle - start) + Gain(cfg, end - middle)
  {
  }

  lemma CreditGrows(cfg: Config, buckets: Buckets, key: GoString, before: real, now: real)
    requires cfg.rps > 0.0 && before <= now
    ensures Credit(cfg, buckets, key, now) <= Credit(cfg, buckets, key, before) + Gain(Effective(cfg), now - before)
  {
    var eff := Effective(cfg);
    EffectiveRate(cfg);
    GainAtLeast(eff, now - before, 0.0);
    if key in buckets {
      GainAdds(eff, buckets[key].refilled, before, now);
    } else {
      AvailableNow(eff, FreshBucket(cfg, now), now);
      AvailableNow(eff, FreshBucket(cfg, before), before);
    }
  }

  lemma FasterHasMore(cfg: Config, eff: Config, b: Bucket, now: real)
    requires eff.rps >= cfg.rps > 0.0 && eff.burst == cfg.burst && b.refilled <= now
    ensures Available(cfg, b, now) <= Available(eff, b, now)
  {
    var elapsed := now - b.refilled;
    assert elapsed * (eff.rps - cfg.rps) >= 0.0;
    assert Gain(eff, elapsed) == Gain(cfg, elapsed) + elapsed * (eff.rps - cfg.rps);
  }

  /** A grant costs a token, a refusal nothing. */
  lemma AllowCosts(cfg: Config, buckets: Buckets, key: GoString, now: real)
    requires cfg.rps > 0.0 && KeyOk(cfg, buckets, key, now)
    ensures var b := BucketFor(cfg, buckets, key, now);
            Credit(cfg, buckets[key := Used(cfg, b, now)], key, now)
              <= Credit(cfg, buckets, key, now) - if Grants(cfg, b, now) then 1.0 else 0.0
  {
    var b := BucketFor(cfg, buckets, key, now);
    EffectiveRate(cfg);
    if Grants(cfg, b, now) {
      FasterHasMore(cfg, Effective(cfg), b, now);
      AvailableNow(Effective(cfg), Used(cfg, b, now), now);
    } else {
      LastDoesNotMatter(Effective(cfg), b, now, now);
    }
  }

  /** An evicted bucket had refilled to the brim at the effective rate: the fresh one that
      replaces it is worth no more. */
  lemma SweepCostsNothing(cfg: Config, buckets: Buckets, key: GoString, now: real)
    requires cfg.rps > 0.0 && KeyOk(cfg, buckets, key, now)
    ensures Credit(cfg, Swept(buckets, now), key, now) == Credit(cfg, buckets, key, now)
  {
    if key in buckets && key !in Swept(buckets, now) {
      EffectiveRate(cfg);
      IdleIsFull(Effective(cfg), buckets[key], now);
      AvailableNow(Effective(cfg), FreshBucket(cfg, now), now);
    }
  }

  lemma OpKeepsSum(cfg: Config, trace: seq<Op>, key: GoString)
    requires trace != [] && cfg.rps > 0.0
    requires KeyOk(cfg, After(cfg, Front(trace), true), key, Last(trace).at)
    ensures GrantsTo(cfg, trace, key) as real + Credit(cfg, After(cfg, trace, true), key, Last(trace).at)
         <= GrantsTo(cfg, Front(trace), key) as real
          + Credit(cfg, After(cfg, Front(trace), true), key, Last(trace).at)
  {
    var before, op := After(cfg, Front(trace), true), Last(trace);
    if op.Sweep? {
      SweepCostsNothing(cfg, before, key, op.at);
    } else if op.key == key {
      AllowCosts(cfg, before, key, op.at);
    }
  }

  lemma ChronologicalFront(trace: seq<Op>)
    requires trace != [] && Chronological(trace)
    ensures Chronological(Front(trace)) && forall i :: 0 <= i < |Front(trace)| ==> Front(trace)[i].at <= Last(trace).at
  {
  }

  /** From any point of a trace on, new grants and credit left never exceed the burst and
      what the time refilled at the effective rate. */
  lemma {:induction false} CreditIsBounded(
      cfg: Config, before: seq<Op>, trace: seq<Op>, key: GoString, start: real, now: real)
    requires cfg.rps > 0.0 && cfg.burst >= 1 && Chronological(before + trace) && start <= now
    requires forall i :: 0 <= i < |trace| ==> start <= trace[i].at <= now
    ensures GrantsTo(cfg, before + trace, key) as real + Credit(cfg, After(cfg, before + trace, true), key, now)
         <= GrantsTo(cfg, before, key) as real + cfg.burst as real + Gain(Effective(cfg), now - start)
  {
    var all, eff := before + trace, Effective(cfg);
    if trace == [] {
      assert all == before;
      CreditAtMostBurst(cfg, After(cfg, before, true), key, now);
      EffectiveRate(cfg);
      GainAtLeast(eff, now - start, 0.0);
    } else {
      var at := Last(trace).at;
      assert Front(all) == before + Front(trace) && Last(all) == Last(trace);
      ChronologicalFront(all);
      assert forall i :: 0 <= i < |Front(trace)| ==> Front(all)[|before| + i] == Front(trace)[i];
      CreditIsBounded(cfg, before, Front(trace), key, start, at);
      EveryKeyOk(cfg, Front(all), key, at);
      OpKeepsSum(cfg, all, key);
      CreditGrows(cfg, After(cfg, all, true), key, at, now);
      GainAdds(eff, start, at, now);
    }
  }

  function Capacity(cfg: Config): real {
    if cfg.burst < 0 then 0.0 else cfg.burst as real
  }

  /** A stretch of a trace, between `start` and `now`, after whatever came before. */
  ghost predicate IsStretch(before: seq<Op>, trace: seq<Op>, start: real, now: real) {
    && Chronological(before + trace) && start <= now
    && (forall i :: 0 <= i < |before| ==> before[i].at <= now)
    && forall i :: 0 <= i < |trace| ==> start <= trace[i].at <= now
  }

  lemma {:induction false} NoBurstNoGrants(cfg: Config, trace: seq<Op>, key: GoString)
    requires cfg.burst < 1
    ensures GrantsTo(cfg, trace, key) == 0
  {
    if trace != [] {
      NoBurstNoGrants(cfg, Front(trace), key);
    }
  }

  /** For any settings, janitor included: in any stretch of any trace a key is granted at most
      its burst plus what the stretch refills at the larger of rps and burst per ten minutes. */
  lemma RateIsEnforced(cfg: Config, before: seq<Op>, trace: seq<Op>, key: GoString, start: real, now: real)
    requires cfg.rps > 0.0 && IsStretch(before, trace, start, now)
    ensures GrantsTo(cfg, before + trace, key) as real - GrantsTo(cfg, before, key) as real
         <= Capacity(cfg) + Gain(Effective(cfg), now - start)
    ensures Effective(cfg).rps == if cfg.burst as real <= 600.0 * cfg.rps then cfg.rps else cfg.burst as real / 600.0
  {
    if cfg.burst < 1 {
      NoBurstNoGrants(cfg, before + trace, key);
      EffectiveRate(cfg);
      GainAtLeast(Effective(cfg), now - start, 0.0);
    } else {
      CreditIsBounded(cfg, before, trace, key, start, now);
      var all := before + trace;
      assert forall i :: 0 <= i < |all| ==> all[i].at <= now;
      EveryKeyOk(cfg, all, key, now);
      CreditIsNotNegative(cfg, After(cfg, all, true), key, now);
    }
  }

  /** The law of a token bucket, for one stretch. */
  ghost predicate WithinRate(cfg: Config, before: seq<Op>, trace: seq<Op>, key: GoString, start: real, now: real) {
    GrantsTo(cfg, before + trace, key) as real - GrantsTo(cfg, before, key) as real
      <= Capacity(cfg) + Gain(cfg, now - start)
  }

  ghost predicate RateHolds(cfg: Config) {
    forall before, trace, key, start, now :: IsStretch(before, trace, start, now)
      ==> WithinRate(cfg, before, trace, key, start, now)
  }

  /** As long as the bucket has tokens, every request takes one. */
  lemma {:induction false} GrantsMany(cfg: Config, trace: seq<Op>, at: real, n: nat)
    requires cfg.burst >= 1 && Tokens(cfg, trace, true, at) >= n as real
    ensures GrantsTo(cfg, trace + Requests(n, at), []) == GrantsTo(cfg, trace, []) + n
  {
    var longer := trace + Requests(n, at);
    if n == 0 {
      assert longer == trace;
    } else {
      GrantsMany(cfg, trace, at, n - 1);
      SpendMany(cfg, trace, true, at, n - 1);
      assert Front(longer) == trace + Requests(n - 1, at) && Last(longer) == Allow([], at);
    }
  }

  /** The whole burst twice. */
  lemma ComebackGrants(cfg: Config, at: real)
    requires cfg.rps > 0.0 && cfg.burst >= 1 && at > IDLE && at * cfg.rps < cfg.burst as real
    ensures GrantsTo(cfg, Comeback(cfg.burst, at, cfg.burst), []) == 2 * cfg.burst
  {
    var first := Requests(cfg.burst, 0.0);
    AvailableNow(cfg, FreshBucket(cfg, 0.0), 0.0);
    GrantsMany(cfg, [], 0.0, cfg.burst);
    assert [] + first == first;
    SweepGrantsNothing(cfg, first, at);
    AfterBurst(cfg, at);
    GrantsMany(cfg, first + [Sweep(at)], at, cfg.burst);
  }

  lemma SweepGrantsNothing(cfg: Config, trace: seq<Op>, at: real)
    ensures GrantsTo(cfg, trace + [Sweep(at)], []) == GrantsTo(cfg, trace, [])
  {
    assert Front(trace + [Sweep(at)]) == trace;
  }

  lemma StretchFromTheStart(trace: seq<Op>, start: real, now: real)
    requires Chronological(trace) && start <= now && forall i :: 0 <= i < |trace| ==> start <= trace[i].at <= now
    ensures IsStretch([], trace, start, now)
  {
    assert [] + trace == trace;
  }

  lemma ComebackIsStretch(burst: nat, at: real, n: nat)
    requires at >= 0.0
    ensures IsStretch([], Comeback(burst, at, n), 0.0, at)
  {
    ComebackIsChronological(burst, at, n);
    ComebackTimes(burst, at, n);
    StretchFromTheStart(Comeback(burst, at, n), 0.0, at);
  }

  lemma TwoBurstsAreTooMany(cfg: Config, trace: seq<Op>, at: real)
    requires cfg.burst >= 1 && at * cfg.rps < cfg.burst as real
    requires GrantsTo(cfg, trace, []) == 2 * cfg.burst
    ensures !WithinRate(cfg, [], trace, [], 0.0, at)
  {
    assert [] + trace == trace;
    assert Gain(cfg, at - 0.0) == at * cfg.rps;
  }

  /** The time between refilled less than the second burst. */
  lemma ComebackBreaksRate(cfg: Config, at: real, trace: seq<Op>)
    requires cfg.rps > 0.0 && cfg.burst >= 1 && at > IDLE && at * cfg.rps < cfg.burst as real
    requires trace == Comeback(cfg.burst, at, cfg.burst)
    ensures IsStretch([], trace, 0.0, at) && !WithinRate(cfg, [], trace, [], 0.0, at)
  {
    ComebackIsStretch(cfg.burst, at, cfg.burst);
    ComebackGrants(cfg, at);
    TwoBurstsAreTooMany(cfg, trace, at);
  }

  /** At most burst plus rps times the elapsed time, for every key and every stretch of every
      trace, if and only if burst is at most 600 times rps. */
  lemma RateHoldsExactly(cfg: Config)
    requires cfg.rps > 0.0
    ensures RateHolds(cfg) <==> cfg.burst as real <= 600.0 * cfg.rps
  {
    if cfg.burst as real <= IDLE * cfg.rps {
      forall before, trace, key, start, now | IsStretch(before, trace, start, now)
        ensures WithinRate(cfg, before, trace, key, start, now)
      {
        RateIsEnforced(cfg, before, trace, key, start, now);
      }
    } else {
      var at := ComebackTime(cfg);
      ComebackBreaksRate(cfg, at, Comeback(cfg.burst, at, cfg.burst));
    }
  }

  // ---- Refusals ----

  /** The same limiter, whenever the entry was last used. */
  predicate SameLimiter(a: Bucket, b: Bucket) {
    a.tokens == b.tokens && a.refilled == b.refilled
  }

  ghost predicate SameLimiters(a: Buckets, b: Buckets) {
    a.Keys == b.Keys && forall k :: k in a ==> SameLimiter(a[k], b[k])
  }

  lemma {:induction false} SameFromThere(cfg: Config, first: seq<Op>, second: seq<Op>, later: seq<Op>)
    requires SameLimiters(After(cfg, first, false), After(cfg, second, false))
    ensures SameLimiters(After(cfg, first + later, false), After(cfg, second + later, false))
  {
    if later == [] {
      assert first + later == first && second + later == second;
    } else {
      SameFromThere(cfg, first, second, Front(later));
      assert Front(first + later) == first + Front(later) && Front(second + later) == second + Front(later);
      assert Last(first + later) == Last(second + later) == Last(later);
    }
  }

  /** A request that is refused had a bucket: a new one is full. */
  lemma RefusedHadBucket(cfg: Config, trace: seq<Op>, key: GoString, at: real)
    requires cfg.burst >= 1 && !Answer(cfg, trace + [Allow(key, at)], false)
    ensures SameLimiters(After(cfg, trace, false), After(cfg, trace + [Allow(key, at)], false))
  {
    assert Front(trace + [Allow(key, at)]) == trace;
    AvailableNow(cfg, FreshBucket(cfg, at), at);
  }

  /** A refused request costs its client nothing: whatever comes later is answered as if it had
      not been sent. */
  lemma RefusalsAreFree(cfg: Config, trace: seq<Op>, key: GoString, at: real, later: seq<Op>)
    requires !Answer(cfg, trace + [Allow(key, at)], false) && later != [] && Last(later).Allow?
    ensures Answer(cfg, trace + [Allow(key, at)] + later, false) <==> Answer(cfg, trace + later, false)
  {
    if cfg.burst >= 1 {
      var refused := trace + [Allow(key, at)];
      RefusedHadBucket(cfg, trace, key, at);
      SameFromThere(cfg, trace, refused, Front(later));
      assert Front(trace + later) == trace + Front(later) && Front(refused + later) == refused + Front(later);
      assert Last(trace + later) == Last(refused + later) == Last(later);
    }
  }

  // ---- Steady clients ----

  /** No request of the key in the last `gap` seconds before `now`. */
  ghost predicate Quiet(trace: seq<Op>, key: GoString, gap: real, now: real) {
    forall i :: 0 <= i < |trace| && trace[i].Allow? && trace[i].key == key ==> trace[i].at <= now - gap
  }

  /** A bucket was last refilled at some request of its key. */
  lemma {:induction false} RefilledByRequest(cfg: Config, trace: seq<Op>, key: GoString, gap: real, now: real)
    requires gap >= 0.0 && Quiet(trace, key, gap, now)
    ensures var buckets := After(cfg, trace, true); key in buckets ==> buckets[key].refilled <= now - gap
  {
    if trace != [] {
      RefilledByRequest(cfg, Front(trace), key, gap, now);
      var op := Last(trace);
      assert op == trace[|trace| - 1];
    }
  }

  lemma WaitedLongEnough(cfg: Config, b: Bucket, now: real)
    requires cfg.rps > 0.0 && cfg.burst >= 1 && b.tokens >= 0.0 && b.refilled <= now - 1.0 / cfg.rps
    ensures Grants(cfg, b, now)
  {
    GainAtLeast(cfg, now - b.refilled, 1.0 / cfg.rps);
    assert Gain(cfg, 1.0 / cfg.rps) == 1.0;
  }

  /** Whatever a client sent before, once it has waited 1/rps seconds its next request is
      granted: one that keeps to its rate is never refused. */
  lemma WaitingIsEnough(cfg: Config, trace: seq<Op>, key: GoString, now: real)
    requires cfg.rps > 0.0 && cfg.burst >= 1 && Chronological(trace + [Allow(key, now)])
    requires Quiet(trace, key, 1.0 / cfg.rps, now)
    ensures Answer(cfg, trace + [Allow(key, now)], true)
  {
    var all := trace + [Allow(key, now)];
    assert Front(all) == trace;
    ChronologicalFront(all);
    EveryKeyOk(cfg, trace, key, now);
    RefilledByRequest(cfg, trace, key, 1.0 / cfg.rps, now);
    if key in After(cfg, trace, true) {
      WaitedLongEnough(cfg, After(cfg, trace, true)[key], now);
    } else {
      AvailableNow(cfg, FreshBucket(cfg, now), now);
    }
  }

  // ---- Keys are independent ----

  function OnlyKey(trace: seq<Op>, key: GoString): seq<Op> {
    if trace == [] then []
    else if Last(trace).Allow? && Last(trace).key != key then OnlyKey(Front(trace), key)
    else OnlyKey(Front(trace), key) + [Last(trace)]
  }

  ghost predicate SameAt(a: Buckets, b: Buckets, key: GoString) {
    (key in a <==> key in b) && (key in a ==> a[key] == b[key])
  }

  /** One client's bucket, evicted or not, is as if the other clients did not exist. */
  lemma {:induction false} KeysAreIndependent(cfg: Config, trace: seq<Op>, evict: bool, key: GoString)
    ensures SameAt(After(cfg, trace, evict), After(cfg, OnlyKey(trace, key), evict), key)
  {
    if trace != [] {
      KeysAreIndependent(cfg, Front(trace), evict, key);
      var op := Last(trace);
      if !(op.Allow? && op.key != key) {
        assert Front(OnlyKey(trace, key)) == OnlyKey(Front(trace), key) && Last(OnlyKey(trace, key)) == op;
      }
    }
  }

  // ---- The limiter object ----

  class Memory {
    const cfg: Config
    var buckets: Buckets

    constructor (rps: real, burst: int)
      ensures cfg == Config(rps, burst) && buckets == map[]
    {
      cfg := Config(rps, burst);
      buckets := map[];
    }

    method AllowKey(key: GoString, now: real) returns (ok: bool)
      modifies this
      ensures ok == Grants(cfg, BucketFor(cfg, old(buckets), key, now), now)
      ensures buckets == old(buckets)[key := Used(cfg, BucketFor(cfg, old(buckets), key, now), now)]
    {
      if key !in buckets {
        buckets := buckets[key := FreshBucket(cfg, now)];
      }
      LastDoesNotMatter(cfg, buckets[key], now, now);
      var b := buckets[key].(last := now);
      var available := Available(cfg, b, now);
      ok := cfg.burst >= 1 && available >= 1.0;
      if ok {
        b := b.(tokens := available - 1.0, refilled := now);
      }
      buckets := buckets[key := b];
    }

    /** One tick of the janitor: every bucket is looked at, in any order. */
    method Janitor(now: real)
      modifies this
      ensures buckets == Swept(old(buckets), now)
      ensures forall k :: k in buckets <==> k in old(buckets) && now - old(buckets)[k].last <= 600.0
      ensures forall k :: k in buckets ==> buckets[k] == old(buckets)[k]
    {
      var keys := buckets.Keys;
      while keys != {}
        invariant keys <= buckets.Keys <= old(buckets.Keys)
        invariant forall k :: k in buckets ==> buckets[k] == old(buckets)[k]
        invariant forall k :: k in old(buckets) && k !in keys ==>
          (k in buckets <==> !(old(buckets)[k].last < now - IDLE))
        decreases keys
      {
        var k :| k in keys;
        if buckets[k].last < now - IDLE {
          buckets := buckets - {k};
        }
        keys := keys - {k};
      }
    }
  }
}
