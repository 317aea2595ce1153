/** internal/store/store.go: UniquesToday, from the committed batches to the number shown. */
module Uniques {
  import opened Words
  import opened HyperLogLog
  import opened Store
  import opened Estimator

  datatype Answer = DecodeError | Estimated(n: int)

  /** No row answers 0; a row is decoded and estimated. */
  function UniquesAt(ln: real -> real, t: Tables, k: BucketKey): Answer {
    if k !in t.sketches then Estimated(0)
    else if Decode(t.sketches[k]).BadEncoding? then DecodeError
    else Estimated(Returned(ln, Decode(t.sketches[k]).regs))
  }

  /** `WHERE name = $1 AND day = current_date`. */
  function UniquesToday(ln: real -> real, t: Tables, name: GoString, now: int): Answer {
    UniquesAt(ln, t, BucketKey(name, Truncate(now, DAY)))
  }

  /** The query fails exactly on a row that is not a blob of version 1 and precision 14 with 16384
      registers. */
  lemma UniquesFailExactly(ln: real -> real, t: Tables, k: BucketKey)
    ensures UniquesAt(ln, t, k) == DecodeError <==>
              k in t.sketches && (|t.sketches[k]| != 16386 || t.sketches[k][0] != 1 || t.sketches[k][1] != 14)
  {
  }

  lemma UniquesOfKey(ln: real -> real, attempts: seq<Attempt>, k: BucketKey, users: seq<GoString>)
    requires IsLog(ln) && WellFormed(attempts)
    requires SetOf(users) == UserSet(Committed(attempts), k)
    ensures UniquesAt(ln, Run(attempts), k) == Estimated(Estimate(ln, AddAll(EMPTY, users)))
    ensures RanksBounded(AddAll(EMPTY, users))
  {
    RunIsConsistent(attempts);
    var t, committed := Run(attempts), Committed(attempts);
    EmptySketch();
    AddAllIsSketch(EMPTY, {}, users);
    assert {} + SetOf(users) == UserSet(committed, k);
    LoadMeaning(t, committed, k);
    SketchIsUnique(Load(t.sketches, k), AddAll(EMPTY, users), UserSet(committed, k));
    SketchRanksBounded(AddAll(EMPTY, users), UserSet(committed, k));
    ReturnedIsEstimate(ln, AddAll(EMPTY, users));
    if k !in t.sketches {
      EmptyEstimatesZero(ln);
    }
  }

  /** The list holds exactly the users of the committed events of that name on that day. */
  ghost predicate AreUsersOfDay(users: seq<GoString>, committed: seq<Event>, name: GoString, day: int) {
    forall u :: u in users <==> u != [] && exists e :: e in committed && OnDay(e, name, day) && e.user == u
  }

  lemma SameUsers(users: seq<GoString>, committed: seq<Event>, name: GoString, day: int)
    requires day % 86_400_000_000 == 0 && AreUsersOfDay(users, committed, name, day)
    ensures SetOf(users) == UserSet(committed, BucketKey(name, day))
  {
    var k := BucketKey(name, day);
    forall u
      ensures u in SetOf(users) <==> u in UserSet(committed, k)
    {
      UsersOfDay(committed, name, day, u);
      UserOfKey(committed, k, u);
    }
  }

  /** After any history, at any moment of the day that starts at `day`: the query answers, and its
      answer is that of one fresh sketch fed with the users of the committed events of that name
      on that day, in any order and with any repetitions. Every register is at most 51, so no
      shift leaves 64 bits. */
  lemma UniquesAreOfCommitted(
      ln: real -> real, attempts: seq<Attempt>, name: GoString, now: int, day: int, users: seq<GoString>)
    requires IsLog(ln) && WellFormed(attempts)
    requires day % 86_400_000_000 == 0 && day <= now < day + 86_400_000_000
    requires AreUsersOfDay(users, Committed(attempts), name, day)
    ensures UniquesToday(ln, Run(attempts), name, now) == Estimated(Estimate(ln, AddAll(EMPTY, users)))
    ensures RanksBounded(AddAll(EMPTY, users))
  {
    var e := Event([], name, [], [], now);
    DayKeyIsOnDay(e, name, day);
    assert DayKey(e) == BucketKey(name, Truncate(now, DAY));
    SameUsers(users, Committed(attempts), name, day);
    UniquesOfKey(ln, attempts, BucketKey(name, day), users);
  }

  lemma {:induction false} SumUpdate(regs: seq<uint8>, i: nat, r: uint8)
    requires i < |regs| && regs[i] == 0 && r != 0
    ensures PowerSum(regs[i := r]) == PowerSum(regs) - 1.0 + InversePower(r as nat)
    ensures ZeroCount(regs[i := r]) == ZeroCount(regs) - 1
  {
    var updated := regs[i := r];
    if i == |regs| - 1 {
      assert Front(updated) == Front(regs);
    } else {
      SumUpdate(Front(regs), i, r);
      assert Front(updated) == Front(regs)[i := r];
    }
  }

  /** A lower bound on the logarithm, besides those of IsLog. */
  ghost predicate IsLogFromBelow(ln: real -> real) {
    forall x :: 1.0 <= x ==> 1.0 - 1.0 / x <= ln(x)
  }

  lemma OneEmptyLess(ln: real -> real)
    requires IsLog(ln) && IsLogFromBelow(ln)
    ensures Rounded(Linear(ln, M - 1)) == 1
  {
    var x := MR / 16383.0;
    assert 1.0 / x == 16383.0 / MR;
    assert 1.0 - 1.0 / x <= ln(x) <= x - 1.0;
    assert 1.0 <= MR * ln(x) <= 1.1;
  }

  lemma RawOfOne(regs: Registers)
    requires PowerSum(regs) >= 16383.0 && ZeroCount(regs) == M - 1
    ensures UsesLinear(regs)
  {
    PositiveSum(regs);
    QuotientIsAntitone(ALPHA * MR * MR, 16383.0, PowerSum(regs));
    assert ALPHA <= 0.7213;
  }

  lemma OneRegister(ln: real -> real, empty: Registers, i: nat, r: uint8)
    requires IsLog(ln) && IsLogFromBelow(ln) && i < M && r != 0
    requires PowerSum(empty) == MR && ZeroCount(empty) == M && empty[i] == 0
    ensures Estimate(ln, empty[i := r]) == 1
  {
    SumUpdate(empty, i, r);
    RawOfOne(empty[i := r]);
    OneEmptyLess(ln);
  }

  lemma SketchOfOne(user: GoString)
    ensures Rank(user) != 0 && AddAll(EMPTY, [user]) == EMPTY[Index(user) := Rank(user)]
  {
    RankMeaning(user);
    assert Front([user]) == [];
  }

  /** One user is estimated as one. */
  lemma OneUserCountsOne(ln: real -> real, user: GoString)
    requires IsLog(ln) && IsLogFromBelow(ln)
    ensures Estimate(ln, AddAll(EMPTY, [user])) == 1
  {
    SketchOfOne(user);
    SumOfZeros(EMPTY);
    OneRegister(ln, EMPTY, Index(user), Rank(user));
  }

  lemma BlobOfOne(ln: real -> real, t: Tables, k: BucketKey, user: GoString)
    requires IsLog(ln) && IsLogFromBelow(ln) && k in t.sketches && BlobMeans(t.sketches[k], {user})
    ensures UniquesAt(ln, t, k) == Estimated(1)
  {
    var regs := Decode(t.sketches[k]).regs;
    EmptySketch();
    AddAllIsSketch(EMPTY, {}, [user]);
    assert {} + SetOf([user]) == {user};
    SketchIsUnique(regs, AddAll(EMPTY, [user]), {user});
    SketchRanksBounded(regs, {user});
    ReturnedIsEstimate(ln, regs);
    OneUserCountsOne(ln, user);
  }

  /** The retry after midnight, in numbers: one stored event, and one unique user on each of
      two days. */
  lemma RetryCountsUserTwice(ln: real -> real, e: Event)
    requires IsLog(ln) && IsLogFromBelow(ln) && e.user != []
    ensures var again := e.(ts := e.ts + DAY);
            var t := Run([Attempt([e], [e], Ok), Attempt([again], [again], Ok)]);
            && t.events == map[e.id := e] && DayKey(e) != DayKey(again)
            && UniquesToday(ln, t, e.name, e.ts) == Estimated(1)
            && UniquesToday(ln, t, e.name, again.ts) == Estimated(1)
  {
    var again := e.(ts := e.ts + DAY);
    var t := Run([Attempt([e], [e], Ok), Attempt([again], [again], Ok)]);
    RetryAcrossMidnight(e);
    BlobOfOne(ln, t, DayKey(e), e.user);
    BlobOfOne(ln, t, DayKey(again), e.user);
  }
}
