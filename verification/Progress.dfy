/** internal/store/store.go: why the ORDER BY clauses and the sorted keys matter. Taking the
    locks in one global order rules out deadlock, and every transaction has a bounded number
    of steps. */
module Progress {
  import opened Words
  import opened Store
  import opened Transactions

  // ---- Positions in the lock order ----

  /** event_id locks come first, then rollup rows, then sketch rows, each by key. */
  datatype Position = Position(phase: nat, key: BucketKey)

  predicate Before(a: Position, b: Position) {
    a.phase < b.phase || (a.phase == b.phase && KeyLess(a.key, b.key))
  }

  ghost function PositionOf(x: Txn): Position {
    match Next(x)
    case InsertRow(e) => Position(0, BucketKey(e.id, 0))
    case Roll(k) => Position(1, k)
    case EnsureSketch(k) => Position(2, k)
    case ReadSketch(k) => Position(2, k)
    case WriteSketch(k) => Position(2, k)
    case Finish => Position(3, BucketKey([], 0))
  }

  lemma BeforeIsOrder(a: Position, b: Position, c: Position)
    ensures !Before(a, a)
    ensures a == b || Before(a, b) || Before(b, a)
    ensures Before(a, b) && Before(b, c) ==> Before(a, c)
    ensures !(Before(a, b) && Before(b, a))
  {
    KeyOrder(a.key, b.key, c.key);
  }

  lemma {:induction false} LastPosition(positions: map<nat, Position>) returns (tid: nat)
    requires positions != map[]
    ensures tid in positions
    ensures forall u :: u in positions ==> !Before(positions[tid], positions[u])
  {
    tid :| tid in positions;
    var a := positions[tid];
    var rest := positions - {tid};
    BeforeIsOrder(a, a, a);
    assert forall u :: u in positions && u != tid ==> u in rest;
    if rest != map[] {
      var other := LastPosition(rest);
      var b := positions[other];
      forall u | u in positions
        ensures !Before(if Before(a, b) then b else a, positions[u])
      {
        BeforeIsOrder(a, b, a);
        BeforeIsOrder(a, positions[u], b);
        BeforeIsOrder(b, positions[u], a);
        assert u != tid ==> !Before(b, rest[u]);
      }
      if Before(a, b) {
        tid := other;
      }
    }
  }

  ghost function Positions(txns: map<nat, Txn>): map<nat, Position> {
    map tid | tid in txns :: PositionOf(txns[tid])
  }

  // ---- Who waits for whom ----

  lemma {:induction false} InsertedBySome(events: map<GoString, Event>, rows: seq<Event>, id: GoString)
    requires id in Ids(Inserted(events, rows))
    ensures exists i :: 0 <= i < |rows| && rows[i].id == id
  {
    InsertedMeaning(events, rows);
    var e :| e in Inserted(events, rows) && e.id == id;
    assert e in rows;
  }

  /** A transaction that holds an id is past it in the id order, or about to meet the same
      id again in its own batch. */
  lemma IdHolderIsAhead(t: Tables, x: Txn, holder: Txn)
    requires TxnOk(t, x) && TxnOk(t, holder)
    requires Next(x).InsertRow? && Conflicts(holder, Next(x), t)
    ensures !Before(PositionOf(holder), PositionOf(x))
    ensures PositionOf(holder) == PositionOf(x) ==> Next(holder).InsertRow? && Next(holder).e.id in Ids(holder.inserted)
  {
    var id := Next(x).e.id;
    InsertedBySome(t.events, holder.rows[..holder.next], id);
    var i :| 0 <= i < holder.next && holder.rows[i].id == id;
    if holder.next < |holder.rows| {
      assert !Less(holder.rows[holder.next].id, holder.rows[i].id);
    }
  }

  lemma RollHolderIsAhead(t: Tables, x: Txn, holder: Txn)
    requires TxnOk(t, x) && TxnOk(t, holder)
    requires Next(x).Roll? && Conflicts(holder, Next(x), t)
    ensures Before(PositionOf(x), PositionOf(holder))
  {
  }

  /** Once it works on sketches, a transaction stands at its least day key left. */
  lemma SketchPosition(t: Tables, x: Txn)
    requires x.next <= |x.rows| && SketchPart(t, x) && (x.done != {} || x.stage != Idle)
    ensures x.stage != Idle ==> PositionOf(x) == Position(2, x.stage.key) && !Next(x).EnsureSketch?
    ensures DaysLeft(x) != {} ==> PositionOf(x).phase == 2 && PositionOf(x).key in DaysLeft(x)
    ensures DaysLeft(x) == {} ==> PositionOf(x).phase == 3
  {
  }

  lemma SketchHolderIsAhead(t: Tables, x: Txn, holder: Txn, k: BucketKey)
    requires TxnOk(t, holder)
    requires PositionOf(x) == Position(2, k) && k in SketchLocks(holder)
    ensures Before(PositionOf(x), PositionOf(holder)) || (holder.stage != Idle && holder.stage.key == k)
    ensures holder.stage != Idle && holder.stage.key == k
      ==> PositionOf(holder) == PositionOf(x) && !Next(holder).EnsureSketch?
  {
    assert holder.done != {} || holder.stage != Idle;
    SketchPosition(t, holder);
    if holder.stage == Idle || holder.stage.key != k {
      assert k in holder.done;
    }
  }

  /** The holder of a lock that `x` waits for is at or after the position of `x`; if at the
      same position, it waits for a lock of its own, so for nobody. */
  lemma HolderIsAhead(w: World, tid: nat, u: nat)
    requires Valid(w) && tid in w.txns && u in w.txns && u != tid
    requires Conflicts(w.txns[u], Next(w.txns[tid]), w.tables)
    ensures !Before(PositionOf(w.txns[u]), PositionOf(w.txns[tid]))
    ensures PositionOf(w.txns[u]) == PositionOf(w.txns[tid]) ==> !Blocked(w, u)
  {
    var x, holder := w.txns[tid], w.txns[u];
    BeforeIsOrder(PositionOf(x), PositionOf(holder), PositionOf(x));
    match Next(x)
    case InsertRow(e) =>
      IdHolderIsAhead(w.tables, x, holder);
    case Roll(_) =>
      RollHolderIsAhead(w.tables, x, holder);
    case EnsureSketch(k) =>
      SketchHolderIsAhead(w.tables, x, holder, k);
    case ReadSketch(k) =>
      SketchHolderIsAhead(w.tables, x, holder, k);
  }

  // ---- No deadlock ----

  lemma UnblockedCanStep(w: World, tid: nat)
    requires Valid(w) && tid in w.txns && !Blocked(w, tid)
    ensures Enabled(w, Forward(tid)) || Enabled(w, Commit(tid))
  {
    ForwardKeepsTxn(w, tid);
  }

  /** In every valid state with an open transaction, some open transaction can go on. */
  lemma SomeoneCanStep(w: World) returns (tid: nat)
    requires Valid(w) && w.txns != map[]
    ensures tid in w.txns && (Enabled(w, Forward(tid)) || Enabled(w, Commit(tid)))
  {
    tid := LastPosition(Positions(w.txns));
    if Blocked(w, tid) {
      var u :| u in w.txns && u != tid && Conflicts(w.txns[u], Next(w.txns[tid]), w.tables);
      HolderIsAhead(w, tid, u);
      BeforeIsOrder(PositionOf(w.txns[u]), PositionOf(w.txns[tid]), PositionOf(w.txns[u]));
      assert !Before(Positions(w.txns)[tid], Positions(w.txns)[u]);
      tid := u;
    }
    UnblockedCanStep(w, tid);
  }

  /** No reachable state is a deadlock. */
  lemma NoDeadlock(steps: seq<Step>)
    requires Possible(START, steps) && After(START, steps).txns != map[]
    ensures exists tid :: tid in After(START, steps).txns
              && (Enabled(After(START, steps), Forward(tid)) || Enabled(After(START, steps), Commit(tid)))
  {
    Serializable(steps);
    var tid := SomeoneCanStep(After(START, steps));
  }

  // ---- Bounded work ----

  ghost function StageWork(x: Txn): nat {
    if x.stage.Idle? then 3 else if x.stage.ToRead? then 2 else 1
  }

  ghost function RowsLeft(x: Txn): nat {
    if x.next <= |x.rows| then |x.rows| - x.next else 0
  }

  function WorkFrom(rows: nat, rolls: nat, days: nat, stage: nat): nat {
    2 * rows + rolls + 3 * days + stage
  }

  /** An upper bound on the steps a transaction still takes, its commit included. */
  ghost function Work(x: Txn): nat {
    WorkFrom(RowsLeft(x), |RollsLeft(x)|, |DaysLeft(x)|, StageWork(x))
  }

  lemma OneFewer<T>(a: set<T>, b: set<T>, x: T)
    requires x in a && b == a - {x}
    ensures |b| == |a| - 1
  {
  }

  lemma {:induction false} SubsetSize<T>(a: set<T>, b: set<T>)
    requires a <= b
    ensures |a| <= |b|
  {
    if a != {} {
      var x :| x in a;
      SubsetSize(a - {x}, b - {x});
    }
  }

  lemma OneMoreRoll(t: Tables, x: Txn)
    requires Next(x).InsertRow?
    ensures |RollsLeft(Execute(t, x, Next(x)))| <= |RollsLeft(x)| + 1
  {
    var e := Next(x).e;
    var x' := Execute(t, x, Next(x));
    assert MinuteKeys(x.inserted + [e]) <= MinuteKeys(x.inserted) + {MinuteKey(e)};
    SubsetSize(RollsLeft(x'), RollsLeft(x) + {MinuteKey(e)});
  }

  lemma InsertMovesOn(t: Tables, x: Txn)
    requires Next(x).InsertRow?
    ensures RowsLeft(Execute(t, x, Next(x))) == RowsLeft(x) - 1
    ensures |DaysLeft(Execute(t, x, Next(x)))| == |DaysLeft(x)|
    ensures StageWork(Execute(t, x, Next(x))) == StageWork(x)
  {
  }

  lemma InsertWorks(t: Tables, x: Txn)
    requires Next(x).InsertRow?
    ensures Work(Execute(t, x, Next(x))) < Work(x)
  {
    InsertMovesOn(t, x);
    OneMoreRoll(t, x);
  }

  lemma RollWorks(t: Tables, x: Txn)
    requires Next(x).Roll?
    ensures Work(Execute(t, x, Next(x))) < Work(x)
  {
    var x' := Execute(t, x, Next(x));
    OneFewer(RollsLeft(x), RollsLeft(x'), Next(x).k);
  }

  lemma WriteWorks(t: Tables, x: Txn)
    requires Next(x).WriteSketch? && x.stage.key in DaysLeft(x)
    ensures Work(Execute(t, x, Next(x))) < Work(x)
  {
    var x' := Execute(t, x, Next(x));
    OneFewer(DaysLeft(x), DaysLeft(x'), Next(x).k);
  }

  lemma StageMovesOn(t: Tables, x: Txn)
    requires Executable(t, x, Next(x)) && (Next(x).EnsureSketch? || Next(x).ReadSketch?)
    ensures var x' := Execute(t, x, Next(x));
            && RollsLeft(x') == RollsLeft(x) && DaysLeft(x') == DaysLeft(x) && RowsLeft(x') == RowsLeft(x)
            && StageWork(x') < StageWork(x)
  {
  }

  lemma StageWorks(t: Tables, x: Txn)
    requires Executable(t, x, Next(x)) && (Next(x).EnsureSketch? || Next(x).ReadSketch?)
    ensures Work(Execute(t, x, Next(x))) < Work(x)
  {
    StageMovesOn(t, x);
  }

  lemma ForwardWorks(t: Tables, x: Txn)
    requires StagePart(t, x) && Executable(t, x, Next(x)) && Next(x) != Finish
    ensures Work(Execute(t, x, Next(x))) < Work(x)
  {
    match Next(x)
    case InsertRow(_) => InsertWorks(t, x);
    case Roll(_) => RollWorks(t, x);
    case EnsureSketch(_) => StageWorks(t, x);
    case ReadSketch(_) => StageWorks(t, x);
    case WriteSketch(_) => WriteWorks(t, x);
  }

  ghost function Sum(m: map<nat, nat>): nat
    decreases |m|
  {
    if m == map[] then 0
    else
      var i :| i in m;
      m[i] + Sum(m - {i})
  }

  lemma {:induction false} SumWithout(m: map<nat, nat>, i: nat)
    requires i in m
    ensures Sum(m) == m[i] + Sum(m - {i})
    decreases |m|
  {
    var first :| first in m && Sum(m) == m[first] + Sum(m - {first});
    if first != i {
      SumWithout(m - {first}, i);
      SumWithout(m - {i}, first);
      assert m - {first} - {i} == m - {i} - {first};
    }
  }

  ghost function Image<T>(f: T -> nat, m: map<nat, T>): map<nat, nat> {
    map i | i in m :: f(m[i])
  }

  ghost function TotalWork(txns: map<nat, Txn>): nat {
    Sum(Image(Work, txns))
  }

  ghost predicate IsBegin(s: Step) {
    s.Begin?
  }

  lemma SumDrops<T>(f: T -> nat, m: map<nat, T>, i: nat, x: T)
    requires i in m && f(x) < f(m[i])
    ensures Sum(Image(f, m[i := x])) < Sum(Image(f, m))
    ensures Sum(Image(f, m - {i})) < Sum(Image(f, m))
  {
    SumWithout(Image(f, m), i);
    SumWithout(Image(f, m[i := x]), i);
    assert Image(f, m - {i}) == Image(f, m) - {i};
    assert Image(f, m[i := x]) - {i} == Image(f, m) - {i};
  }

  lemma SumWithoutDrops<T>(f: T -> nat, m: map<nat, T>, i: nat)
    requires i in m && 0 < f(m[i])
    ensures Sum(Image(f, m - {i})) < Sum(Image(f, m))
  {
    SumWithout(Image(f, m), i);
    assert Image(f, m - {i}) == Image(f, m) - {i};
  }

  lemma SomeWork(x: Txn)
    ensures Work(x) > 0
  {
  }

  /** Every step but a new transaction uses up work. */
  lemma StepWorks(w: World, s: Step)
    requires Valid(w) && Enabled(w, s) && !IsBegin(s)
    ensures TotalWork(Take(w, s).txns) < TotalWork(w.txns)
  {
    var x := w.txns[s.tid];
    assert TxnOk(w.tables, x);
    TxnWorks(w.tables, w.txns, s.tid, Take(w, s).txns, s.Forward?);
  }

  lemma TxnWorks(t: Tables, txns: map<nat, Txn>, tid: nat, txns': map<nat, Txn>, forward: bool)
    requires tid in txns && StagePart(t, txns[tid])
    requires forward ==> && Next(txns[tid]) != Finish && Executable(t, txns[tid], Next(txns[tid]))
                         && txns' == txns[tid := Execute(t, txns[tid], Next(txns[tid]))]
    requires !forward ==> txns' == txns - {tid}
    ensures TotalWork(txns') < TotalWork(txns)
  {
    if forward {
      ForwardWorks(t, txns[tid]);
      SumDrops(Work, txns, tid, Execute(t, txns[tid], Next(txns[tid])));
    } else {
      SomeWork(txns[tid]);
      SumWithoutDrops(Work, txns, tid);
    }
  }

  lemma {:induction false} RunKeepsValid(w: World, steps: seq<Step>)
    requires Valid(w) && Possible(w, steps)
    ensures Valid(After(w, steps))
  {
    if steps != [] {
      RunKeepsValid(w, Front(steps));
      StepKeepsValid(After(w, Front(steps)), Last(steps));
    }
  }

  /** Without new transactions every run ends after at most `TotalWork` steps. */
  lemma {:induction false} RunsAreBounded(w: World, steps: seq<Step>)
    requires Valid(w) && Possible(w, steps)
    requires forall i :: 0 <= i < |steps| ==> !IsBegin(steps[i])
    ensures |steps| + TotalWork(After(w, steps).txns) <= TotalWork(w.txns)
  {
    if steps != [] {
      RunsAreBounded(w, Front(steps));
      RunKeepsValid(w, Front(steps));
      StepWorks(After(w, Front(steps)), Last(steps));
    }
  }

  // ---- Every transaction can commit ----

  lemma {:induction false} PrependStep(w: World, s: Step, steps: seq<Step>)
    requires Enabled(w, s) && Possible(Take(w, s), steps)
    ensures Possible(w, [s] + steps)
    ensures After(w, [s] + steps) == After(Take(w, s), steps)
  {
    var all := [s] + steps;
    if steps == [] {
      assert Front(all) == [];
    } else {
      PrependStep(w, s, Front(steps));
      assert Front(all) == [s] + Front(steps);
    }
  }

  /** A run in which nothing starts and nothing aborts. */
  ghost predicate OnlyCommits(steps: seq<Step>) {
    forall i :: 0 <= i < |steps| ==> steps[i].Forward? || steps[i].Commit?
  }

  lemma CommitsFirst(s: Step, rest: seq<Step>)
    requires (s.Forward? || s.Commit?) && OnlyCommits(rest)
    ensures OnlyCommits([s] + rest)
  {
  }

  lemma GoodStep(w: World) returns (s: Step)
    requires Valid(w) && w.txns != map[]
    ensures Enabled(w, s) && (s.Forward? || s.Commit?)
    ensures Valid(Take(w, s)) && TotalWork(Take(w, s).txns) < TotalWork(w.txns)
    ensures |Take(w, s).log| + |Take(w, s).txns| == |w.log| + |w.txns|
  {
    var tid := SomeoneCanStep(w);
    s := if Enabled(w, Forward(tid)) then Forward(tid) else Commit(tid);
    StepWorks(w, s);
    StepKeepsValid(w, s);
    SameOrOneFewer(w, s);
  }

  /** From any valid state the open transactions can all be brought to commit, with no
      abort and no new transaction. */
  lemma {:induction false} AllCanCommit(w: World) returns (steps: seq<Step>)
    requires Valid(w)
    ensures Possible(w, steps)
    ensures OnlyCommits(steps)
    ensures After(w, steps).txns == map[]
    ensures |After(w, steps).log| == |w.log| + |w.txns|
    decreases TotalWork(w.txns)
  {
    if w.txns == map[] {
      steps := [];
    } else {
      var s := GoodStep(w);
      var rest := AllCanCommit(Take(w, s));
      PrependStep(w, s, rest);
      steps := [s] + rest;
      CommitsFirst(s, rest);
    }
  }

  lemma SameOrOneFewer(w: World, s: Step)
    requires Enabled(w, s) && (s.Forward? || s.Commit?)
    ensures |Take(w, s).log| + |Take(w, s).txns| == |w.log| + |w.txns|
  {
  }
}
