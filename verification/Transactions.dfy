/** internal/store/store.go under concurrency: any number of InsertBatch transactions taking
    row locks one by one and holding them to commit. Each transaction runs a fixed program;
    how they interleave, when they start and which of them abort is arbitrary. */
module Transactions {
  import opened Words
  import opened HyperLogLog
  import opened Store

  // ---- The order of keys ----

  predicate KeyLess(a: BucketKey, b: BucketKey) {
    Less(a.name, b.name) || (a.name == b.name && a.at < b.at)
  }

  lemma KeyOrder(a: BucketKey, b: BucketKey, c: BucketKey)
    ensures !KeyLess(a, a)
    ensures a == b || KeyLess(a, b) || KeyLess(b, a)
    ensures KeyLess(a, b) && KeyLess(b, c) ==> KeyLess(a, c)
    ensures !(KeyLess(a, b) && KeyLess(b, a))
  {
    LessIrreflexive(a.name);
    LessTotal(a.name, b.name);
    if Less(a.name, b.name) && Less(b.name, c.name) {
      LessTransitive(a.name, b.name, c.name);
    }
    if Less(a.name, b.name) && Less(b.name, a.name) {
      LessTransitive(a.name, b.name, a.name);
    }
  }

  ghost predicate IsLeast(k: BucketKey, s: set<BucketKey>) {
    k in s && forall j :: j in s && j != k ==> KeyLess(k, j)
  }

  lemma {:induction false} LeastExists(s: set<BucketKey>)
    requires s != {}
    ensures exists k :: IsLeast(k, s)
  {
    var a :| a in s;
    var rest := s - {a};
    if rest == {} {
      assert s == {a};
      assert IsLeast(a, s);
    } else {
      LeastExists(rest);
      var b :| IsLeast(b, rest);
      forall j
        ensures KeyLess(a, b) && KeyLess(b, j) ==> KeyLess(a, j)
      {
        KeyOrder(a, b, j);
      }
      KeyOrder(a, b, a);
      assert IsLeast(if KeyLess(a, b) then a else b, s);
    }
  }

  ghost function LeastKey(s: set<BucketKey>): (k: BucketKey)
    requires s != {}
    ensures IsLeast(k, s)
  {
    LeastExists(s);
    var k :| IsLeast(k, s);
    k
  }

  // ---- One transaction ----

  /** Where updateUniques is with the sketch row it works on. */
  datatype Stage = Idle | ToRead(key: BucketKey) | ToWrite(key: BucketKey, regs: Registers)

  /** An open transaction: its batch, the row order its INSERT uses, and its private,
      uncommitted row versions. */
  datatype Txn = Txn(
    batch: seq<Event>,
    rows: seq<Event>,
    next: nat,                            // rows already taken by the INSERT
    inserted: seq<Event>,                 // raw rows it inserted
    rolls: map<BucketKey, nat>,           // rollup rows it wrote
    done: set<BucketKey>,                 // sketch rows it finished
    stage: Stage,
    blobs: map<BucketKey, seq<uint8>>)    // sketch rows it created or wrote

  datatype Op =
    | InsertRow(e: Event)
    | Roll(k: BucketKey)
    | EnsureSketch(k: BucketKey)
    | ReadSketch(k: BucketKey)
    | WriteSketch(k: BucketKey)
    | Finish

  ghost function RollsLeft(x: Txn): set<BucketKey> {
    MinuteKeys(x.inserted) - x.rolls.Keys
  }

  ghost function DaysLeft(x: Txn): set<BucketKey> {
    DayKeys(x.batch) - x.done
  }

  /** The program of InsertBatch: raw rows by id, then rollup rows by key, then for each day
      key create the row if missing, lock and read it, write it back. */
  ghost function Next(x: Txn): Op {
    if x.next < |x.rows| then InsertRow(x.rows[x.next])
    else if RollsLeft(x) != {} then Roll(LeastKey(RollsLeft(x)))
    else if x.stage.ToRead? then ReadSketch(x.stage.key)
    else if x.stage.ToWrite? then WriteSketch(x.stage.key)
    else if DaysLeft(x) != {} then EnsureSketch(LeastKey(DaysLeft(x)))
    else Finish
  }

  function SketchLocks(x: Txn): set<BucketKey> {
    x.blobs.Keys + if x.stage.ToWrite? then {x.stage.key} else {}
  }

  /** Does an open transaction make `op` wait? An insert waits for an uncommitted row with
      the same key, a write or FOR UPDATE for any lock on the row. */
  predicate Conflicts(holder: Txn, op: Op, t: Tables) {
    match op
    case InsertRow(e) => e.id in Ids(holder.inserted)
    case Roll(k) => k in holder.rolls
    case EnsureSketch(k) => k in holder.blobs && k !in t.sketches
    case ReadSketch(k) => k in SketchLocks(holder)
    case WriteSketch(_) => false
    case Finish => false
  }

  /** FOR UPDATE reads the transaction's own version of the row or the committed one. */
  function VisibleBlob(t: Tables, x: Txn, k: BucketKey): seq<uint8> {
    if k in x.blobs then x.blobs[k] else if k in t.sketches then t.sketches[k] else []
  }

  predicate Executable(t: Tables, x: Txn, op: Op) {
    op.ReadSketch? ==> Decode(VisibleBlob(t, x, op.k)).Sketch?
  }

  function Execute(t: Tables, x: Txn, op: Op): Txn
    requires Executable(t, x, op)
  {
    match op
    case InsertRow(e) =>
      if e.id in t.events || HasId(x.inserted, e.id) then x.(next := x.next + 1)
      else x.(next := x.next + 1, inserted := x.inserted + [e])
    case Roll(k) =>
      x.(rolls := x.rolls[k := Count(t.rollups, k) + CountOf(x.inserted, k)])
    case EnsureSketch(k) =>
      if k in t.sketches then x.(stage := ToRead(k))
      else x.(stage := ToRead(k), blobs := x.blobs[k := Encode(EMPTY)])
    case ReadSketch(k) =>
      x.(stage := ToWrite(k, Decode(VisibleBlob(t, x, k)).regs))
    case WriteSketch(k) =>
      if !x.stage.ToWrite? then x
      else x.(stage := Idle, done := x.done + {k},
              blobs := x.blobs[k := Encode(AddAll(x.stage.regs, Users(x.batch, k)))])
    case Finish => x
  }

  // ---- All transactions ----

  /** The committed tables, the open transactions, and the commits so far in commit order. */
  datatype World = World(tables: Tables, txns: map<nat, Txn>, log: seq<Attempt>)

  const START: World := World(EMPTY_TABLES, map[], [])

  datatype Step =
    | Begin(tid: nat, batch: seq<Event>, rows: seq<Event>)
    | Forward(tid: nat)
    | Commit(tid: nat)
    | Abort(tid: nat)

  ghost predicate Blocked(w: World, tid: nat)
    requires tid in w.txns
  {
    exists u :: u in w.txns && u != tid && Conflicts(w.txns[u], Next(w.txns[tid]), w.tables)
  }

  ghost predicate Enabled(w: World, s: Step) {
    match s
    case Begin(tid, batch, rows) => tid !in w.txns && IsOrdering(batch, rows)
    case Forward(tid) =>
      && tid in w.txns
      && Next(w.txns[tid]) != Finish
      && Executable(w.tables, w.txns[tid], Next(w.txns[tid]))
      && !Blocked(w, tid)
    case Commit(tid) => tid in w.txns && Next(w.txns[tid]) == Finish
    case Abort(tid) => tid in w.txns
  }

  function CommittedTables(t: Tables, x: Txn): Tables {
    Tables(Stored(t.events, x.inserted), t.rollups + x.rolls, t.sketches + x.blobs)
  }

  ghost function Take(w: World, s: Step): World
    requires Enabled(w, s)
  {
    match s
    case Begin(tid, batch, rows) =>
      w.(txns := w.txns[tid := Txn(batch, rows, 0, [], map[], {}, Idle, map[])])
    case Forward(tid) =>
      w.(txns := w.txns[tid := Execute(w.tables, w.txns[tid], Next(w.txns[tid]))])
    case Commit(tid) =>
      var x := w.txns[tid];
      World(CommittedTables(w.tables, x), w.txns - {tid}, w.log + [Attempt(x.batch, x.rows, Ok)])
    case Abort(tid) => w.(txns := w.txns - {tid})
  }

  ghost predicate Possible(w: World, steps: seq<Step>)
    decreases |steps|, 0
  {
    steps == [] || (Possible(w, Front(steps)) && Enabled(After(w, Front(steps)), Last(steps)))
  }

  ghost function After(w: World, steps: seq<Step>): World
    requires Possible(w, steps)
    decreases |steps|, 1
  {
    if steps == [] then w else Take(After(w, Front(steps)), Last(steps))
  }

  // ---- The invariant ----

  /** Every key already handled comes before every key still to do. */
  ghost predicate InOrder(done: set<BucketKey>, left: set<BucketKey>) {
    forall a, b :: a in done && b in left ==> KeyLess(a, b)
  }

  ghost predicate RawPart(t: Tables, x: Txn) {
    && IsOrdering(x.batch, x.rows)
    && x.next <= |x.rows|
    && x.inserted == Inserted(t.events, x.rows[..x.next])
  }

  ghost predicate RollPart(t: Tables, x: Txn) {
    && x.rolls.Keys <= MinuteKeys(x.inserted)
    && (x.rolls != map[] ==> x.next == |x.rows|)
    && (forall k :: k in x.rolls ==> x.rolls[k] == Count(t.rollups, k) + CountOf(x.inserted, k))
    && InOrder(x.rolls.Keys, RollsLeft(x))
  }

  /** The row under work is the least one left; its version is fresh or committed. */
  ghost predicate StagePart(t: Tables, x: Txn) {
    x.stage != Idle ==>
      && IsLeast(x.stage.key, DaysLeft(x))
      && (x.stage.key in t.sketches <==> x.stage.key !in x.blobs)
      && (x.stage.key in x.blobs ==> x.blobs[x.stage.key] == Encode(EMPTY))
      && (x.stage.ToWrite? ==> Readable(t.sketches, x.stage.key) && x.stage.regs == Load(t.sketches, x.stage.key))
  }

  ghost predicate SketchPart(t: Tables, x: Txn) {
    && x.done <= DayKeys(x.batch)
    && (x.done != {} || x.stage != Idle ==> x.next == |x.rows| && RollsLeft(x) == {})
    && x.blobs.Keys <= x.done + (if x.stage == Idle then {} else {x.stage.key})
    && (forall k :: k in x.done ==>
          && k in x.blobs && Readable(t.sketches, k)
          && x.blobs[k] == Encode(AddAll(Load(t.sketches, k), Users(x.batch, k))))
    && InOrder(x.done, DaysLeft(x))
    && StagePart(t, x)
  }

  ghost predicate TxnOk(t: Tables, x: Txn) {
    RawPart(t, x) && RollPart(t, x) && SketchPart(t, x)
  }

  /** Two open transactions never hold the same lock. */
  ghost predicate Exclusive(x: Txn, y: Txn) {
    && Ids(x.inserted) !! Ids(y.inserted)
    && x.rolls.Keys !! y.rolls.Keys
    && SketchLocks(x) !! SketchLocks(y)
  }

  ghost predicate Valid(w: World) {
    && WellFormed(w.log)
    && w.tables == Run(w.log)
    && Consistent(w.tables, Committed(w.log))
    && AllOk(w.tables, w.txns)
    && AllExclusive(w.txns)
  }

  // ---- Who waits for whom ----

  lemma InsertedAreOfRows(t: Tables, x: Txn)
    requires RawPart(t, x)
    ensures SetOf(x.inserted) <= SetOf(x.rows)
  {
    InsertedMeaning(t.events, x.rows[..x.next]);
  }

  /** A transaction waits for another only over a row that both batches touch: the same id, the
      same minute, the same day; and to create the row of a day only while there is none. */
  lemma WaitsOnlyForSameRow(t: Tables, x: Txn, y: Txn)
    requires TxnOk(t, y) && Conflicts(y, Next(x), t)
    ensures match Next(x)
            case InsertRow(e) => e.id in Ids(y.rows)
            case Roll(k) => k in MinuteKeys(y.rows)
            case EnsureSketch(k) => k in DayKeys(y.batch) && k !in t.sketches
            case ReadSketch(k) => k in DayKeys(y.batch)
            case _ => false
  {
    InsertedAreOfRows(t, y);
    assert forall e :: e in y.inserted ==> e in SetOf(y.rows);
  }

  // ---- Forward steps keep it ----

  lemma ReadableAlways(w: World, k: BucketKey)
    requires Valid(w)
    ensures Readable(w.tables.sketches, k)
  {
  }

  lemma InsertKeepsTxn(t: Tables, x: Txn)
    requires TxnOk(t, x) && Next(x).InsertRow?
    ensures TxnOk(t, Execute(t, x, Next(x)))
  {
    var x' := Execute(t, x, Next(x));
    InsertKeepsRaw(t, x);
    assert x'.rolls == map[] && x'.done == {} && x'.stage == Idle && x'.blobs.Keys == {};
    assert SketchPart(t, x');
  }

  lemma InsertKeepsRaw(t: Tables, x: Txn)
    requires RawPart(t, x) && Next(x).InsertRow?
    ensures RawPart(t, Execute(t, x, Next(x)))
  {
    assert Front(x.rows[..x.next + 1]) == x.rows[..x.next];
  }

  lemma RollKeepsTxn(t: Tables, x: Txn)
    requires TxnOk(t, x) && Next(x).Roll?
    ensures TxnOk(t, Execute(t, x, Next(x)))
  {
    var k := Next(x).k;
    var x' := Execute(t, x, Next(x));
    assert RollsLeft(x') == RollsLeft(x) - {k};
    forall a, b | a in x'.rolls.Keys && b in RollsLeft(x')
      ensures KeyLess(a, b)
    {
      assert b in RollsLeft(x);
    }
    assert x.done == {} && x.stage == Idle;
  }

  lemma EnsureKeepsSketch(t: Tables, x: Txn)
    requires x.next <= |x.rows| && SketchPart(t, x) && Next(x).EnsureSketch?
    ensures SketchPart(t, Execute(t, x, Next(x)))
  {
    var x' := Execute(t, x, Next(x));
    assert RollsLeft(x') == RollsLeft(x) && DaysLeft(x') == DaysLeft(x);
    assert StagePart(t, x');
  }

  lemma ReadKeepsSketch(t: Tables, x: Txn)
    requires SketchPart(t, x) && Next(x).ReadSketch? && Readable(t.sketches, Next(x).k)
    ensures Executable(t, x, Next(x))
    ensures SketchPart(t, Execute(t, x, Next(x)))
  {
    DecodeOfEncode(EMPTY);
    var x' := Execute(t, x, Next(x));
    assert RollsLeft(x') == RollsLeft(x) && DaysLeft(x') == DaysLeft(x);
    assert StagePart(t, x');
  }

  lemma WriteKeepsTxn(t: Tables, x: Txn)
    requires TxnOk(t, x) && Next(x).WriteSketch?
    ensures TxnOk(t, Execute(t, x, Next(x)))
  {
    var k := Next(x).k;
    var x' := Execute(t, x, Next(x));
    assert DaysLeft(x') == DaysLeft(x) - {k};
    forall a, b | a in x'.done && b in DaysLeft(x')
      ensures KeyLess(a, b)
    {
      assert b in DaysLeft(x);
    }
  }

  lemma ForwardKeepsTxn(w: World, tid: nat)
    requires Valid(w) && tid in w.txns
    ensures Executable(w.tables, w.txns[tid], Next(w.txns[tid]))
    ensures TxnOk(w.tables, Execute(w.tables, w.txns[tid], Next(w.txns[tid])))
  {
    var x := w.txns[tid];
    match Next(x)
    case InsertRow(_) => InsertKeepsTxn(w.tables, x);
    case Roll(_) => RollKeepsTxn(w.tables, x);
    case EnsureSketch(_) => EnsureKeepsSketch(w.tables, x);
    case ReadSketch(k) =>
      ReadableAlways(w, k);
      ReadKeepsSketch(w.tables, x);
    case WriteSketch(_) => WriteKeepsTxn(w.tables, x);
    case Finish =>
  }

  lemma ForwardKeepsIds(t: Tables, x: Txn, y: Txn)
    requires Ids(x.inserted) !! Ids(y.inserted)
    requires Executable(t, x, Next(x)) && !Conflicts(y, Next(x), t)
    ensures Ids(Execute(t, x, Next(x)).inserted) !! Ids(y.inserted)
  {
    var x' := Execute(t, x, Next(x));
    if x'.inserted != x.inserted {
      assert Front(x'.inserted) == x.inserted;
      IdsFront(x'.inserted);
    }
  }

  lemma EnsureTakesFreeRow(t: Tables, x: Txn, y: Txn)
    requires StagePart(t, y) && SketchLocks(x) !! SketchLocks(y)
    requires Next(x).EnsureSketch? && !Conflicts(y, Next(x), t)
    ensures SketchLocks(Execute(t, x, Next(x))) !! SketchLocks(y)
  {
  }

  lemma ForwardKeepsSketchLocks(t: Tables, x: Txn, y: Txn)
    requires StagePart(t, y) && SketchLocks(x) !! SketchLocks(y)
    requires Executable(t, x, Next(x)) && !Conflicts(y, Next(x), t)
    ensures SketchLocks(Execute(t, x, Next(x))) !! SketchLocks(y)
  {
    match Next(x)
    case EnsureSketch(_) => EnsureTakesFreeRow(t, x, y);
    case _ =>
  }

  /** A step that does not conflict with `y` takes no lock that `y` holds. */
  lemma ForwardKeepsExclusive(t: Tables, x: Txn, y: Txn)
    requires SketchPart(t, x) && SketchPart(t, y) && Exclusive(x, y)
    requires Executable(t, x, Next(x)) && !Conflicts(y, Next(x), t)
    ensures Exclusive(Execute(t, x, Next(x)), y)
  {
    ForwardKeepsIds(t, x, y);
    ForwardKeepsSketchLocks(t, x, y);
  }

  ghost predicate AllOk(t: Tables, txns: map<nat, Txn>) {
    forall tid :: tid in txns ==> TxnOk(t, txns[tid])
  }

  ghost predicate AllExclusive(txns: map<nat, Txn>) {
    forall a, b :: a in txns && b in txns && a != b ==> Exclusive(txns[a], txns[b])
  }

  /** Putting in one transaction that is in order and holds nobody's locks. */
  lemma PutKeeps(t: Tables, txns: map<nat, Txn>, tid: nat, x: Txn)
    requires AllOk(t, txns) && AllExclusive(txns) && TxnOk(t, x)
    requires forall u :: u in txns && u != tid ==> Exclusive(x, txns[u])
    ensures AllOk(t, txns[tid := x]) && AllExclusive(txns[tid := x])
  {
  }

  lemma ForwardKeepsValid(w: World, tid: nat)
    requires Valid(w) && Enabled(w, Forward(tid))
    ensures Valid(Take(w, Forward(tid)))
  {
    var x' := Execute(w.tables, w.txns[tid], Next(w.txns[tid]));
    ForwardKeepsTxn(w, tid);
    forall u | u in w.txns && u != tid
      ensures Exclusive(x', w.txns[u])
    {
      assert TxnOk(w.tables, w.txns[u]) && TxnOk(w.tables, w.txns[tid]);
      ForwardKeepsExclusive(w.tables, w.txns[tid], w.txns[u]);
    }
    PutKeeps(w.tables, w.txns, tid, x');
  }

  // ---- Commit ----

  lemma {:induction false} InsertedIsStable(
      events: map<GoString, Event>, events': map<GoString, Event>, rows: seq<Event>)
    requires events.Keys <= events'.Keys
    requires Ids(Inserted(events, rows)) !! events'.Keys
    ensures Inserted(events', rows) == Inserted(events, rows)
  {
    if rows != [] {
      var before := Inserted(events, Front(rows));
      if Inserted(events, rows) != before {
        assert Front(before + [Last(rows)]) == before;
        IdsFront(before + [Last(rows)]);
      }
      InsertedIsStable(events, events', Front(rows));
    }
  }

  lemma RawIsStable(t: Tables, x: Txn, y: Txn)
    requires TxnOk(t, x) && TxnOk(t, y) && Exclusive(x, y)
    ensures RawPart(CommittedTables(t, x), y)
  {
    var rows := y.rows[..y.next];
    StoredKeys(t.events, x.inserted);
    InsertedMeaning(t.events, rows);
    InsertedIsStable(t.events, Stored(t.events, x.inserted), rows);
  }

  lemma RollsAreStable(t: Tables, x: Txn, y: Txn)
    requires RollPart(t, y) && x.rolls.Keys !! y.rolls.Keys
    ensures RollPart(CommittedTables(t, x), y)
  {
  }

  ghost predicate SameRow(t: Tables, t': Tables, k: BucketKey) {
    (k in t.sketches <==> k in t'.sketches) && (k in t.sketches ==> t.sketches[k] == t'.sketches[k])
  }

  lemma StageIsStable(t: Tables, t': Tables, y: Txn)
    requires StagePart(t, y)
    requires y.stage != Idle && y.stage.key in SketchLocks(y) ==> SameRow(t, t', y.stage.key)
    requires y.stage != Idle && y.stage.key in t.sketches ==> y.stage.key in t'.sketches
    ensures StagePart(t', y)
  {
  }

  lemma SketchesAreStable(t: Tables, x: Txn, y: Txn)
    requires SketchPart(t, y) && SketchLocks(x) !! SketchLocks(y)
    ensures SketchPart(CommittedTables(t, x), y)
  {
    var t' := CommittedTables(t, x);
    forall k | k in SketchLocks(y)
      ensures SameRow(t, t', k)
    {
      assert k !in x.blobs;
    }
    StageIsStable(t, t', y);
    forall k | k in y.done
      ensures && k in y.blobs && Readable(t'.sketches, k)
              && y.blobs[k] == Encode(AddAll(Load(t'.sketches, k), Users(y.batch, k)))
    {
      assert SameRow(t, t', k);
    }
  }

  /** What one transaction commits leaves the work of every other open one valid: the
      locks cover everything they read. */
  lemma CommitKeepsOther(t: Tables, x: Txn, y: Txn)
    requires TxnOk(t, x) && TxnOk(t, y) && Exclusive(x, y)
    ensures TxnOk(CommittedTables(t, x), y)
  {
    RawIsStable(t, x, y);
    RollsAreStable(t, x, y);
    SketchesAreStable(t, x, y);
  }

  lemma CommittedRollups(t: Tables, x: Txn)
    requires RollPart(t, x) && RollsLeft(x) == {}
    ensures t.rollups + x.rolls == Rolled(t.rollups, x.inserted)
  {
    assert x.rolls.Keys == MinuteKeys(x.inserted) by {
      assert forall k :: k in MinuteKeys(x.inserted) && k !in x.rolls.Keys ==> k in RollsLeft(x);
    }
    forall k | k in t.rollups && k !in x.rolls
      ensures Rolled(t.rollups, x.inserted)[k] == t.rollups[k]
    {
      CountedKeys(x.inserted, k);
    }
  }

  lemma CommittedSketches(t: Tables, x: Txn)
    requires SketchPart(t, x) && x.stage == Idle && DaysLeft(x) == {}
    ensures forall k :: k in DayKeys(x.batch) ==> Readable(t.sketches, k)
    ensures t.sketches + x.blobs == Folded(t.sketches, x.batch)
  {
    assert forall k :: k in DayKeys(x.batch) && k !in x.done ==> k in DaysLeft(x);
    assert x.done == DayKeys(x.batch);
  }

  /** A finished transaction commits exactly what InsertBatch, run alone on the tables of
      that moment, would have written. */
  lemma CommitIsApply(t: Tables, x: Txn)
    requires TxnOk(t, x) && Next(x) == Finish
    ensures Apply(t, x.batch, x.rows).Applied?
    ensures Apply(t, x.batch, x.rows).tables == CommittedTables(t, x)
  {
    assert x.rows[..x.next] == x.rows;
    CommittedRollups(t, x);
    CommittedSketches(t, x);
  }

  lemma CommitKeepsOthers(t: Tables, txns: map<nat, Txn>, tid: nat)
    requires AllOk(t, txns) && AllExclusive(txns) && tid in txns
    ensures AllOk(CommittedTables(t, txns[tid]), txns - {tid})
  {
    forall u | u in txns && u != tid
      ensures TxnOk(CommittedTables(t, txns[tid]), txns[u])
    {
      CommitKeepsOther(t, txns[tid], txns[u]);
    }
  }

  lemma LogExtends(log: seq<Attempt>, a: Attempt)
    requires WellFormed(log) && IsOrdering(a.batch, a.rows) && a.reply == Ok
    requires Apply(Run(log), a.batch, a.rows).Applied?
    ensures WellFormed(log + [a]) && Run(log + [a]) == Apply(Run(log), a.batch, a.rows).tables
    ensures Consistent(Run(log + [a]), Committed(log + [a]))
  {
    assert Front(log + [a]) == log;
    RunIsConsistent(log + [a]);
  }

  lemma CommitExtendsRun(w: World, tid: nat)
    requires Valid(w) && Enabled(w, Commit(tid))
    ensures var w' := Take(w, Commit(tid));
            WellFormed(w'.log) && w'.tables == Run(w'.log) && Consistent(w'.tables, Committed(w'.log))
  {
    var x := w.txns[tid];
    assert TxnOk(w.tables, x);
    CommitIsApply(w.tables, x);
    LogExtends(w.log, Attempt(x.batch, x.rows, Ok));
  }

  lemma CommitKeepsValid(w: World, tid: nat)
    requires Valid(w) && Enabled(w, Commit(tid))
    ensures Valid(Take(w, Commit(tid)))
  {
    CommitExtendsRun(w, tid);
    CommitKeepsOthers(w.tables, w.txns, tid);
  }

  lemma FreshIsExclusive(batch: seq<Event>, rows: seq<Event>, y: Txn)
    ensures Exclusive(Txn(batch, rows, 0, [], map[], {}, Idle, map[]), y)
  {
  }

  lemma BeginKeepsValid(w: World, tid: nat, batch: seq<Event>, rows: seq<Event>)
    requires Valid(w) && Enabled(w, Begin(tid, batch, rows))
    ensures Valid(Take(w, Begin(tid, batch, rows)))
  {
    var x := Txn(batch, rows, 0, [], map[], {}, Idle, map[]);
    FreshTxnOk(w.tables, batch, rows);
    forall u | u in w.txns && u != tid
      ensures Exclusive(x, w.txns[u])
    {
      FreshIsExclusive(batch, rows, w.txns[u]);
    }
    PutKeeps(w.tables, w.txns, tid, x);
  }

  lemma FreshTxnOk(t: Tables, batch: seq<Event>, rows: seq<Event>)
    requires IsOrdering(batch, rows)
    ensures TxnOk(t, Txn(batch, rows, 0, [], map[], {}, Idle, map[]))
  {
  }

  lemma StepKeepsValid(w: World, s: Step)
    requires Valid(w) && Enabled(w, s)
    ensures Valid(Take(w, s))
  {
    match s
    case Begin(tid, batch, rows) => BeginKeepsValid(w, tid, batch, rows);
    case Forward(tid) => ForwardKeepsValid(w, tid);
    case Commit(tid) => CommitKeepsValid(w, tid);
    case Abort(tid) =>
  }

  /** Serializability, in commit order: after any interleaving of any transactions, with
      any aborts, the committed tables are those of running the committed batches one
      after the other. Hence no sketch or rollup update is ever lost, and the tables are
      consistent with the committed events. */
  lemma {:induction false} Serializable(steps: seq<Step>)
    requires Possible(START, steps)
    ensures Valid(After(START, steps))
    ensures After(START, steps).tables == Run(After(START, steps).log)
    ensures Consistent(After(START, steps).tables, Committed(After(START, steps).log))
  {
    if steps == [] {
      EmptyTablesConsistent();
    } else {
      Serializable(Front(steps));
      StepKeepsValid(After(START, Front(steps)), Last(steps));
    }
  }
}
