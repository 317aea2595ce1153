/** internal/store/store.go: the three tables, and one InsertBatch transaction as a function
    from tables to tables. */
module Store {
  import opened Words
  import opened HyperLogLog

  /** One event. `ts` is in microseconds, the resolution of timestamptz. */
  datatype Event = Event(id: GoString, name: GoString, user: GoString, properties: GoString, ts: int)

  /** The key of a rollup row (name, minute) and of a sketch row (name, day). */
  datatype BucketKey = BucketKey(name: GoString, at: int)

  /** events by event_id, event_counts_minute, and event_uniques_day with its raw blobs. */
  datatype Tables = Tables(
    events: map<GoString, Event>, rollups: map<BucketKey, nat>, sketches: map<BucketKey, seq<uint8>>)

  const EMPTY_TABLES: Tables := Tables(map[], map[], map[])

  const MINUTE: int := 60_000_000
  const DAY: int := 86_400_000_000

  function Truncate(ts: int, unit: int): int
    requires unit > 0
  {
    ts - ts % unit
  }

  function MinuteKey(e: Event): BucketKey {
    BucketKey(e.name, Truncate(e.ts, MINUTE))
  }

  function DayKey(e: Event): BucketKey {
    BucketKey(e.name, Truncate(e.ts, DAY))
  }

  /** The minute bucket of an event: its name, and the whole minute that its time lies in. */
  lemma MinuteMeaning(e: Event)
    ensures MinuteKey(e).name == e.name && MinuteKey(e).at % 60_000_000 == 0
    ensures MinuteKey(e).at <= e.ts < MinuteKey(e).at + 60_000_000
  {
    assert MinuteKey(e).at == e.ts / MINUTE * MINUTE;
  }

  /** The day bucket of an event: its name, and the whole UTC day of 1440 minutes. */
  lemma DayMeaning(e: Event)
    ensures DayKey(e).name == e.name && DayKey(e).at % 86_400_000_000 == 0
    ensures DayKey(e).at <= e.ts < DayKey(e).at + 86_400_000_000
    ensures DAY == 1440 * MINUTE
  {
    assert DayKey(e).at == e.ts / DAY * DAY;
  }

  /** The event happened on the day that starts at `day`. */
  predicate OnDay(e: Event, name: GoString, day: int) {
    e.name == name && day <= e.ts < day + 86_400_000_000
  }

  lemma MultiplesApart(q: int, p: int)
    requires q * DAY < (p + 1) * DAY && p * DAY < (q + 1) * DAY
    ensures q == p
  {
  }

  /** Bucket and day agree, for every start of a day. */
  lemma DayKeyIsOnDay(e: Event, name: GoString, day: int)
    requires day % 86_400_000_000 == 0
    ensures DayKey(e) == BucketKey(name, day) <==> OnDay(e, name, day)
  {
    DayMeaning(e);
    if OnDay(e, name, day) {
      assert DayKey(e).at == DayKey(e).at / DAY * DAY && day == day / DAY * DAY;
      MultiplesApart(DayKey(e).at / DAY, day / DAY);
    }
  }

  // ---- insertBatchSQL ----

  /** `ORDER BY event_id`: any arrangement of the batch that is sorted by id. Rows with the
      same id may come in either order. */
  ghost predicate IsOrdering(batch: seq<Event>, rows: seq<Event>) {
    multiset(rows) == multiset(batch) && Sorted(rows)
  }

  ghost predicate Sorted(rows: seq<Event>) {
    forall i, j :: 0 <= i < j < |rows| ==> !Less(rows[j].id, rows[i].id)
  }

  function InsertSorted(rows: seq<Event>, e: Event): seq<Event> {
    if rows != [] && Less(e.id, Last(rows).id) then InsertSorted(Front(rows), e) + [Last(rows)] else rows + [e]
  }

  /** One such arrangement, so that there always is one. */
  function Arrange(batch: seq<Event>): seq<Event> {
    if batch == [] then [] else InsertSorted(Arrange(Front(batch)), Last(batch))
  }

  lemma {:induction false} InsertSortedRows(rows: seq<Event>, e: Event)
    ensures multiset(InsertSorted(rows, e)) == multiset(rows) + multiset{e}
    ensures forall x :: x in InsertSorted(rows, e) ==> x in rows || x == e
  {
    if rows != [] && Less(e.id, Last(rows).id) {
      FrontLast(rows);
      InsertSortedRows(Front(rows), e);
      assert Last(rows) in rows;
    }
  }

  lemma AllAtMostLast(rows: seq<Event>, e: Event, i: nat)
    requires Sorted(rows) && i < |rows| && !Less(e.id, Last(rows).id)
    ensures !Less(e.id, rows[i].id)
  {
    if Less(e.id, rows[i].id) && i < |rows| - 1 {
      LessTotal(rows[i].id, Last(rows).id);
      if Less(rows[i].id, Last(rows).id) {
        LessTransitive(e.id, rows[i].id, Last(rows).id);
      }
    }
  }

  lemma {:induction false} InsertSortedKeepsOrder(rows: seq<Event>, e: Event)
    requires Sorted(rows)
    ensures Sorted(InsertSorted(rows, e))
  {
    if rows != [] && Less(e.id, Last(rows).id) {
      InsertSortedKeepsOrder(Front(rows), e);
      InsertSortedRows(Front(rows), e);
      var front := InsertSorted(Front(rows), e);
      forall i | 0 <= i < |front|
        ensures !Less(Last(rows).id, front[i].id)
      {
        assert front[i] in front;
        if Less(Last(rows).id, e.id) {
          LessTransitive(e.id, Last(rows).id, e.id);
          LessIrreflexive(e.id);
        }
      }
    } else {
      forall i | 0 <= i < |rows|
        ensures !Less(e.id, rows[i].id)
      {
        AllAtMostLast(rows, e, i);
      }
    }
  }

  lemma {:induction false} ArrangeIsOrdering(batch: seq<Event>)
    ensures IsOrdering(batch, Arrange(batch))
  {
    if batch != [] {
      ArrangeIsOrdering(Front(batch));
      InsertSortedKeepsOrder(Arrange(Front(batch)), Last(batch));
      InsertSortedRows(Arrange(Front(batch)), Last(batch));
      FrontLast(batch);
    }
  }

  predicate HasId(rows: seq<Event>, id: GoString) {
    exists e :: e in rows && e.id == id
  }

  /** The rows that `ON CONFLICT (event_id) DO NOTHING` lets through, in order. */
  function Inserted(events: map<GoString, Event>, rows: seq<Event>): seq<Event> {
    if rows == [] then []
    else
      var before := Inserted(events, Front(rows));
      if Last(rows).id in events || HasId(before, Last(rows).id) then before else before + [Last(rows)]
  }

  function Stored(events: map<GoString, Event>, inserted: seq<Event>): map<GoString, Event> {
    if inserted == [] then events else Stored(events, Front(inserted))[Last(inserted).id := Last(inserted)]
  }

  /** `GROUP BY name, minute` over the inserted rows: the count of one group. */
  function CountOf(rows: seq<Event>, k: BucketKey): nat {
    if rows == [] then 0
    else CountOf(Front(rows), k) + if MinuteKey(Last(rows)) == k then 1 else 0
  }

  function MinuteKeys(rows: seq<Event>): set<BucketKey> {
    set e | e in rows :: MinuteKey(e)
  }

  function Count(rollups: map<BucketKey, nat>, k: BucketKey): nat {
    if k in rollups then rollups[k] else 0
  }

  /** `DO UPDATE SET n = n + EXCLUDED.n`. */
  function Rolled(rollups: map<BucketKey, nat>, inserted: seq<Event>): map<BucketKey, nat> {
    map k | k in rollups.Keys + MinuteKeys(inserted) :: Count(rollups, k) + CountOf(inserted, k)
  }

  // ---- updateUniques ----

  predicate Tracked(e: Event, k: BucketKey) {
    e.user != [] && DayKey(e) == k
  }

  /** groups[k]: the user ids of one key, in batch order. */
  function Users(batch: seq<Event>, k: BucketKey): seq<GoString> {
    if batch == [] then []
    else if Tracked(Last(batch), k) then Users(Front(batch), k) + [Last(batch).user]
    else Users(Front(batch), k)
  }

  function DayKeys(batch: seq<Event>): set<BucketKey> {
    set e | e in batch && e.user != [] :: DayKey(e)
  }

  predicate Readable(sketches: map<BucketKey, seq<uint8>>, k: BucketKey) {
    k in sketches ==> Decode(sketches[k]).Sketch?
  }

  /** The sketch that updateUniques reads under the row lock: a missing row was just
      created with the empty sketch. */
  function Load(sketches: map<BucketKey, seq<uint8>>, k: BucketKey): Registers
    requires Readable(sketches, k)
  {
    if k in sketches then Decode(sketches[k]).regs else EMPTY
  }

  function Folded(sketches: map<BucketKey, seq<uint8>>, batch: seq<Event>): map<BucketKey, seq<uint8>>
    requires forall k :: k in DayKeys(batch) ==> Readable(sketches, k)
  {
    map k | k in sketches.Keys + DayKeys(batch) ::
      if k in DayKeys(batch) then Encode(AddAll(Load(sketches, k), Users(batch, k))) else sketches[k]
  }

  // ---- InsertBatch ----

  /** The columns take every row of a batch. `takes` stands for the limits of the schema: no
      NUL byte in a text column, no `\u0000` in the jsonb column, an id short enough for its
      index. One row outside them fails the whole statement. */
  predicate TakesAll(takes: Event -> bool, batch: seq<Event>) {
    forall e :: e in batch ==> takes(e)
  }

  datatype Result = CorruptSketch | Applied(tables: Tables, inserted: nat)

  /** What one transaction does to the tables, and the count it returns. A blob that does
      not decode fails the transaction. The sketches see the whole batch, not only the
      inserted rows. */
  function Apply(t: Tables, batch: seq<Event>, rows: seq<Event>): Result {
    if exists k :: k in DayKeys(batch) && !Readable(t.sketches, k) then CorruptSketch
    else
      var inserted := Inserted(t.events, rows);
      Applied(
        Tables(Stored(t.events, inserted), Rolled(t.rollups, inserted), Folded(t.sketches, batch)),
        |inserted|)
  }

  // ---- The invariant ----

  function RowsOf(events: map<GoString, Event>, k: BucketKey): set<GoString> {
    set id | id in events && MinuteKey(events[id]) == k
  }

  /** The rollup table is an index of the raw table: every count is exact and no row is 0. */
  ghost predicate RollupsAgree(t: Tables) {
    && (forall k :: Count(t.rollups, k) == |RowsOf(t.events, k)|)
    && (forall k :: k in t.rollups ==> t.rollups[k] > 0)
  }

  ghost function UserSet(events: seq<Event>, k: BucketKey): set<GoString> {
    set e | e in events && Tracked(e, k) :: e.user
  }

  ghost predicate BlobMeans(blob: seq<uint8>, users: set<GoString>) {
    Decode(blob).Sketch? && IsSketchOf(Decode(blob).regs, users)
  }

  /** Each stored blob decodes to the sketch of exactly the users committed for its key. */
  ghost predicate SketchesMean(t: Tables, committed: seq<Event>) {
    && t.sketches.Keys == DayKeys(committed)
    && forall k :: k in t.sketches ==> BlobMeans(t.sketches[k], UserSet(committed, k))
  }

  function Ids(events: seq<Event>): set<GoString> {
    set e | e in events :: e.id
  }

  /** Each committed id is stored once, as one of the rows that carried it. */
  ghost predicate EventsMean(t: Tables, committed: seq<Event>) {
    && t.events.Keys == Ids(committed)
    && forall id :: id in t.events ==> t.events[id].id == id && t.events[id] in committed
  }

  ghost predicate Consistent(t: Tables, committed: seq<Event>) {
    EventsMean(t, committed) && RollupsAgree(t) && SketchesMean(t, committed)
  }

  // ---- Inserted rows ----

  ghost predicate Fresh(events: map<GoString, Event>, inserted: seq<Event>) {
    && (forall i :: 0 <= i < |inserted| ==> inserted[i].id !in events)
    && forall i, j :: 0 <= i < j < |inserted| ==> inserted[i].id != inserted[j].id
  }

  lemma IdsFront(rows: seq<Event>)
    requires rows != []
    ensures Ids(rows) == Ids(Front(rows)) + {Last(rows).id}
  {
  }

  /** The inserted rows are rows of the batch with new, distinct ids, and no new id is left out. */
  lemma {:induction false} InsertedMeaning(events: map<GoString, Event>, rows: seq<Event>)
    ensures Fresh(events, Inserted(events, rows))
    ensures forall e :: e in Inserted(events, rows) ==> e in rows
    ensures Ids(Inserted(events, rows)) == Ids(rows) - events.Keys
  {
    if rows != [] {
      InsertedMeaning(events, Front(rows));
      IdsFront(rows);
      var before := Inserted(events, Front(rows));
      assert Ids(before + [Last(rows)]) == Ids(before) + {Last(rows).id};
    }
  }

  lemma FreshFront(events: map<GoString, Event>, inserted: seq<Event>)
    requires inserted != [] && Fresh(events, inserted)
    ensures Fresh(events, Front(inserted))
    ensures Last(inserted).id !in events && Last(inserted).id !in Ids(Front(inserted))
  {
  }

  lemma {:induction false} StoredKeys(events: map<GoString, Event>, inserted: seq<Event>)
    ensures Stored(events, inserted).Keys == events.Keys + Ids(inserted)
  {
    if inserted != [] {
      StoredKeys(events, Front(inserted));
      IdsFront(inserted);
    }
  }

  lemma OneMore<T>(s: set<T>, x: T)
    requires x !in s
    ensures |s + {x}| == |s| + 1
  {
  }

  lemma {:induction false} StoredSize(events: map<GoString, Event>, inserted: seq<Event>)
    requires Fresh(events, inserted)
    ensures |Stored(events, inserted).Keys| == |events.Keys| + |inserted|
  {
    if inserted != [] {
      FreshFront(events, inserted);
      StoredSize(events, Front(inserted));
      StoredKeys(events, Front(inserted));
      OneMore(Stored(events, Front(inserted)).Keys, Last(inserted).id);
      StoredStep(events, inserted);
    }
  }

  lemma StoredStep(events: map<GoString, Event>, inserted: seq<Event>)
    requires inserted != []
    ensures Stored(events, inserted).Keys == Stored(events, Front(inserted)).Keys + {Last(inserted).id}
  {
  }

  ghost predicate Extends(after: map<GoString, Event>, events: map<GoString, Event>, inserted: seq<Event>) {
    && (forall id :: id in events ==> id in after && after[id] == events[id])
    && (forall i :: 0 <= i < |inserted| ==> inserted[i].id in after && after[inserted[i].id] == inserted[i])
  }

  lemma {:induction false} StoredExtends(events: map<GoString, Event>, inserted: seq<Event>)
    requires Fresh(events, inserted)
    ensures Extends(Stored(events, inserted), events, inserted)
  {
    if inserted != [] {
      FreshFront(events, inserted);
      StoredExtends(events, Front(inserted));
    }
  }

  // ---- Rollups ----

  lemma {:induction false} RowsOfStored(events: map<GoString, Event>, inserted: seq<Event>, k: BucketKey)
    requires Fresh(events, inserted)
    ensures |RowsOf(Stored(events, inserted), k)| == |RowsOf(events, k)| + CountOf(inserted, k)
  {
    if inserted != [] {
      FreshFront(events, inserted);
      RowsOfStored(events, Front(inserted), k);
      StoredKeys(events, Front(inserted));
      RowsOfOneMore(Stored(events, Front(inserted)), Last(inserted), k);
    }
  }

  lemma RowsOfOneMore(events: map<GoString, Event>, e: Event, k: BucketKey)
    requires e.id !in events
    ensures |RowsOf(events[e.id := e], k)| == |RowsOf(events, k)| + if MinuteKey(e) == k then 1 else 0
  {
    if MinuteKey(e) == k {
      assert RowsOf(events[e.id := e], k) == RowsOf(events, k) + {e.id};
    } else {
      assert RowsOf(events[e.id := e], k) == RowsOf(events, k);
    }
  }

  lemma {:induction false} CountedKeys(rows: seq<Event>, k: BucketKey)
    ensures CountOf(rows, k) > 0 <==> k in MinuteKeys(rows)
  {
    if rows != [] {
      CountedKeys(Front(rows), k);
      FrontLast(rows);
      assert MinuteKeys(rows) == MinuteKeys(Front(rows)) + {MinuteKey(Last(rows))};
    }
  }

  lemma RolledAgrees(t: Tables, inserted: seq<Event>, t': Tables)
    requires RollupsAgree(t) && Fresh(t.events, inserted)
    requires t'.events == Stored(t.events, inserted) && t'.rollups == Rolled(t.rollups, inserted)
    ensures RollupsAgree(t')
  {
    forall k: BucketKey
      ensures Count(t'.rollups, k) == |RowsOf(t'.events, k)|
      ensures k in t'.rollups ==> t'.rollups[k] > 0
    {
      RowsOfStored(t.events, inserted, k);
      CountedKeys(inserted, k);
    }
  }

  // ---- Sketches ----

  lemma {:induction false} UsersMeaning(batch: seq<Event>, k: BucketKey)
    ensures SetOf(Users(batch, k)) == UserSet(batch, k)
  {
    if batch != [] {
      UsersMeaning(Front(batch), k);
      FrontLast(batch);
      assert UserSet(batch, k)
          == UserSet(Front(batch), k) + if Tracked(Last(batch), k) then {Last(batch).user} else {};
    }
  }

  lemma UserOfKey(batch: seq<Event>, k: BucketKey, u: GoString)
    ensures u in Users(batch, k) <==> exists e :: e in batch && Tracked(e, k) && e.user == u
  {
    UsersMeaning(batch, k);
    assert u in Users(batch, k) <==> u in SetOf(Users(batch, k));
  }

  /** The group of a name and a day: exactly the users of its events on that day. */
  lemma UsersOfDay(batch: seq<Event>, name: GoString, day: int, u: GoString)
    requires day % 86_400_000_000 == 0
    ensures u in Users(batch, BucketKey(name, day))
       <==> u != [] && exists e :: e in batch && OnDay(e, name, day) && e.user == u
  {
    UserOfKey(batch, BucketKey(name, day), u);
    forall e
      ensures DayKey(e) == BucketKey(name, day) <==> OnDay(e, name, day)
    {
      DayKeyIsOnDay(e, name, day);
    }
  }

  lemma UntrackedKey(events: seq<Event>, k: BucketKey)
    requires k !in DayKeys(events)
    ensures UserSet(events, k) == {}
  {
  }

  lemma LoadMeaning(t: Tables, committed: seq<Event>, k: BucketKey)
    requires SketchesMean(t, committed)
    ensures Readable(t.sketches, k)
    ensures IsSketchOf(Load(t.sketches, k), UserSet(committed, k))
  {
  }

  lemma FoldedBlobMeans(t: Tables, committed: seq<Event>, batch: seq<Event>, k: BucketKey)
    requires SketchesMean(t, committed)
    requires k in DayKeys(committed) + DayKeys(batch)
    requires forall j :: j in DayKeys(batch) ==> Readable(t.sketches, j)
    ensures BlobMeans(Folded(t.sketches, batch)[k], UserSet(committed + batch, k))
  {
    assert UserSet(committed + batch, k) == UserSet(committed, k) + UserSet(batch, k);
    if k in DayKeys(batch) {
      LoadMeaning(t, committed, k);
      AddAllIsSketch(Load(t.sketches, k), UserSet(committed, k), Users(batch, k));
      UsersMeaning(batch, k);
      DecodeOfEncode(AddAll(Load(t.sketches, k), Users(batch, k)));
    } else {
      UntrackedKey(batch, k);
      assert UserSet(committed + batch, k) == UserSet(committed, k);
      assert BlobMeans(t.sketches[k], UserSet(committed, k));
    }
  }

  lemma FoldedMeans(t: Tables, committed: seq<Event>, batch: seq<Event>)
    requires SketchesMean(t, committed)
    ensures forall k :: k in DayKeys(batch) ==> Readable(t.sketches, k)
    ensures SketchesMean(t.(sketches := Folded(t.sketches, batch)), committed + batch)
  {
    forall k | k in DayKeys(batch)
      ensures Readable(t.sketches, k)
    {
      LoadMeaning(t, committed, k);
    }
    assert DayKeys(committed + batch) == DayKeys(committed) + DayKeys(batch);
    forall k | k in Folded(t.sketches, batch)
      ensures BlobMeans(Folded(t.sketches, batch)[k], UserSet(committed + batch, k))
    {
      FoldedBlobMeans(t, committed, batch, k);
    }
  }

  // ---- One transaction ----

  lemma SameRowsSameIds(batch: seq<Event>, rows: seq<Event>)
    requires multiset(rows) == multiset(batch)
    ensures Ids(rows) == Ids(batch)
    ensures forall e :: e in rows <==> e in batch
  {
    SameMultisetSameSet(rows, batch);
    assert forall e :: e in rows <==> e in SetOf(rows);
    assert forall e :: e in batch <==> e in SetOf(batch);
  }

  lemma StoredIsFromBatch(events: map<GoString, Event>, rows: seq<Event>, id: GoString)
    requires id in Stored(events, Inserted(events, rows)) && id !in events
    ensures Stored(events, Inserted(events, rows))[id].id == id
    ensures Stored(events, Inserted(events, rows))[id] in rows
  {
  }

  lemma ApplyKeepsEvents(t: Tables, committed: seq<Event>, batch: seq<Event>, rows: seq<Event>, t': Tables)
    requires EventsMean(t, committed) && multiset(rows) == multiset(batch)
    requires t'.events == Stored(t.events, Inserted(t.events, rows))
    ensures EventsMean(t', committed + batch)
  {
    InsertedMeaning(t.events, rows);
    StoredKeys(t.events, Inserted(t.events, rows));
    SameRowsSameIds(batch, rows);
    assert Ids(committed + batch) == Ids(committed) + Ids(batch);
    forall id | id in t'.events
      ensures t'.events[id].id == id && t'.events[id] in committed + batch
    {
      if id in t.events {
        StoredExtends(t.events, Inserted(t.events, rows));
      } else {
        StoredIsFromBatch(t.events, rows, id);
      }
    }
  }

  /** A transaction on consistent tables never fails on a blob, and leaves them consistent
      with one more batch, whatever order the rows with equal ids were taken in. */
  lemma ApplyKeepsConsistent(t: Tables, committed: seq<Event>, batch: seq<Event>, rows: seq<Event>)
    requires Consistent(t, committed) && IsOrdering(batch, rows)
    ensures Apply(t, batch, rows).Applied?
    ensures Consistent(Apply(t, batch, rows).tables, committed + batch)
    ensures |Apply(t, batch, rows).tables.events| == |t.events| + Apply(t, batch, rows).inserted
  {
    var inserted := Inserted(t.events, rows);
    FoldedMeans(t, committed, batch);
    InsertedMeaning(t.events, rows);
    StoredSize(t.events, inserted);
    var t' := Apply(t, batch, rows).tables;
    ApplyKeepsEvents(t, committed, batch, rows, t');
    RolledAgrees(t, inserted, t');
  }

  lemma SizeIsNewIds(events: map<GoString, Event>, rows: seq<Event>)
    ensures |Inserted(events, rows)| == |Ids(rows) - events.Keys|
  {
    var inserted := Inserted(events, rows);
    InsertedMeaning(events, rows);
    StoredSize(events, inserted);
    StoredKeys(events, inserted);
    assert Stored(events, inserted).Keys == events.Keys + (Ids(rows) - events.Keys);
    assert |events.Keys + (Ids(rows) - events.Keys)| == |events.Keys| + |Ids(rows) - events.Keys|;
  }

  lemma InsertIsFirstWins(events: map<GoString, Event>, rows: seq<Event>, id: GoString)
    ensures var after := Stored(events, Inserted(events, rows));
            after.Keys == events.Keys + Ids(rows) && (id in events ==> after[id] == events[id])
  {
    InsertedMeaning(events, rows);
    StoredKeys(events, Inserted(events, rows));
    StoredExtends(events, Inserted(events, rows));
  }

  /** The first row of an id wins for good: a stored row never changes, the ids of the batch
      are all stored, and the count returned is the number of ids that were new. */
  lemma FirstRowWins(t: Tables, batch: seq<Event>, rows: seq<Event>, id: GoString)
    requires IsOrdering(batch, rows) && Apply(t, batch, rows).Applied?
    ensures var after := Apply(t, batch, rows);
            && after.tables.events.Keys == t.events.Keys + Ids(batch)
            && (id in t.events ==> after.tables.events[id] == t.events[id])
            && after.inserted == |Ids(batch) - t.events.Keys|
  {
    SameRowsSameIds(batch, rows);
    InsertIsFirstWins(t.events, rows, id);
    SizeIsNewIds(t.events, rows);
  }

  lemma ApplyGrows(t: Tables, batch: seq<Event>, rows: seq<Event>)
    requires Apply(t, batch, rows).Applied?
    ensures |Apply(t, batch, rows).tables.events| == |t.events| + Apply(t, batch, rows).inserted
  {
    InsertedMeaning(t.events, rows);
    StoredSize(t.events, Inserted(t.events, rows));
  }

  // ---- Every history of InsertBatch calls ----

  /** How a call ended for its caller: `LostReply` is a commit that the server applied but
      whose answer was an error. */
  datatype Reply = Ok | NotApplied | LostReply

  datatype Attempt = Attempt(batch: seq<Event>, rows: seq<Event>, reply: Reply)

  ghost predicate WellFormed(attempts: seq<Attempt>) {
    forall a :: a in attempts ==> IsOrdering(a.batch, a.rows)
  }

  function Run(attempts: seq<Attempt>): Tables {
    if attempts == [] then EMPTY_TABLES
    else Perform(Run(Front(attempts)), Last(attempts))
  }

  function Perform(t: Tables, a: Attempt): Tables {
    if a.reply == NotApplied || Apply(t, a.batch, a.rows).CorruptSketch? then t
    else Apply(t, a.batch, a.rows).tables
  }

  /** The events of every batch that the server applied, in order. */
  function Committed(attempts: seq<Attempt>): seq<Event> {
    if attempts == [] then []
    else Committed(Front(attempts)) + if Last(attempts).reply == NotApplied then [] else Last(attempts).batch
  }

  /** The sum of `inserted` over the calls that the server applied. */
  function TotalInserted(attempts: seq<Attempt>): nat {
    if attempts == [] then 0
    else
      var t, a := Run(Front(attempts)), Last(attempts);
      TotalInserted(Front(attempts))
      + if a.reply == NotApplied || Apply(t, a.batch, a.rows).CorruptSketch? then 0
        else Apply(t, a.batch, a.rows).inserted
  }

  lemma EmptyTablesConsistent()
    ensures Consistent(EMPTY_TABLES, [])
  {
  }

  /** Whatever duplicates, replays, failures, lost replies and tie orders occurred: every
      rollup count is the number of raw rows in its minute, every committed id is stored
      once, every blob is the sketch of its committed users, and the counts returned add
      up to the number of stored events. */
  lemma {:induction false} RunIsConsistent(attempts: seq<Attempt>)
    requires WellFormed(attempts)
    ensures Consistent(Run(attempts), Committed(attempts))
    ensures TotalInserted(attempts) == |Run(attempts).events|
  {
    if attempts == [] {
      EmptyTablesConsistent();
    } else {
      RunIsConsistent(Front(attempts));
      var a := Last(attempts);
      ApplyKeepsConsistent(Run(Front(attempts)), Committed(Front(attempts)), a.batch, a.rows);
      if a.reply == NotApplied {
        assert Committed(attempts) == Committed(Front(attempts));
      }
    }
  }

  /** One more InsertBatch call: ids are only added, and an applied batch has all of its own. */
  lemma AttemptStores(attempts: seq<Attempt>, a: Attempt)
    requires WellFormed(attempts) && IsOrdering(a.batch, a.rows)
    ensures WellFormed(attempts + [a])
    ensures Run(attempts).events.Keys <= Run(attempts + [a]).events.Keys
    ensures a.reply != NotApplied ==> Ids(a.batch) <= Run(attempts + [a]).events.Keys
    ensures Committed(attempts + [a]) == Committed(attempts) + if a.reply == NotApplied then [] else a.batch
  {
    assert Front(attempts + [a]) == attempts;
    RunIsConsistent(attempts);
    RunIsConsistent(attempts + [a]);
    assert Ids(Committed(attempts) + a.batch) == Ids(Committed(attempts)) + Ids(a.batch);
  }

  /** Some attempt that the server applied carried the id. */
  ghost predicate WasApplied(attempts: seq<Attempt>, id: GoString) {
    exists i :: 0 <= i < |attempts| && attempts[i].reply != NotApplied && id in Ids(attempts[i].batch)
  }

  lemma WasAppliedNext(attempts: seq<Attempt>, a: Attempt, id: GoString)
    ensures WasApplied(attempts + [a], id)
       <==> WasApplied(attempts, id) || (a.reply != NotApplied && id in Ids(a.batch))
  {
    var all := attempts + [a];
    if WasApplied(attempts, id) {
      var i :| 0 <= i < |attempts| && attempts[i].reply != NotApplied && id in Ids(attempts[i].batch);
      assert all[i] == attempts[i];
    }
    assert all[|attempts|] == a;
    if WasApplied(all, id) {
      var i :| 0 <= i < |all| && all[i].reply != NotApplied && id in Ids(all[i].batch);
      assert i < |attempts| ==> attempts[i] == all[i];
    }
  }

  lemma {:induction false} CommittedWasApplied(attempts: seq<Attempt>, id: GoString)
    ensures id in Ids(Committed(attempts)) <==> WasApplied(attempts, id)
  {
    if attempts != [] {
      var before, a := Front(attempts), Last(attempts);
      CommittedWasApplied(before, id);
      assert Ids(Committed(before) + a.batch) == Ids(Committed(before)) + Ids(a.batch);
      assert Committed(before) + [] == Committed(before);
      WasAppliedNext(before, a, id);
      assert attempts == before + [a];
    }
  }

  /** After any history an id is stored if and only if an applied attempt carried it. */
  lemma StoredExactly(attempts: seq<Attempt>, id: GoString)
    requires WellFormed(attempts)
    ensures id in Run(attempts).events <==> WasApplied(attempts, id)
  {
    RunIsConsistent(attempts);
    CommittedWasApplied(attempts, id);
  }

  // ---- Replays ----

  lemma {:induction false} NothingNew(events: map<GoString, Event>, rows: seq<Event>)
    requires Ids(rows) <= events.Keys
    ensures Inserted(events, rows) == []
  {
    if rows != [] {
      IdsFront(rows);
      NothingNew(events, Front(rows));
    }
  }

  lemma NothingRolled(rollups: map<BucketKey, nat>)
    ensures Rolled(rollups, []) == rollups
  {
  }

  /** A batch without events changes nothing, whatever the tables. */
  lemma EmptyApply(t: Tables)
    ensures Apply(t, [], []) == Applied(t, 0)
  {
    NothingRolled(t.rollups);
    assert Folded(t.sketches, []) == t.sketches;
  }

  lemma FoldedAbsorbed(t: Tables, committed: seq<Event>, batch: seq<Event>)
    requires SketchesMean(t, committed) && forall e :: e in batch ==> e in committed
    ensures forall k :: k in DayKeys(batch) ==> Readable(t.sketches, k)
    ensures Folded(t.sketches, batch) == t.sketches
  {
    FoldedMeans(t, committed, batch);
    assert DayKeys(committed + batch) == DayKeys(committed);
    forall k | k in Folded(t.sketches, batch)
      ensures k in t.sketches && Folded(t.sketches, batch)[k] == t.sketches[k]
    {
      assert UserSet(committed + batch, k) == UserSet(committed, k);
      FoldedBlobMeans(t, committed, batch, k);
      SameMeaningSameBlob(t.sketches[k], Folded(t.sketches, batch)[k], UserSet(committed, k));
    }
  }

  /** A replayed batch is absorbed: it inserts nothing and no table changes, even when the
      replay breaks ties differently. */
  lemma ReplayIsAbsorbed(t: Tables, committed: seq<Event>, batch: seq<Event>, rows: seq<Event>)
    requires Consistent(t, committed) && IsOrdering(batch, rows)
    requires forall e :: e in batch ==> e in committed
    ensures Apply(t, batch, rows) == Applied(t, 0)
  {
    SameRowsSameIds(batch, rows);
    assert Ids(batch) <= Ids(committed);
    NothingNew(t.events, rows);
    NothingRolled(t.rollups);
    FoldedAbsorbed(t, committed, batch);
  }

  lemma SameMeaningSameBlob(a: seq<uint8>, b: seq<uint8>, users: set<GoString>)
    requires BlobMeans(a, users) && BlobMeans(b, users)
    ensures a == b
  {
    SketchIsUnique(Decode(a).regs, Decode(b).regs, users);
    EncodeOfDecode(a);
    EncodeOfDecode(b);
  }

  // ---- Sketches against the stored rows ----

  ghost function RowUsers(events: map<GoString, Event>, k: BucketKey): set<GoString> {
    set id | id in events && Tracked(events[id], k) :: events[id].user
  }

  /** A stored sketch never misses a stored row, and it is the sketch of the stored rows
      exactly when each committed user is outranked by a user of a stored row of that key. */
  lemma SketchAgainstRows(t: Tables, committed: seq<Event>, k: BucketKey, rowSketch: Registers)
    requires Consistent(t, committed) && k in t.sketches
    requires IsSketchOf(rowSketch, RowUsers(t.events, k))
    ensures Below(rowSketch, Decode(t.sketches[k]).regs)
    ensures rowSketch == Decode(t.sketches[k]).regs
       <==> forall u :: u in UserSet(committed, k) ==> rowSketch[Index(u)] >= Rank(u)
  {
    var regs := Decode(t.sketches[k]).regs;
    assert BlobMeans(t.sketches[k], UserSet(committed, k));
    forall u | u in RowUsers(t.events, k)
      ensures u in UserSet(committed, k)
    {
      var id :| id in t.events && Tracked(t.events[id], k) && t.events[id].user == u;
      assert t.events[id] in committed;
    }
    SketchIsMonotone(rowSketch, regs, RowUsers(t.events, k), UserSet(committed, k));
    if forall u :: u in UserSet(committed, k) ==> rowSketch[Index(u)] >= Rank(u) {
      forall i | 0 <= i < M
        ensures rowSketch[i] == regs[i]
      {
        assert IsRegister(regs[i], i, UserSet(committed, k));
      }
    }
    if rowSketch == regs {
      forall u | u in UserSet(committed, k)
        ensures rowSketch[Index(u)] >= Rank(u)
      {
        assert IsRegister(regs[Index(u)], Index(u), UserSet(committed, k));
      }
    }
  }

  /** When an id determines name, user and day, the sketches are those of the stored rows. */
  lemma SketchIsOfRows(t: Tables, committed: seq<Event>, k: BucketKey)
    requires Consistent(t, committed) && k in t.sketches
    requires forall e, f :: e in committed && f in committed && e.id == f.id
               ==> e.user == f.user && DayKey(e) == DayKey(f)
    ensures BlobMeans(t.sketches[k], RowUsers(t.events, k))
  {
    assert BlobMeans(t.sketches[k], UserSet(committed, k));
    forall u
      ensures u in UserSet(committed, k) <==> u in RowUsers(t.events, k)
    {
      if u in UserSet(committed, k) {
        var e :| e in committed && Tracked(e, k) && e.user == u;
        assert e.id in Ids(committed);
        assert t.events[e.id] in committed;
      }
    }
    assert UserSet(committed, k) == RowUsers(t.events, k);
  }

  // ---- When a resend is absorbed ----

  /** The register of a value is at its rank already: adding it changes nothing. */
  predicate Counted(regs: Registers, value: GoString) {
    regs[Index(value)] >= Rank(value)
  }

  lemma {:induction false} AllCountedAddsNothing(regs: Registers, values: seq<GoString>)
    requires forall v :: v in values ==> Counted(regs, v)
    ensures AddAll(regs, values) == regs
  {
    if values != [] {
      AllCountedAddsNothing(regs, Front(values));
      assert Last(values) in values;
    }
  }

  lemma AddCounts(regs: Registers, value: GoString, v: GoString)
    requires Counted(regs, v) || v == value
    ensures Counted(Add(regs, value), v)
  {
    AddedAt(regs, Index(value), Rank(value), Index(v), Add(regs, value));
  }

  lemma {:induction false} AddAllCounts(regs: Registers, values: seq<GoString>, v: GoString)
    requires Counted(regs, v) || v in values
    ensures Counted(AddAll(regs, values), v)
  {
    if values != [] {
      if v != Last(values) {
        AddAllCounts(regs, Front(values), v);
      }
      AddCounts(AddAll(regs, Front(values)), Last(values), v);
    }
  }

  lemma AddsNothingExactly(regs: Registers, values: seq<GoString>)
    ensures AddAll(regs, values) == regs <==> forall v :: v in values ==> Counted(regs, v)
  {
    if forall v :: v in values ==> Counted(regs, v) {
      AllCountedAddsNothing(regs, values);
    }
    forall v | v in values
      ensures Counted(AddAll(regs, values), v)
    {
      AddAllCounts(regs, values, v);
    }
  }

  /** The sketch row of the event's name and day exists, and counts its user. */
  predicate UserCounted(sketches: map<BucketKey, seq<uint8>>, e: Event) {
    && DayKey(e) in sketches && Decode(sketches[DayKey(e)]).Sketch?
    && Counted(Decode(sketches[DayKey(e)]).regs, e.user)
  }

  predicate UsersCounted(sketches: map<BucketKey, seq<uint8>>, batch: seq<Event>) {
    forall e :: e in batch && e.user != [] ==> UserCounted(sketches, e)
  }

  lemma KeyIsAbsorbed(sketches: map<BucketKey, seq<uint8>>, batch: seq<Event>, k: BucketKey)
    requires k in sketches && Decode(sketches[k]).Sketch? && UsersCounted(sketches, batch)
    ensures Encode(AddAll(Decode(sketches[k]).regs, Users(batch, k))) == sketches[k]
  {
    var regs := Decode(sketches[k]).regs;
    forall u | u in Users(batch, k)
      ensures Counted(regs, u)
    {
      UserOfKey(batch, k, u);
      var e :| e in batch && Tracked(e, k) && e.user == u;
      assert UserCounted(sketches, e);
    }
    AddsNothingExactly(regs, Users(batch, k));
    EncodeOfDecode(sketches[k]);
  }

  lemma AbsorbedIsCounted(sketches: map<BucketKey, seq<uint8>>, batch: seq<Event>, e: Event)
    requires forall k :: k in DayKeys(batch) ==> Readable(sketches, k)
    requires Folded(sketches, batch) == sketches && e in batch && e.user != []
    ensures UserCounted(sketches, e)
  {
    var k := DayKey(e);
    assert k in DayKeys(batch) && k in Folded(sketches, batch).Keys;
    var regs := AddAll(Load(sketches, k), Users(batch, k));
    DecodeOfEncode(regs);
    assert Tracked(e, k);
    UserOfKey(batch, k, e.user);
    AddAllCounts(Load(sketches, k), Users(batch, k), e.user);
  }

  lemma FoldedAbsorbedExactly(sketches: map<BucketKey, seq<uint8>>, batch: seq<Event>)
    requires forall k :: k in DayKeys(batch) ==> Readable(sketches, k)
    ensures Folded(sketches, batch) == sketches <==> UsersCounted(sketches, batch)
  {
    if Folded(sketches, batch) == sketches {
      forall e | e in batch && e.user != []
        ensures UserCounted(sketches, e)
      {
        AbsorbedIsCounted(sketches, batch, e);
      }
    }
    if UsersCounted(sketches, batch) {
      forall k | k in DayKeys(batch)
        ensures k in sketches && Folded(sketches, batch)[k] == sketches[k]
      {
        var e :| e in batch && e.user != [] && DayKey(e) == k;
        assert UserCounted(sketches, e);
        KeyIsAbsorbed(sketches, batch, k);
      }
    }
  }

  /** Sending stored ids again, with whatever name, user and timestamp, changes no table if and
      only if each user is counted already for the name and day of the resend. */
  lemma ResendIsAbsorbedExactly(t: Tables, committed: seq<Event>, batch: seq<Event>, rows: seq<Event>)
    requires Consistent(t, committed) && IsOrdering(batch, rows) && Ids(batch) <= t.events.Keys
    ensures Apply(t, batch, rows) == Applied(t, 0) <==> UsersCounted(t.sketches, batch)
  {
    SameRowsSameIds(batch, rows);
    NothingNew(t.events, rows);
    NothingRolled(t.rollups);
    FoldedMeans(t, committed, batch);
    FoldedAbsorbedExactly(t.sketches, batch);
  }

  // ---- When the sketches stay those of the rows ----

  /** A value of the set lands in the same register with at least this rank. */
  ghost predicate Covered(u: GoString, values: set<GoString>) {
    exists v :: v in values && Index(v) == Index(u) && Rank(v) >= Rank(u)
  }

  lemma CoveredIsCounted(regs: Registers, values: set<GoString>, u: GoString)
    requires IsSketchOf(regs, values)
    ensures Covered(u, values) <==> Counted(regs, u)
  {
    assert IsRegister(regs[Index(u)], Index(u), values);
    RankMeaning(u);
  }

  lemma CoveredRegister(r: uint8, i: nat, all: set<GoString>, some: set<GoString>, u: GoString)
    requires IsRegister(r, i, all) && some <= all
    requires r != 0 ==> Index(u) == i && Rank(u) == r && Covered(u, some)
    ensures IsRegister(r, i, some)
  {
    if r != 0 {
      var v :| v in some && Index(v) == i && Rank(v) >= r;
      assert v in all;
    }
  }

  /** A sketch of a set is one of a smaller set as well if and only if that covers it. */
  lemma SketchOfFewer(regs: Registers, all: set<GoString>, some: set<GoString>)
    requires IsSketchOf(regs, all) && some <= all
    ensures IsSketchOf(regs, some) <==> forall u :: u in all ==> Covered(u, some)
  {
    if IsSketchOf(regs, some) {
      forall u | u in all
        ensures Covered(u, some)
      {
        assert IsRegister(regs[Index(u)], Index(u), all);
        CoveredIsCounted(regs, some, u);
      }
    }
    if forall u :: u in all ==> Covered(u, some) {
      forall i | 0 <= i < M
        ensures IsRegister(regs[i], i, some)
      {
        assert IsRegister(regs[i], i, all);
        if regs[i] != 0 {
          var u :| u in all && Index(u) == i && Rank(u) == regs[i];
          CoveredRegister(regs[i], i, all, some, u);
        }
      }
    }
  }

  /** Every sketch is that of the users of the stored rows of its key. */
  ghost predicate SketchesOfRows(t: Tables) {
    forall k :: k in t.sketches ==> BlobMeans(t.sketches[k], RowUsers(t.events, k))
  }

  /** The users that a key has once the inserted rows are stored. */
  ghost function UsersAfter(t: Tables, rows: seq<Event>, k: BucketKey): set<GoString> {
    RowUsers(t.events, k) + UserSet(Inserted(t.events, rows), k)
  }

  /** Each user of the batch, the duplicates' included, is covered by those of stored or
      inserted rows of the same name and day. */
  ghost predicate BatchCovered(t: Tables, batch: seq<Event>, rows: seq<Event>) {
    forall e :: e in batch && e.user != [] ==> Covered(e.user, UsersAfter(t, rows, DayKey(e)))
  }

  lemma {:induction false} RowUsersStored(events: map<GoString, Event>, inserted: seq<Event>, k: BucketKey)
    requires Fresh(events, inserted)
    ensures RowUsers(Stored(events, inserted), k) == RowUsers(events, k) + UserSet(inserted, k)
  {
    if inserted != [] {
      FreshFront(events, inserted);
      RowUsersStored(events, Front(inserted), k);
      StoredKeys(events, Front(inserted));
      FrontLast(inserted);
      var before, e := Stored(events, Front(inserted)), Last(inserted);
      RowUsersOneMore(before, e, k);
      assert UserSet(inserted, k) == UserSet(Front(inserted), k) + if Tracked(e, k) then {e.user} else {};
    }
  }

  lemma RowUsersOneMore(events: map<GoString, Event>, e: Event, k: BucketKey)
    requires e.id !in events
    ensures RowUsers(events[e.id := e], k) == RowUsers(events, k) + if Tracked(e, k) then {e.user} else {}
  {
    var after := events[e.id := e];
    assert forall id :: id in events ==> id in after && after[id] == events[id];
    assert e.id in after && after[e.id] == e;
  }

  lemma RowsAreCommitted(t: Tables, committed: seq<Event>, k: BucketKey)
    requires EventsMean(t, committed)
    ensures RowUsers(t.events, k) <= UserSet(committed, k)
  {
  }

  /** Users committed before the batch are covered by the rows stored before it. */
  lemma OldUsersCovered(t: Tables, committed: seq<Event>, k: BucketKey, u: GoString)
    requires Consistent(t, committed) && SketchesOfRows(t) && u in UserSet(committed, k)
    ensures Covered(u, RowUsers(t.events, k))
  {
    var e :| e in committed && Tracked(e, k) && e.user == u;
    assert k in DayKeys(committed) && k in t.sketches;
    assert BlobMeans(t.sketches[k], UserSet(committed, k)) && BlobMeans(t.sketches[k], RowUsers(t.events, k));
    var regs := Decode(t.sketches[k]).regs;
    CoveredIsCounted(regs, UserSet(committed, k), u);
    CoveredIsCounted(regs, RowUsers(t.events, k), u);
  }

  lemma CoveredByMore(u: GoString, some: set<GoString>, all: set<GoString>)
    requires Covered(u, some) && some <= all
    ensures Covered(u, all)
  {
    var v :| v in some && Index(v) == Index(u) && Rank(v) >= Rank(u);
    assert v in all;
  }

  /** After the transaction, key by key. */
  lemma KeyStaysOfRows(t: Tables, committed: seq<Event>, batch: seq<Event>, rows: seq<Event>, t': Tables, k: BucketKey)
    requires Consistent(t, committed) && SketchesOfRows(t) && Consistent(t', committed + batch)
    requires t'.events == Stored(t.events, Inserted(t.events, rows)) && k in t'.sketches
    ensures BlobMeans(t'.sketches[k], RowUsers(t'.events, k))
       <==> forall u :: u in UserSet(batch, k) ==> Covered(u, UsersAfter(t, rows, k))
  {
    var all, some := UserSet(committed + batch, k), RowUsers(t'.events, k);
    InsertedMeaning(t.events, rows);
    RowUsersStored(t.events, Inserted(t.events, rows), k);
    RowsAreCommitted(t', committed + batch, k);
    assert BlobMeans(t'.sketches[k], all);
    SketchOfFewer(Decode(t'.sketches[k]).regs, all, some);
    assert all == UserSet(committed, k) + UserSet(batch, k);
    forall u | u in UserSet(committed, k)
      ensures Covered(u, some)
    {
      OldUsersCovered(t, committed, k, u);
      CoveredByMore(u, RowUsers(t.events, k), some);
    }
  }

  lemma BatchCoveredByKey(t: Tables, batch: seq<Event>, rows: seq<Event>, keys: set<BucketKey>)
    requires DayKeys(batch) <= keys
    ensures BatchCovered(t, batch, rows)
       <==> forall k :: k in keys ==> forall u :: u in UserSet(batch, k) ==> Covered(u, UsersAfter(t, rows, k))
  {
    if forall k :: k in keys ==> forall u :: u in UserSet(batch, k) ==> Covered(u, UsersAfter(t, rows, k)) {
      forall e | e in batch && e.user != []
        ensures Covered(e.user, UsersAfter(t, rows, DayKey(e)))
      {
        assert DayKey(e) in DayKeys(batch) && Tracked(e, DayKey(e)) && e.user in UserSet(batch, DayKey(e));
      }
    }
  }

  /** A transaction keeps the sketches those of the stored rows if and only if every user of its
      batch is covered: a duplicate whose user is not counted for its name and day adds a user
      without a row. */
  lemma SketchesStayOfRowsExactly(t: Tables, committed: seq<Event>, batch: seq<Event>, rows: seq<Event>)
    requires Consistent(t, committed) && SketchesOfRows(t) && IsOrdering(batch, rows)
    ensures Apply(t, batch, rows).Applied?
    ensures SketchesOfRows(Apply(t, batch, rows).tables) <==> BatchCovered(t, batch, rows)
  {
    ApplyKeepsConsistent(t, committed, batch, rows);
    var t' := Apply(t, batch, rows).tables;
    forall k | k in t'.sketches
      ensures BlobMeans(t'.sketches[k], RowUsers(t'.events, k))
         <==> forall u :: u in UserSet(batch, k) ==> Covered(u, UsersAfter(t, rows, k))
    {
      KeyStaysOfRows(t, committed, batch, rows, t', k);
    }
    BatchCoveredByKey(t, batch, rows, t'.sketches.Keys);
  }

  lemma CommittedOne(a: Attempt)
    ensures Committed([a]) == if a.reply == NotApplied then [] else a.batch
  {
  }

  lemma OneStoredRow(t: Tables, e: Event)
    requires EventsMean(t, [e])
    ensures t.events == map[e.id := e]
  {
  }

  lemma OneCommit(e: Event)
    ensures Run([Attempt([e], [e], Ok)]).events == map[e.id := e]
    ensures Consistent(Run([Attempt([e], [e], Ok)]), [e])
  {
    RunIsConsistent([Attempt([e], [e], Ok)]);
    CommittedOne(Attempt([e], [e], Ok));
    OneStoredRow(Run([Attempt([e], [e], Ok)]), e);
  }

  lemma SameKeysSameRows(t: Tables, e: Event, again: Event)
    requires t.events == map[e.id := e] && again.id == e.id && Apply(t, [again], [again]).Applied?
    ensures Apply(t, [again], [again]).tables.events == t.events
  {
    assert again in [again] && Ids([again]) == {e.id};
    FirstRowWins(t, [again], [again], e.id);
  }

  lemma CommitAgain(t: Tables, e: Event, again: Event)
    requires t.events == map[e.id := e] && Consistent(t, [e]) && again.id == e.id
    ensures Apply(t, [again], [again]).Applied?
    ensures Consistent(Apply(t, [again], [again]).tables, [e, again])
    ensures Apply(t, [again], [again]).tables.events == t.events
  {
    ApplyKeepsConsistent(t, [e], [again], [again]);
    assert [e] + [again] == [e, again];
    SameKeysSameRows(t, e, again);
  }

  lemma TwoCommits(e: Event, again: Event)
    requires again.id == e.id
    ensures var t := Run([Attempt([e], [e], Ok), Attempt([again], [again], Ok)]);
            t.events == map[e.id := e] && Consistent(t, [e, again])
  {
    OneCommit(e);
    CommitAgain(Run([Attempt([e], [e], Ok)]), e, again);
    assert Front([Attempt([e], [e], Ok), Attempt([again], [again], Ok)]) == [Attempt([e], [e], Ok)];
  }

  lemma SketchOfNobody(blob: seq<uint8>, users: set<GoString>, u: GoString)
    requires BlobMeans(blob, users) && u in users
    ensures !BlobMeans(blob, {})
  {
    RankMeaning(u);
    assert IsRegister(Decode(blob).regs[Index(u)], Index(u), users);
    assert !IsRegister(Decode(blob).regs[Index(u)], Index(u), {});
  }

  lemma UsersOfTwo(e: Event, again: Event, k: BucketKey)
    requires Tracked(e, k) != Tracked(again, k) && e.user == again.user
    ensures UserSet([e, again], k) == {e.user}
    ensures k in DayKeys([e, again])
  {
    assert [e, again][0] == e && [e, again][1] == again;
    assert forall x :: x in [e, again] <==> x == e || x == again;
  }

  lemma TwoSketches(t: Tables, e: Event, again: Event)
    requires SketchesMean(t, [e, again]) && e.user == again.user != [] && DayKey(e) != DayKey(again)
    ensures DayKey(e) in t.sketches && BlobMeans(t.sketches[DayKey(e)], {e.user})
    ensures DayKey(again) in t.sketches && BlobMeans(t.sketches[DayKey(again)], {e.user})
  {
    UsersOfTwo(e, again, DayKey(e));
    UsersOfTwo(e, again, DayKey(again));
  }

  /** Without that, they are not: an event sent again after midnight, with its old id and
      the timestamp of the second acceptance, is stored and counted on the first day only,
      but its user is in the sketches of both days. */
  lemma RetryAcrossMidnight(e: Event)
    requires e.user != []
    ensures var again := e.(ts := e.ts + DAY);
            var t := Run([Attempt([e], [e], Ok), Attempt([again], [again], Ok)]);
            && t.events == map[e.id := e] && RowUsers(t.events, DayKey(again)) == {}
            && DayKey(e) != DayKey(again) && DayKey(e) in t.sketches && DayKey(again) in t.sketches
            && BlobMeans(t.sketches[DayKey(e)], {e.user})
            && BlobMeans(t.sketches[DayKey(again)], {e.user})
            && !BlobMeans(t.sketches[DayKey(again)], RowUsers(t.events, DayKey(again)))
  {
    var again := e.(ts := e.ts + DAY);
    TwoCommits(e, again);
    var t := Run([Attempt([e], [e], Ok), Attempt([again], [again], Ok)]);
    assert DayKey(again).at == DayKey(e).at + DAY;
    TwoSketches(t, e, again);
    SketchOfNobody(t.sketches[DayKey(again)], {e.user}, e.user);
  }
}
