/** internal/store/store.go: InsertBatch and updateUniques as the loops they are, run by one
    transaction at a time. */
module Database {
  import opened Words
  import opened HyperLogLog
  import opened Store
  import opened Transactions

  ghost predicate StrictlyIncreasing(keys: seq<BucketKey>) {
    forall i, j :: 0 <= i < j < |keys| ==> KeyLess(keys[i], keys[j])
  }

  lemma KeyFits(keys: seq<BucketKey>, i: nat, k: BucketKey, j: nat)
    requires StrictlyIncreasing(keys) && i <= |keys| && j < |keys|
    requires i > 0 ==> KeyLess(keys[i - 1], k)
    requires i < |keys| ==> KeyLess(k, keys[i])
    ensures if j < i then KeyLess(keys[j], k) else KeyLess(k, keys[j])
  {
    if j < i {
      KeyOrder(keys[j], keys[i - 1], k);
    } else {
      KeyOrder(k, keys[i], keys[j]);
    }
  }

  lemma InsertKey(keys: seq<BucketKey>, i: nat, k: BucketKey)
    requires StrictlyIncreasing(keys) && i <= |keys|
    requires i > 0 ==> KeyLess(keys[i - 1], k)
    requires i < |keys| ==> KeyLess(k, keys[i])
    ensures StrictlyIncreasing(keys[..i] + [k] + keys[i..])
    ensures SetOf(keys[..i] + [k] + keys[i..]) == SetOf(keys) + {k}
  {
    forall j | 0 <= j < |keys|
      ensures if j < i then KeyLess(keys[j], k) else KeyLess(k, keys[j])
    {
      KeyFits(keys, i, k, j);
    }
    InsertedSet(keys, i, k);
  }

  lemma InsertedSet(keys: seq<BucketKey>, i: nat, k: BucketKey)
    requires i <= |keys|
    ensures SetOf(keys[..i] + [k] + keys[i..]) == SetOf(keys) + {k}
  {
  }

  /** The keys of the groups, collected from the map in no particular order and sorted by
      name, then day. */
  method SortedKeys(groups: set<BucketKey>) returns (keys: seq<BucketKey>)
    ensures SetOf(keys) == groups
    ensures StrictlyIncreasing(keys)
    ensures forall i, j :: 0 <= i < j < |keys| ==>
              Less(keys[i].name, keys[j].name) || (keys[i].name == keys[j].name && keys[i].at < keys[j].at)
  {
    keys := [];
    var left := groups;
    while left != {}
      invariant left <= groups
      invariant SetOf(keys) == groups - left
      invariant StrictlyIncreasing(keys)
      decreases left
    {
      var k :| k in left;
      var i := 0;
      while i < |keys| && KeyLess(keys[i], k)
        invariant 0 <= i <= |keys|
        invariant i > 0 ==> KeyLess(keys[i - 1], k)
      {
        i := i + 1;
      }
      if i < |keys| {
        KeyOrder(keys[i], k, k);
        assert keys[i] in SetOf(keys);
      }
      InsertKey(keys, i, k);
      keys := keys[..i] + [k] + keys[i..];
      left := left - {k};
    }
  }

  /** The user ids of the batch by day key, in batch order. */
  ghost function Groups(events: seq<Event>): map<BucketKey, seq<GoString>> {
    map k | k in DayKeys(events) :: Users(events, k)
  }

  lemma {:induction false} NoUsers(events: seq<Event>, k: BucketKey)
    requires k !in DayKeys(events)
    ensures Users(events, k) == []
  {
    if events != [] {
      DayKeysFront(events);
      NoUsers(Front(events), k);
    }
  }

  lemma DayKeysFront(events: seq<Event>)
    requires events != []
    ensures DayKeys(events) == DayKeys(Front(events)) + if Last(events).user == [] then {} else {DayKey(Last(events))}
  {
  }

  lemma GroupsStep(events: seq<Event>)
    requires events != []
    ensures var e, before := Last(events), Groups(Front(events));
            Groups(events) == if e.user == [] then before
              else before[DayKey(e) := (if DayKey(e) in before then before[DayKey(e)] else []) + [e.user]]
  {
    DayKeysFront(events);
    var e := Last(events);
    if e.user != [] && DayKey(e) !in DayKeys(Front(events)) {
      NoUsers(Front(events), DayKey(e));
    }
  }

  method GroupUsers(events: seq<Event>) returns (groups: map<BucketKey, seq<GoString>>)
    ensures groups == Groups(events)
  {
    groups := map[];
    var i := 0;
    while i < |events|
      invariant 0 <= i <= |events|
      invariant groups == Groups(events[..i])
    {
      var e := events[i];
      assert Front(events[..i + 1]) == events[..i];
      GroupsStep(events[..i + 1]);
      if e.user != [] {
        var k := DayKey(e);
        groups := groups[k := (if k in groups then groups[k] else []) + [e.user]];
      }
      i := i + 1;
    }
    assert events[..|events|] == events;
  }

  method AddEach(regs: Registers, users: seq<GoString>) returns (r: Registers)
    ensures r == AddAll(regs, users)
  {
    r := regs;
    var i := 0;
    while i < |users|
      invariant 0 <= i <= |users|
      invariant r == AddAll(regs, users[..i])
    {
      assert Front(users[..i + 1]) == users[..i];
      r := Add(r, users[i]);
      i := i + 1;
    }
    assert users[..|users|] == users;
  }

  /** What the loop over the sorted keys has written once `done` are handled. */
  ghost predicate FoldedSoFar(
      before: map<BucketKey, seq<uint8>>, now: map<BucketKey, seq<uint8>>, events: seq<Event>, done: set<BucketKey>)
  {
    && now.Keys == before.Keys + done
    && (forall k :: k in now && k !in done ==> now[k] == before[k])
    && (forall k :: k in done ==>
          Readable(before, k) && now[k] == Encode(AddAll(Load(before, k), Users(events, k))))
  }

  /** One turn of the loop: INSERT .. DO NOTHING, SELECT .. FOR UPDATE, add, UPDATE. */
  method FoldKey(sketches: map<BucketKey, seq<uint8>>, k: BucketKey, users: seq<GoString>)
    returns (ok: bool, out: map<BucketKey, seq<uint8>>)
    ensures ok <==> Readable(sketches, k)
    ensures ok ==> out == sketches[k := Encode(AddAll(Load(sketches, k), users))]
  {
    out := sketches;
    if k !in out {
      out := out[k := Encode(EMPTY)];
      DecodeOfEncode(EMPTY);
    }
    var sketch := Decode(out[k]);
    ok := sketch.Sketch?;
    if ok {
      var regs := AddEach(sketch.regs, users);
      out := out[k := Encode(regs)];
    }
  }

  lemma FoldedStep(
      before: map<BucketKey, seq<uint8>>, now: map<BucketKey, seq<uint8>>, events: seq<Event>,
      done: set<BucketKey>, k: BucketKey)
    requires k !in done && FoldedSoFar(before, now, events, done)
    ensures Readable(before, k) <==> Readable(now, k)
    ensures Readable(now, k) ==>
      FoldedSoFar(before, now[k := Encode(AddAll(Load(now, k), Users(events, k)))], events, done + {k})
  {
  }

  lemma FoldedDone(before: map<BucketKey, seq<uint8>>, now: map<BucketKey, seq<uint8>>, events: seq<Event>)
    requires FoldedSoFar(before, now, events, DayKeys(events))
    ensures forall k :: k in DayKeys(events) ==> Readable(before, k)
    ensures now == Folded(before, events)
  {
  }

  lemma NextKey(keys: seq<BucketKey>, i: nat)
    requires i < |keys| && StrictlyIncreasing(keys)
    ensures keys[i] !in SetOf(keys[..i])
    ensures SetOf(keys[..i + 1]) == SetOf(keys[..i]) + {keys[i]}
  {
    KeyOrder(keys[i], keys[i], keys[i]);
    assert keys[..i + 1] == keys[..i] + [keys[i]];
  }

  /** updateUniques on the rows it sees, key by key in order. It fails exactly when the row
      of some key does not decode. */
  method UpdateUniques(sketches: map<BucketKey, seq<uint8>>, events: seq<Event>)
    returns (ok: bool, out: map<BucketKey, seq<uint8>>)
    ensures ok <==> forall k :: k in DayKeys(events) ==> Readable(sketches, k)
    ensures ok ==> out == Folded(sketches, events)
  {
    var groups := GroupUsers(events);
    var keys := SortedKeys(groups.Keys);
    assert SetOf(keys) == DayKeys(events);
    out := sketches;
    var i := 0;
    while i < |keys|
      invariant 0 <= i <= |keys|
      invariant FoldedSoFar(sketches, out, events, SetOf(keys[..i]))
    {
      assert keys[i] in SetOf(keys);
      NextKey(keys, i);
      FoldedStep(sketches, out, events, SetOf(keys[..i]), keys[i]);
      ok, out := FoldKey(out, keys[i], groups[keys[i]]);
      if !ok {
        return;
      }
      i := i + 1;
    }
    assert keys[..|keys|] == keys;
    FoldedDone(sketches, out, events);
    ok := true;
  }

  /** The database behind a Store. */
  class Db {
    const takes: Event -> bool
    var tables: Tables

    /** The tables as the migrations create them. */
    constructor (takes: Event -> bool)
      ensures tables == EMPTY_TABLES && this.takes == takes
    {
      this.takes, tables := takes, EMPTY_TABLES;
    }

    /** InsertBatch. `rows` is the order in which the server took the batch; `reply` is
        what the connection makes of the commit. The tables change only on commit, and a row
        that they cannot take fails the call. */
    method InsertBatch(events: seq<Event>, reply: Reply) returns (inserted: nat, ok: bool, ghost rows: seq<Event>)
      modifies this
      ensures IsOrdering(events, rows)
      ensures var applied := Apply(old(tables), events, rows);
              if events == [] then tables == old(tables) && ok && inserted == 0
              else if applied.CorruptSketch? || !TakesAll(takes, events) || reply == NotApplied then
                tables == old(tables) && !ok
              else tables == applied.tables && ok == (reply == Ok) && (ok ==> inserted == applied.inserted)
    {
      var order := Arrange(events);
      ArrangeIsOrdering(events);
      rows := order;
      if |events| == 0 {
        return 0, true, rows;
      }
      if reply == NotApplied || !TakesAll(takes, events) {
        return 0, false, rows;
      }
      var newRows := Inserted(tables.events, order);
      var folded, sketches := UpdateUniques(tables.sketches, events);
      if !folded {
        return 0, false, rows;
      }
      tables := Tables(Stored(tables.events, newRows), Rolled(tables.rollups, newRows), sketches);
      if reply == LostReply {
        return 0, false, rows;
      }
      return |newRows|, true, rows;
    }
  }

  // ---- The history of a database ----

  lemma OneMoreAttempt(history: seq<Attempt>, a: Attempt)
    requires WellFormed(history) && IsOrdering(a.batch, a.rows)
    ensures WellFormed(history + [a])
    ensures Apply(Run(history), a.batch, a.rows).Applied?
    ensures Run(history + [a])
         == if a.reply == NotApplied then Run(history) else Apply(Run(history), a.batch, a.rows).tables
    ensures Run(history).events.Keys <= Run(history + [a]).events.Keys
    ensures a.reply != NotApplied ==> Ids(a.batch) <= Run(history + [a]).events.Keys
  {
    assert Front(history + [a]) == history;
    RunIsConsistent(history);
    ApplyKeepsConsistent(Run(history), Committed(history), a.batch, a.rows);
    AttemptStores(history, a);
  }
}
