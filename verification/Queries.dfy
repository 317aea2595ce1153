/** internal/store/store.go: CountToday, TotalsToday and Series, which read the rollup table
    only, against the raw events they stand for. `since` is the start of the day or window,
    which each query works out from `now`. */
module Queries {
  import opened Words
  import opened Store

  // ---- CountToday ----

  function Selected(rollups: map<BucketKey, nat>, name: GoString, since: int): set<BucketKey> {
    set k | k in rollups && k.name == name && k.at >= since
  }

  /** `sum(n)` over a set of rollup rows. */
  ghost function SumOver(rollups: map<BucketKey, nat>, keys: set<BucketKey>): nat
    requires keys <= rollups.Keys
  {
    if keys == {} then 0
    else
      var k :| k in keys;
      rollups[k] + SumOver(rollups, keys - {k})
  }

  ghost function CountSince(rollups: map<BucketKey, nat>, name: GoString, since: int): nat {
    SumOver(rollups, Selected(rollups, name, since))
  }

  ghost function RowsIn(events: map<GoString, Event>, keys: set<BucketKey>): set<GoString> {
    set id | id in events && MinuteKey(events[id]) in keys
  }

  lemma {:induction false} SumCountsRows(t: Tables, keys: set<BucketKey>)
    requires RollupsAgree(t) && keys <= t.rollups.Keys
    ensures SumOver(t.rollups, keys) == |RowsIn(t.events, keys)|
  {
    if keys == {} {
      assert RowsIn(t.events, keys) == {};
    } else {
      var k :| k in keys && SumOver(t.rollups, keys) == t.rollups[k] + SumOver(t.rollups, keys - {k});
      SumCountsRows(t, keys - {k});
      assert Count(t.rollups, k) == |RowsOf(t.events, k)|;
      assert RowsIn(t.events, keys) == RowsIn(t.events, keys - {k}) + RowsOf(t.events, k);
      assert RowsIn(t.events, keys - {k}) !! RowsOf(t.events, k);
    }
  }

  /** The stored events of one name at or after a moment. */
  ghost function EventsSince(events: map<GoString, Event>, name: GoString, since: int): set<GoString> {
    set id | id in events && events[id].name == name && events[id].ts >= since
  }

  lemma TruncateKeepsSide(ts: int, since: int)
    requires since % MINUTE == 0
    ensures Truncate(ts, MINUTE) >= since <==> ts >= since
  {
  }

  lemma RolledUp(t: Tables, id: GoString)
    requires RollupsAgree(t) && id in t.events
    ensures MinuteKey(t.events[id]) in t.rollups
  {
    var k := MinuteKey(t.events[id]);
    assert Count(t.rollups, k) == |RowsOf(t.events, k)|;
    assert id in RowsOf(t.events, k);
  }

  /** The sum of a few hundred rollup rows is the number of raw events since a moment, for
      every moment that starts a minute, as every day does. */
  lemma CountIsExact(t: Tables, name: GoString, since: int)
    requires RollupsAgree(t) && since % MINUTE == 0
    ensures CountSince(t.rollups, name, since) == |EventsSince(t.events, name, since)|
  {
    var keys := Selected(t.rollups, name, since);
    SumCountsRows(t, keys);
    forall id
      ensures id in RowsIn(t.events, keys) <==> id in EventsSince(t.events, name, since)
    {
      if id in t.events {
        TruncateKeepsSide(t.events[id].ts, since);
        RolledUp(t, id);
      }
    }
    assert RowsIn(t.events, keys) == EventsSince(t.events, name, since);
  }

  /** Between two minutes it is not: an event in the minute that `since` cuts is left out. */
  lemma CountNeedsAlignment(name: GoString, id: GoString, since: int)
    requires since % MINUTE != 0
    ensures var e := Event(id, name, [], [], since);
            var t := Run([Attempt([e], [e], Ok)]);
            && CountSince(t.rollups, name, since) == 0
            && |EventsSince(t.events, name, since)| == 1
  {
    var e := Event(id, name, [], [], since);
    OneCommit(e);
    var t := Run([Attempt([e], [e], Ok)]);
    assert EventsSince(t.events, name, since) == {id};
    forall k | k != MinuteKey(e)
      ensures k !in t.rollups
    {
      assert RowsOf(t.events, k) == {};
      assert Count(t.rollups, k) == |RowsOf(t.events, k)|;
    }
    assert Selected(t.rollups, name, since) == {};
  }

  ghost function CountToday(rollups: map<BucketKey, nat>, name: GoString, now: int): nat {
    CountSince(rollups, name, Truncate(now, DAY))
  }

  /** `day` is the start of the day of `now`. */
  predicate StartsDay(day: int, now: int) {
    day % DAY == 0 && day <= now < day + DAY
  }

  lemma DayOfNow(day: int, now: int)
    requires StartsDay(day, now)
    ensures Truncate(now, DAY) == day && day % MINUTE == 0
  {
    var e := Event([], [], [], [], now);
    DayKeyIsOnDay(e, [], day);
    assert day == day / DAY * 1440 * MINUTE;
  }

  /** What CountToday returns is the number of stored events of the name since the day began. */
  lemma CountTodayIsExact(t: Tables, name: GoString, now: int, day: int)
    requires RollupsAgree(t) && StartsDay(day, now)
    ensures CountToday(t.rollups, name, now) == |EventsSince(t.events, name, day)|
  {
    DayOfNow(day, now);
    CountIsExact(t, name, day);
  }

  // ---- TotalsToday ----

  datatype NameCount = NameCount(name: GoString, count: nat)

  ghost function NamesSince(rollups: map<BucketKey, nat>, since: int): set<GoString> {
    set k | k in rollups && k.at >= since :: k.name
  }

  const LIMIT: nat := 20

  ghost predicate Listed(out: seq<NameCount>, name: GoString) {
    exists i :: 0 <= i < |out| && out[i].name == name
  }

  /** The first `n` names by count. */
  ghost predicate IsTop(rollups: map<BucketKey, nat>, since: int, names: set<GoString>, n: nat, out: seq<NameCount>) {
    && (forall i :: 0 <= i < |out| ==>
          out[i].name in names && out[i].count == CountSince(rollups, out[i].name, since))
    && (forall i, j :: 0 <= i < j < |out| ==> out[i].count >= out[j].count && out[i].name != out[j].name)
    && |out| <= n
    && (|out| < n ==> forall name :: name in names ==> Listed(out, name))
    && (forall name, i :: name in names && !Listed(out, name) && 0 <= i < |out|
          ==> CountSince(rollups, name, since) <= out[i].count)
  }

  /** `GROUP BY name ORDER BY 2 DESC LIMIT 20`: names with equal counts in any order. */
  ghost predicate IsTotals(rollups: map<BucketKey, nat>, now: int, out: seq<NameCount>) {
    var since := Truncate(now, DAY);
    IsTop(rollups, since, NamesSince(rollups, since), LIMIT, out)
  }

  lemma {:induction false} LargestName(rollups: map<BucketKey, nat>, since: int, names: set<GoString>)
    returns (top: GoString)
    requires names != {}
    ensures top in names
    ensures forall name :: name in names ==> CountSince(rollups, name, since) <= CountSince(rollups, top, since)
  {
    top :| top in names;
    var rest := names - {top};
    if rest != {} {
      var other := LargestName(rollups, since, rest);
      assert forall name :: name in names ==> name == top || name in rest;
      if CountSince(rollups, other, since) > CountSince(rollups, top, since) {
        top := other;
      }
    } else {
      assert names == {top};
    }
  }

  lemma ListedGrows(first: NameCount, rest: seq<NameCount>, name: GoString)
    ensures Listed([first] + rest, name) <==> name == first.name || Listed(rest, name)
  {
    var out := [first] + rest;
    assert out[0] == first;
    if Listed(rest, name) {
      var i :| 0 <= i < |rest| && rest[i].name == name;
      assert out[i + 1].name == name;
    }
    if Listed(out, name) {
      var i :| 0 <= i < |out| && out[i].name == name;
      assert i > 0 ==> rest[i - 1].name == name;
    }
  }

  lemma TopGrows(rollups: map<BucketKey, nat>, since: int, names: set<GoString>, n: nat, top: GoString,
                 rest: seq<NameCount>)
    requires n > 0 && top in names && IsTop(rollups, since, names - {top}, n - 1, rest)
    requires forall name :: name in names ==> CountSince(rollups, name, since) <= CountSince(rollups, top, since)
    ensures IsTop(rollups, since, names, n, [NameCount(top, CountSince(rollups, top, since))] + rest)
  {
    var first := NameCount(top, CountSince(rollups, top, since));
    var out := [first] + rest;
    forall name
      ensures Listed(out, name) <==> name == top || Listed(rest, name)
    {
      ListedGrows(first, rest, name);
    }
    forall name, i | name in names && !Listed(out, name) && 0 <= i < |out|
      ensures CountSince(rollups, name, since) <= out[i].count
    {
      assert name in names - {top} && !Listed(rest, name);
      assert i > 0 ==> CountSince(rollups, name, since) <= rest[i - 1].count;
    }
  }

  lemma {:induction false} TopExists(rollups: map<BucketKey, nat>, since: int, names: set<GoString>, n: nat)
    returns (out: seq<NameCount>)
    ensures IsTop(rollups, since, names, n, out)
  {
    if n == 0 || names == {} {
      out := [];
    } else {
      var top := LargestName(rollups, since, names);
      var rest := TopExists(rollups, since, names - {top}, n - 1);
      TopGrows(rollups, since, names, n, top, rest);
      out := [NameCount(top, CountSince(rollups, top, since))] + rest;
    }
  }

  /** The query always has an answer. */
  lemma TotalsExist(rollups: map<BucketKey, nat>, now: int)
    ensures exists out :: IsTotals(rollups, now, out)
  {
    var since := Truncate(now, DAY);
    var out := TopExists(rollups, since, NamesSince(rollups, since), LIMIT);
    assert IsTotals(rollups, now, out);
  }

  ghost function EventNames(events: map<GoString, Event>, since: int): set<GoString> {
    set id | id in events && events[id].ts >= since :: events[id].name
  }

  /** The list shows the day's exact event counts, each name once and the largest first; a name
      with events is left out only when twenty names with at least as many are listed. */
  lemma TotalsAreExact(t: Tables, now: int, day: int, out: seq<NameCount>)
    requires RollupsAgree(t) && StartsDay(day, now) && IsTotals(t.rollups, now, out)
    ensures |out| <= 20
    ensures forall i :: 0 <= i < |out| ==> out[i].count == |EventsSince(t.events, out[i].name, day)| > 0
    ensures forall i, j :: 0 <= i < j < |out| ==> out[i].name != out[j].name && out[i].count >= out[j].count
    ensures forall name :: name in EventNames(t.events, day) ==>
              Listed(out, name) || (|out| == 20 && |EventsSince(t.events, name, day)| <= Last(out).count)
  {
    DayOfNow(day, now);
    forall i | 0 <= i < |out|
      ensures out[i].count == |EventsSince(t.events, out[i].name, day)| > 0
    {
      CountIsExact(t, out[i].name, day);
      NamedCountIsPositive(t, out[i].name, day);
    }
    forall name | name in EventNames(t.events, day)
      ensures Listed(out, name) || (|out| == 20 && |EventsSince(t.events, name, day)| <= Last(out).count)
    {
      NameIsRolledUp(t, name, day);
      CountIsExact(t, name, day);
    }
  }

  lemma NameIsRolledUp(t: Tables, name: GoString, since: int)
    requires RollupsAgree(t) && since % MINUTE == 0 && name in EventNames(t.events, since)
    ensures name in NamesSince(t.rollups, since)
  {
    var id :| id in t.events && t.events[id].ts >= since && t.events[id].name == name;
    TruncateKeepsSide(t.events[id].ts, since);
    RolledUp(t, id);
    assert MinuteKey(t.events[id]).name in NamesSince(t.rollups, since);
  }

  lemma NamedCountIsPositive(t: Tables, name: GoString, since: int)
    requires RollupsAgree(t) && since % MINUTE == 0 && name in NamesSince(t.rollups, since)
    ensures |EventsSince(t.events, name, since)| > 0
  {
    var k :| k in t.rollups && k.at >= since && k.name == name;
    assert Count(t.rollups, k) == |RowsOf(t.events, k)| > 0;
    var id :| id in RowsOf(t.events, k);
    TruncateKeepsSide(t.events[id].ts, since);
    assert id in EventsSince(t.events, name, since);
  }

  // ---- Series ----

  datatype MinutePoint = MinutePoint(name: GoString, minute: int, count: nat)

  function KeyOf(p: MinutePoint): BucketKey {
    BucketKey(p.name, p.minute)
  }

  predicate RowBefore(a: BucketKey, b: BucketKey) {
    a.at < b.at || (a.at == b.at && Less(a.name, b.name))
  }

  predicate PointBefore(a: MinutePoint, b: MinutePoint) {
    RowBefore(KeyOf(a), KeyOf(b))
  }

  ghost predicate IsPoint(rollups: map<BucketKey, nat>, since: int, p: MinutePoint) {
    KeyOf(p) in rollups && p.minute >= since && p.count == rollups[KeyOf(p)]
  }

  /** The minute of `now`, that many minutes ago. */
  function WindowStart(now: int, mins: int): int {
    Truncate(now, MINUTE) - mins * MINUTE
  }

  /** `WHERE minute >= .. ORDER BY minute, name`. */
  ghost predicate IsSeries(rollups: map<BucketKey, nat>, since: int, out: seq<MinutePoint>) {
    && (forall i {:trigger IsPoint(rollups, since, out[i])} :: 0 <= i < |out| ==> IsPoint(rollups, since, out[i]))
    && (forall i, j :: 0 <= i < j < |out| ==> PointBefore(out[i], out[j]))
    && (forall k {:trigger HasPoint(out, k)} :: k in rollups && k.at >= since ==> HasPoint(out, k))
  }

  ghost predicate HasPoint(out: seq<MinutePoint>, k: BucketKey) {
    exists i :: 0 <= i < |out| && KeyOf(out[i]) == k
  }

  lemma {:induction false} SeriesOf(rollups: map<BucketKey, nat>, since: int, keys: set<BucketKey>)
    returns (out: seq<MinutePoint>)
    requires keys <= rollups.Keys && forall k :: k in keys ==> k.at >= since
    ensures forall i {:trigger IsPoint(rollups, since, out[i])} :: 0 <= i < |out| ==>
              IsPoint(rollups, since, out[i]) && KeyOf(out[i]) in keys
    ensures forall i, j :: 0 <= i < j < |out| ==> PointBefore(out[i], out[j])
    ensures forall k {:trigger HasPoint(out, k)} :: k in keys ==> HasPoint(out, k)
  {
    if keys == {} {
      out := [];
    } else {
      var first := FirstKey(keys);
      var rest := SeriesOf(rollups, since, keys - {first});
      var p := MinutePoint(first.name, first.at, rollups[first]);
      out := [p] + rest;
      forall i | 0 <= i < |out|
        ensures IsPoint(rollups, since, out[i]) && KeyOf(out[i]) in keys && (i > 0 ==> PointBefore(p, out[i]))
      {
        if i > 0 {
          assert out[i] == rest[i - 1] && IsPoint(rollups, since, rest[i - 1]);
        }
      }
      forall k | k in keys
        ensures HasPoint(out, k)
      {
        if k == first {
          assert KeyOf(out[0]) == k;
        } else {
          assert HasPoint(rest, k);
          var i :| 0 <= i < |rest| && KeyOf(rest[i]) == k;
          assert KeyOf(out[i + 1]) == k;
        }
      }
    }
  }

  lemma {:induction false} FirstKey(keys: set<BucketKey>) returns (first: BucketKey)
    requires keys != {}
    ensures first in keys && forall k :: k in keys && k != first ==> RowBefore(first, k)
  {
    first :| first in keys;
    var rest := keys - {first};
    if rest == {} {
      assert keys == {first};
    } else {
      var other := FirstKey(rest);
      LessTotal(first.name, other.name);
      forall k | k in keys
        ensures RowBefore(first, other) && RowBefore(other, k) ==> RowBefore(first, k)
        ensures k != first ==> k in rest
      {
        if Less(first.name, other.name) && Less(other.name, k.name) {
          LessTransitive(first.name, other.name, k.name);
        }
      }
      if !RowBefore(first, other) {
        first := other;
      }
    }
  }

  /** The query always has an answer. */
  lemma SeriesExists(rollups: map<BucketKey, nat>, now: int, mins: int)
    ensures exists out :: IsSeries(rollups, WindowStart(now, mins), out)
  {
    var since := WindowStart(now, mins);
    var out := SeriesOf(rollups, since, set k | k in rollups && k.at >= since);
    assert IsSeries(rollups, since, out);
  }

  ghost predicate InMinute(e: Event, p: MinutePoint) {
    e.name == p.name && p.minute <= e.ts < p.minute + MINUTE
  }

  /** Point `i` is the only one whose minute and name are those of `e`. */
  ghost predicate OnlyPoint(out: seq<MinutePoint>, e: Event, i: int) {
    && 0 <= i < |out| && InMinute(e, out[i])
    && forall j :: 0 <= j < |out| && InMinute(e, out[j]) ==> j == i
  }

  ghost function EventsAt(events: map<GoString, Event>, p: MinutePoint): set<GoString> {
    set id | id in events && InMinute(events[id], p)
  }

  lemma WindowOfNow(now: int, mins: int, minute: int)
    requires minute % MINUTE == 0 && minute <= now < minute + MINUTE
    ensures WindowStart(now, mins) == minute - mins * MINUTE
    ensures (minute - mins * MINUTE) % MINUTE == 0
  {
    MinuteKeyMeaning(Event([], [], [], [], now), BucketKey([], minute));
    assert minute - mins * MINUTE == (minute / MINUTE - mins) * MINUTE;
  }

  /** Every event of the last `mins` minutes and the current one is in exactly one point of the
      chart, every point counts exactly its events, and the points come oldest first, those of
      one minute by name. */
  lemma SeriesIsExact(t: Tables, now: int, mins: int, minute: int, out: seq<MinutePoint>)
    requires RollupsAgree(t) && IsSeries(t.rollups, WindowStart(now, mins), out)
    requires minute % MINUTE == 0 && minute <= now < minute + MINUTE
    ensures forall i, j :: 0 <= i < j < |out| ==>
              out[i].minute < out[j].minute || (out[i].minute == out[j].minute && Less(out[i].name, out[j].name))
    ensures forall i :: 0 <= i < |out| ==>
              minute - mins * MINUTE <= out[i].minute && out[i].count == |EventsAt(t.events, out[i])| > 0
    ensures forall id :: id in t.events && t.events[id].ts >= minute - mins * MINUTE ==>
              exists i :: OnlyPoint(out, t.events[id], i)
  {
    WindowOfNow(now, mins, minute);
    var since := minute - mins * MINUTE;
    forall i | 0 <= i < |out|
      ensures since <= out[i].minute && out[i].count == |EventsAt(t.events, out[i])| > 0
    {
      assert IsPoint(t.rollups, since, out[i]);
      PointCounts(t, since, out[i]);
    }
    forall id | id in t.events && t.events[id].ts >= since
      ensures exists i :: OnlyPoint(out, t.events[id], i)
    {
      OnePoint(t, since, out, id);
    }
  }

  lemma MinuteKeyMeaning(e: Event, k: BucketKey)
    requires k.at % MINUTE == 0
    ensures MinuteKey(e) == k <==> e.name == k.name && k.at <= e.ts < k.at + MINUTE
  {
  }

  lemma KeyIsAligned(t: Tables, k: BucketKey)
    requires RollupsAgree(t) && k in t.rollups
    ensures k.at % MINUTE == 0
  {
    assert Count(t.rollups, k) == |RowsOf(t.events, k)| > 0;
    var id :| id in RowsOf(t.events, k);
    var ts := t.events[id].ts;
    assert k.at == ts - ts % MINUTE == ts / MINUTE * MINUTE;
  }

  lemma PointCounts(t: Tables, since: int, p: MinutePoint)
    requires RollupsAgree(t) && IsPoint(t.rollups, since, p)
    ensures p.count == |EventsAt(t.events, p)| > 0
  {
    var k := KeyOf(p);
    KeyIsAligned(t, k);
    forall id | id in t.events
      ensures MinuteKey(t.events[id]) == k <==> InMinute(t.events[id], p)
    {
      MinuteKeyMeaning(t.events[id], k);
    }
    assert RowsOf(t.events, k) == EventsAt(t.events, p);
    assert Count(t.rollups, k) == |RowsOf(t.events, k)|;
  }

  lemma OnePoint(t: Tables, since: int, out: seq<MinutePoint>, id: GoString)
    requires RollupsAgree(t) && since % MINUTE == 0 && IsSeries(t.rollups, since, out)
    requires id in t.events && t.events[id].ts >= since
    ensures exists i :: OnlyPoint(out, t.events[id], i)
  {
    var e := t.events[id];
    var k := MinuteKey(e);
    RolledUp(t, id);
    TruncateKeepsSide(e.ts, since);
    KeyIsAligned(t, k);
    MinuteKeyMeaning(e, k);
    assert HasPoint(out, k);
    var i :| 0 <= i < |out| && KeyOf(out[i]) == k;
    forall j | 0 <= j < |out| && InMinute(e, out[j])
      ensures j == i
    {
      SamePoint(t, since, out, e, i, j);
    }
    assert OnlyPoint(out, e, i);
  }

  lemma SamePoint(t: Tables, since: int, out: seq<MinutePoint>, e: Event, i: nat, j: nat)
    requires RollupsAgree(t) && IsSeries(t.rollups, since, out) && i < |out| && j < |out|
    requires KeyOf(out[i]) == MinuteKey(e) && InMinute(e, out[j])
    ensures i == j
  {
    var k := KeyOf(out[j]);
    assert IsPoint(t.rollups, since, out[j]);
    KeyIsAligned(t, k);
    MinuteKeyMeaning(e, k);
    LessIrreflexive(out[i].name);
    assert out[i].name == out[j].name && out[i].minute == out[j].minute;
    assert i < j ==> PointBefore(out[i], out[j]);
    assert j < i ==> PointBefore(out[j], out[i]);
  }
}
