/**
  The dashboard counters (`models/Statistics.js` and `statisticsService.js`):
  a collection of counter records of which the most recently updated one is
  current, read with an all-zero default, overwritten field by field, or
  incremented one counter at a time. Writes re-read the current record.
 */
module Statistics {
  import opened Wrappers

  /** A stored counter record; the counters default to 0 and the time to the creation time. */
  datatype Stats = Stats(totalUsers: int, activeCourses: int, totalRevenue: int, pendingTasks: int, lastUpdated: int)

  datatype Counter = TotalUsers | ActiveCourses | TotalRevenue | PendingTasks

  function Get(s: Stats, c: Counter): int
  {
    match c
    case TotalUsers => s.totalUsers
    case ActiveCourses => s.activeCourses
    case TotalRevenue => s.totalRevenue
    case PendingTasks => s.pendingTasks
  }

  /** Sets one counter; every other counter and the time are kept. */
  function Set(s: Stats, c: Counter, v: int): (r: Stats)
    ensures Get(r, c) == v
    ensures forall c' :: c' != c ==> Get(r, c') == Get(s, c')
    ensures r.lastUpdated == s.lastUpdated
  {
    match c
    case TotalUsers => s.(totalUsers := v)
    case ActiveCourses => s.(activeCourses := v)
    case TotalRevenue => s.(totalRevenue := v)
    case PendingTasks => s.(pendingTasks := v)
  }

  /** A record created at `now` with nothing else given: every counter 0. */
  function Fresh(now: int): (r: Stats)
    ensures forall c :: Get(r, c) == 0
    ensures r.lastUpdated == now
  {
    Stats(0, 0, 0, 0, now)
  }

  /**
    The index of the current record: one whose `lastUpdated` is the greatest.
    Among equal times the database's choice is not specified; the earliest
    stored one is taken here.
   */
  function LatestIndex(rs: seq<Stats>): (i: nat)
    requires |rs| > 0
    ensures i < |rs|
    ensures forall j :: 0 <= j < |rs| ==> rs[j].lastUpdated <= rs[i].lastUpdated
    ensures forall j :: 0 <= j < i ==> rs[j].lastUpdated < rs[i].lastUpdated
    decreases |rs|
  {
    if |rs| == 1 then 0
    else
      var k := LatestIndex(rs[..|rs| - 1]);
      if rs[|rs| - 1].lastUpdated > rs[k].lastUpdated then |rs| - 1 else k
  }

  /** What `getStatistics` returns: a record, or the bare default object, which has no time. */
  datatype Snapshot = Snapshot(totalUsers: int, activeCourses: int, totalRevenue: int, pendingTasks: int, lastUpdated: Option<int>)

  const Default := Snapshot(0, 0, 0, 0, None)

  function View(s: Stats): (r: Snapshot)
    ensures r.lastUpdated == Some(s.lastUpdated)
  {
    Snapshot(s.totalUsers, s.activeCourses, s.totalRevenue, s.pendingTasks, Some(s.lastUpdated))
  }

  function SnapshotGet(s: Snapshot, c: Counter): int
  {
    match c
    case TotalUsers => s.totalUsers
    case ActiveCourses => s.activeCourses
    case TotalRevenue => s.totalRevenue
    case PendingTasks => s.pendingTasks
  }

  /** `getStatistics()`: the most recently updated record, or all zeros when there is none. */
  function GetStatistics(rs: seq<Stats>): (r: Snapshot)
    ensures |rs| == 0 <==> r == Default
    ensures |rs| > 0 ==>
      exists i :: 0 <= i < |rs| && r == View(rs[i]) && (forall j :: 0 <= j < |rs| ==> rs[j].lastUpdated <= rs[i].lastUpdated)
  {
    if |rs| == 0 then Default else View(rs[LatestIndex(rs)])
  }

  /** The fields an update may carry; absent ones are left alone. */
  datatype StatsUpdates = StatsUpdates(
    totalUsers: Option<int>,
    activeCourses: Option<int>,
    totalRevenue: Option<int>,
    pendingTasks: Option<int>,
    lastUpdated: Option<int>)

  function UpdateValue(u: StatsUpdates, c: Counter): Option<int>
  {
    match c
    case TotalUsers => u.totalUsers
    case ActiveCourses => u.activeCourses
    case TotalRevenue => u.totalRevenue
    case PendingTasks => u.pendingTasks
  }

  /**
    `Object.assign(stats, updates)` followed by `lastUpdated = new Date()`:
    each given counter replaces the stored one, and the time is now even when
    the updates carry their own.
   */
  function Assign(s: Stats, u: StatsUpdates, now: int): (r: Stats)
    ensures forall c :: Get(r, c) == UpdateValue(u, c).GetOr(Get(s, c))
    ensures r.lastUpdated == now
  {
    Stats(u.totalUsers.GetOr(s.totalUsers), u.activeCourses.GetOr(s.activeCourses),
          u.totalRevenue.GetOr(s.totalRevenue), u.pendingTasks.GetOr(s.pendingTasks), now)
  }

  /** `Statistics.create({ ...updates, lastUpdated: new Date() })`: the counters given, 0 for the rest. */
  function Create(u: StatsUpdates, now: int): (r: Stats)
    ensures forall c :: Get(r, c) == UpdateValue(u, c).GetOr(0)
    ensures r.lastUpdated == now
  {
    Assign(Fresh(now), u, now)
  }

  /** `updateStatistics(updates)`: overwrite the current record, or create the first one; then re-read. */
  function UpdateStatistics(rs: seq<Stats>, u: StatsUpdates, now: int): (r: (seq<Stats>, Snapshot))
    ensures |rs| == 0 ==> r.0 == [Create(u, now)]
    ensures |rs| > 0 ==>
      && |r.0| == |rs|
      && r.0[LatestIndex(rs)] == Assign(rs[LatestIndex(rs)], u, now)
      && (forall j :: 0 <= j < |rs| && j != LatestIndex(rs) ==> r.0[j] == rs[j])
    ensures r.1 == GetStatistics(r.0)
  {
    var rs' := if |rs| == 0 then [Create(u, now)] else rs[LatestIndex(rs) := Assign(rs[LatestIndex(rs)], u, now)];
    (rs', GetStatistics(rs'))
  }

  /**
    `incrementStatistics(field, amount = 1)`: add `amount` to one counter of
    the current record, or create the first record with that counter set to
    `amount`; then re-read.
   */
  function IncrementStatistics(rs: seq<Stats>, c: Counter, amount: Option<int>, now: int): (r: (seq<Stats>, Snapshot))
    ensures var a := amount.GetOr(1);
      && (|rs| == 0 ==> r.0 == [Set(Fresh(now), c, a)])
      && (|rs| > 0 ==>
            && |r.0| == |rs|
            && r.0[LatestIndex(rs)] == Set(rs[LatestIndex(rs)], c, Get(rs[LatestIndex(rs)], c) + a).(lastUpdated := now)
            && (forall j :: 0 <= j < |rs| && j != LatestIndex(rs) ==> r.0[j] == rs[j]))
    ensures r.1 == GetStatistics(r.0)
  {
    var a := amount.GetOr(1);
    var rs' :=
      if |rs| == 0 then [Set(Fresh(now), c, a)]
      else
        var s := rs[LatestIndex(rs)];
        rs[LatestIndex(rs) := Set(s, c, Get(s, c) + a).(lastUpdated := now)];
    (rs', GetStatistics(rs'))
  }

  /** The clock has not gone backwards: `now` is at least every stored time. */
  predicate NotBefore(rs: seq<Stats>, now: int)
  {
    forall j :: 0 <= j < |rs| ==> rs[j].lastUpdated <= now
  }

  /** A record at least as recent as all others, placed at index `i`, is the one read back. */
  lemma NewestIsRead(rs: seq<Stats>, i: nat)
    requires i < |rs|
    requires forall j :: 0 <= j < |rs| ==> rs[j].lastUpdated <= rs[i].lastUpdated
    requires forall j :: 0 <= j < i ==> rs[j].lastUpdated < rs[i].lastUpdated
    ensures LatestIndex(rs) == i
  {
  }

  /**
    When the clock has not gone backwards, an update returns the record it
    wrote: the given counters, the old values for the rest (0 on a first
    write) and the new time.
   */
  lemma UpdateReadsBack(rs: seq<Stats>, u: StatsUpdates, now: int, c: Counter)
    requires NotBefore(rs, now)
    ensures var r := UpdateStatistics(rs, u, now).1;
      && r.lastUpdated == Some(now)
      && (|rs| == 0 ==> SnapshotGet(r, c) == UpdateValue(u, c).GetOr(0))
      && (|rs| > 0 ==> SnapshotGet(r, c) == UpdateValue(u, c).GetOr(Get(rs[LatestIndex(rs)], c)))
  {
    if |rs| > 0 {
      ReplaceLatest(rs, Assign(rs[LatestIndex(rs)], u, now), now);
    }
  }

  /**
    When the clock has not gone backwards, an increment returns the current
    record with exactly the named counter raised by the amount (1 when none is
    given); a first increment starts from 0.
   */
  lemma IncrementReadsBack(rs: seq<Stats>, c: Counter, amount: Option<int>, now: int, other: Counter)
    requires NotBefore(rs, now)
    ensures var r := IncrementStatistics(rs, c, amount, now).1;
      var base := if |rs| == 0 then 0 else Get(rs[LatestIndex(rs)], c);
      && r.lastUpdated == Some(now)
      && SnapshotGet(r, c) == base + amount.GetOr(1)
      && (other != c ==> SnapshotGet(r, other) == (if |rs| == 0 then 0 else Get(rs[LatestIndex(rs)], other)))
  {
    var a := amount.GetOr(1);
    if |rs| > 0 {
      var i := LatestIndex(rs);
      var w := Set(rs[i], c, Get(rs[i], c) + a).(lastUpdated := now);
      ReplaceLatest(rs, w, now);
      assert IncrementStatistics(rs, c, amount, now).1 == View(w);
    }
  }

  /** Overwriting the current record with one stamped `now`, when no stored time is later, makes it the record read. */
  lemma ReplaceLatest(rs: seq<Stats>, w: Stats, now: int)
    requires |rs| > 0 && NotBefore(rs, now) && w.lastUpdated == now
    ensures GetStatistics(rs[LatestIndex(rs) := w]) == View(w)
  {
    NewestIsRead(rs[LatestIndex(rs) := w], LatestIndex(rs));
  }

  /** Two increments in a row add up, when the clock moves forward. */
  lemma IncrementsAdd(rs: seq<Stats>, c: Counter, a: int, b: int, t1: int, t2: int)
    requires |rs| > 0 && NotBefore(rs, t1) && t1 <= t2
    ensures var rs1 := IncrementStatistics(rs, c, Some(a), t1).0;
      var r := IncrementStatistics(rs1, c, Some(b), t2).1;
      SnapshotGet(r, c) == Get(rs[LatestIndex(rs)], c) + a + b
  {
    var i := LatestIndex(rs);
    var rs1 := IncrementStatistics(rs, c, Some(a), t1).0;
    NewestIsRead(rs1, i);
    assert NotBefore(rs1, t2);
    IncrementReadsBack(rs1, c, Some(b), t2, c);
  }

  /** With no record, reading gives the all-zero default, which has no time. */
  lemma EmptyReadsDefault()
    ensures forall c :: SnapshotGet(GetStatistics([]), c) == 0
    ensures GetStatistics([]).lastUpdated.None?
  {
  }
}
