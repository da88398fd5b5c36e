/**
 * The two check stores as functions on tables, their runs, and the reference they both refine:
 * a log that is never pruned, and the log as it was at the last rebuild.
 */
module Stores {
  import opened Prelude
  import opened Checks
  import opened Windows

  datatype Period = Daily | Hourly {
    function Width(): (w: nat)
      ensures w > 0
    {
      if Daily? then DAY_SECONDS else HOUR_SECONDS
    }
  }

  /** The raw checks, oldest first, and the two rollup tables. */
  datatype Tables = Tables(checks: seq<CheckRecord>, daily: RollupTable, hourly: RollupTable) {
    function Rollups(period: Period): RollupTable {
      if period.Daily? then daily else hourly
    }
  }

  const EMPTY := Tables([], map[], map[])

  datatype Op =
    | Record(records: seq<CheckRecord>)
    | Rebuild(now: real, days: int, hours: int, of: Series)
    | Prune(now: real, retainDays: int)
  {
    /** The number of buckets of a period that a rebuild covers. */
    function Span(period: Period): int
      requires Rebuild?
    {
      if period.Daily? then days else hours
    }
  }

  function Since(cutoff: real): CheckRecord -> bool {
    (r: CheckRecord) => r.checkedAt >= cutoff
  }

  function Recent(records: seq<CheckRecord>, cutoff: real): seq<CheckRecord> {
    Filter(Since(cutoff), records)
  }

  /** An instant n buckets before now. */
  function Back(now: real, n: int, width: nat): real {
    now - (n * width) as real
  }

  function Cutoff(now: real, retainDays: int): real {
    Back(now, Max(1, retainDays), DAY_SECONDS)
  }

  /** The part of a table from a bucket on. */
  function From(t: RollupTable, start: int): RollupTable {
    map k | k in t && k.1 >= start :: t[k]
  }

  /** Memory replaces the rollups; SQLite upserts the rebuilt buckets and keeps the rest. */
  function Rebuilt(engine: Engine, period: Period, series: Series, previous: RollupTable, checks: seq<CheckRecord>, since: real): RollupTable {
    var rebuilt := Table(engine, period.Width(), series, Recent(checks, since));
    if engine.Memory? then rebuilt else previous + rebuilt
  }

  function Apply(engine: Engine, s: Tables, op: Op): Tables {
    match op
    case Record(records) => s.(checks := s.checks + records)
    case Rebuild(now, days, hours, of) =>
      s.(daily := Rebuilt(engine, Daily, of, s.daily, s.checks, Back(now, days, DAY_SECONDS)),
         hourly := Rebuilt(engine, Hourly, of, s.hourly, s.checks, Back(now, hours, HOUR_SECONDS)))
    case Prune(now, retainDays) =>
      var cutoff := Cutoff(now, retainDays);
      Tables(Recent(s.checks, cutoff),
             From(s.daily, Bucket(DAY_SECONDS, cutoff)),
             From(s.hourly, Bucket(HOUR_SECONDS, cutoff)))
  }

  /** The store after a run of operations from empty. */
  function After(engine: Engine, ops: seq<Op>): Tables {
    if ops == [] then EMPTY
    else Apply(engine, After(engine, ops[..|ops| - 1]), ops[|ops| - 1])
  }

  /** The rollups that a read of the last n buckets shows: `daily_since` and `hourly_since`. */
  function Shown(s: Tables, period: Period, n: int, now: real): RollupTable {
    From(s.Rollups(period), Bucket(period.Width(), Back(now, n - 1, period.Width())))
  }

  // ---- The reference.

  /** Everything ever recorded. */
  function Log(ops: seq<Op>): seq<CheckRecord> {
    if ops == [] then []
    else
      var log, last := Log(ops[..|ops| - 1]), ops[|ops| - 1];
      if last.Record? then log + last.records else log
  }

  /** Everything recorded before the last rebuild. */
  function Snapshot(ops: seq<Op>): seq<CheckRecord> {
    if ops == [] then []
    else if ops[|ops| - 1].Rebuild? then Log(ops[..|ops| - 1])
    else Snapshot(ops[..|ops| - 1])
  }

  /** Clock readings never go back, and none is later than now. */
  predicate Timely(ops: seq<Op>, now: real) {
    ops == []
    || (var last := ops[|ops| - 1];
        if last.Record? then Timely(ops[..|ops| - 1], now)
        else last.now <= now && Timely(ops[..|ops| - 1], last.now))
  }

  /** No check is dated before the epoch. */
  predicate Dated(op: Op) {
    op.Record? ==> forall r | r in op.records :: r.checkedAt >= 0.0
  }

  /** A prune keeps at least the last `horizon` seconds. */
  predicate Keeps(op: Op, horizon: real) {
    op.Prune? ==> horizon <= (Max(1, op.retainDays) * DAY_SECONDS) as real
  }

  /** A rebuild is one of the given series and covers at least the last n buckets of the period. */
  predicate Covers(op: Op, series: Series, period: Period, n: int) {
    op.Rebuild? ==> op.of == series && n <= op.Span(period)
  }

  ghost predicate Admissible(ops: seq<Op>, series: Series, period: Period, n: int, horizon: real) {
    forall i | 0 <= i < |ops| :: Dated(ops[i]) && Keeps(ops[i], horizon) && Covers(ops[i], series, period, n)
  }

  lemma OneMore(engine: Engine, ops: seq<Op>, op: Op, now: real)
    ensures After(engine, ops + [op]) == Apply(engine, After(engine, ops), op)
    ensures Timely(ops + [op], now) <==> if op.Record? then Timely(ops, now) else op.now <= now && Timely(ops, op.now)
  {
    assert (ops + [op])[..|ops|] == ops;
  }

  // ---- Window arithmetic.

  /** Bucket b can appear in a read of n buckets at now or later. */
  predicate Visible(width: nat, n: int, now: real, b: int) {
    (b * width) as real > Back(now, n, width)
  }

  lemma BucketBounds(width: nat, t: real)
    requires width > 0
    ensures (Bucket(width, t) * width) as real <= t < ((Bucket(width, t) + 1) * width) as real
  {
    var f := t.Floor;
    assert f == f / width * width + f % width;
    assert (f / width + 1) * width == f / width * width + width;
  }

  /** Days are 86400 and hours 3600 seconds of the epoch. */
  lemma DaysAndHours(t: real)
    ensures var day, hour := Bucket(Daily.Width(), t), Bucket(Hourly.Width(), t);
            && (86400 * day) as real <= t < (86400 * (day + 1)) as real
            && (3600 * hour) as real <= t < (3600 * (hour + 1)) as real
  {
    BucketBounds(Daily.Width(), t);
    BucketBounds(Hourly.Width(), t);
  }

  /** A bucket is no earlier than that of an instant exactly when it ends after the instant. */
  lemma EndsAfter(width: nat, b: int, t: real)
    requires width == 86400 || width == 3600
    ensures b >= Bucket(width, t) <==> (width * (b + 1)) as real > t
  {
    BucketBounds(width, t);
    var c := Bucket(width, t);
    if b < c {
      assert width * (b + 1) <= width * c;
    } else {
      assert width * (b + 1) >= width * (c + 1);
    }
  }

  /** Recent checks are those from the cutoff on, as often as they were there. */
  lemma RecentKeeps(records: seq<CheckRecord>, cutoff: real, r: CheckRecord)
    ensures multiset(Recent(records, cutoff))[r] == if r.checkedAt >= cutoff then multiset(records)[r] else 0
  {
    FilterMultiset(Since(cutoff), records, r);
  }

  /** A row of the later table is one of the table whose bucket was not over. */
  ghost predicate KeptFrom(t: RollupTable, u: RollupTable, width: nat, since: real, k: Cell) {
    && (k in u <==> k in t && (width * (k.1 + 1)) as real > since)
    && (k in u && k in t ==> u[k] == t[k])
  }

  /**
   * A prune removes exactly the checks before the cutoff and the rows of days and hours that were
   * over by then; the cutoff is the retention, one day at least, before now.
   */
  lemma PruneLeaves(engine: Engine, s: Tables, now: real, retainDays: int, r: CheckRecord, k: Cell)
    ensures var t := Apply(engine, s, Prune(now, retainDays));
            var cutoff := now - (86400 * if retainDays < 1 then 1 else retainDays) as real;
            && multiset(t.checks)[r] == (if r.checkedAt >= cutoff then multiset(s.checks)[r] else 0)
            && KeptFrom(s.daily, t.daily, 86400, cutoff, k) && KeptFrom(s.hourly, t.hourly, 3600, cutoff, k)
  {
    var cutoff := Cutoff(now, retainDays);
    RecentKeeps(s.checks, cutoff, r);
    EndsAfter(86400, k.1, cutoff);
    EndsAfter(3600, k.1, cutoff);
  }

  /** A read of n days or hours shows exactly the rows of those that were not over n - 1 of them before now. */
  lemma ShownRows(s: Tables, n: int, now: real, k: Cell)
    ensures KeptFrom(s.daily, Shown(s, Daily, n, now), 86400, now - (86400 * (n - 1)) as real, k)
    ensures KeptFrom(s.hourly, Shown(s, Hourly, n, now), 3600, now - (3600 * (n - 1)) as real, k)
  {
    EndsAfter(86400, k.1, Back(now, n - 1, 86400));
    EndsAfter(3600, k.1, Back(now, n - 1, 3600));
  }

  /** What a rebuild leaves of a cell: the counts of its checks in the window; without any, nothing in memory, and the old row in SQLite. */
  ghost predicate RebuiltRow(engine: Engine, width: nat, of: Series, seen: seq<CheckRecord>, t: RollupTable, u: RollupTable, k: Cell)
    requires width > 0
  {
    var cell := ChecksIn(engine, width, of, seen, k);
    if cell != {} then
      && k in u && u[k].proxyId == k.0 && u[k].bucket == k.1
      && u[k].successCount == |SuccessesIn(engine, width, of, seen, k)|
      && u[k].failCount == |cell| - u[k].successCount
    else if engine.Memory? then k !in u
    else (k in u <==> k in t) && (k in u && k in t ==> u[k] == t[k])
  }

  /** A rebuild counts the checks of the last days by day. */
  lemma DaysRebuilt(engine: Engine, s: Tables, now: real, days: int, hours: int, of: Series, since: real, k: Cell)
    requires since == now - (days * 86400) as real
    ensures RebuiltRow(engine, 86400, of, Recent(s.checks, since), s.daily, Apply(engine, s, Rebuild(now, days, hours, of)).daily, k)
  {
    assert Back(now, days, DAY_SECONDS) == since;
    RebuiltOne(engine, Daily, of, s.daily, s.checks, since, k);
  }

  /** A rebuild counts the checks of the last hours by hour. */
  lemma HoursRebuilt(engine: Engine, s: Tables, now: real, days: int, hours: int, of: Series, since: real, k: Cell)
    requires since == now - (hours * 3600) as real
    ensures RebuiltRow(engine, 3600, of, Recent(s.checks, since), s.hourly, Apply(engine, s, Rebuild(now, days, hours, of)).hourly, k)
  {
    assert Back(now, hours, HOUR_SECONDS) == since;
    RebuiltOne(engine, Hourly, of, s.hourly, s.checks, since, k);
  }

  lemma RebuiltOne(engine: Engine, period: Period, of: Series, t: RollupTable, checks: seq<CheckRecord>, since: real, k: Cell)
    ensures RebuiltRow(engine, period.Width(), of, Recent(checks, since), t, Rebuilt(engine, period, of, t, checks, since), k)
  {
    RollupCounts(engine, period.Width(), of, Recent(checks, since), k);
  }

  lemma ShownIsVisible(width: nat, n: int, now: real, b: int)
    requires width > 0 && b >= Bucket(width, Back(now, n - 1, width))
    ensures Visible(width, n, now, b)
  {
    var start := Bucket(width, Back(now, n - 1, width));
    BucketBounds(width, Back(now, n - 1, width));
    assert (b - start) * width >= 0;
    assert (start + 1) * width == start * width + width && (n - 1) * width == n * width - width;
    assert b * width == (b - start) * width + start * width;
  }

  lemma VisibleSurvives(width: nat, b: int, cutoff: real)
    requires width > 0 && (b * width) as real >= cutoff
    ensures b >= Bucket(width, cutoff)
  {
    BucketBounds(width, cutoff);
    var start := Bucket(width, cutoff);
    MultipleIsFar(start - b, width);
    assert (start - b) * width == start * width - b * width;
  }

  lemma CellIsLate(engine: Engine, width: nat, series: Series, k: Cell, r: CheckRecord)
    requires width > 0 && InCell(engine, width, series, k)(r) && r.checkedAt >= 0.0
    ensures InCell(Memory, width, series, k)(r)
    ensures r.checkedAt >= (k.1 * width) as real
  {
    BucketsAgreeIff(width, r.checkedAt);
    BucketBounds(width, r.checkedAt);
  }

  /** On dated records both engines select the same rows of a cell, none before the cell's start. */
  lemma CellsAreLate(engine: Engine, width: nat, series: Series, k: Cell, records: seq<CheckRecord>)
    requires width > 0 && forall r | r in records :: r.checkedAt >= 0.0
    ensures forall r | r in records :: InCell(engine, width, series, k)(r) <==> InCell(Memory, width, series, k)(r)
    ensures forall r | r in records && InCell(engine, width, series, k)(r) :: r.checkedAt >= (k.1 * width) as real
  {
    forall r | r in records && InCell(engine, width, series, k)(r)
      ensures InCell(Memory, width, series, k)(r) && r.checkedAt >= (k.1 * width) as real
    {
      CellIsLate(engine, width, series, k, r);
    }
    forall r | r in records && InCell(Memory, width, series, k)(r) ensures InCell(engine, width, series, k)(r) {
      BucketsAgreeIff(width, r.checkedAt);
    }
  }

  lemma LongerWindow(now: real, n: int, span: int, width: nat)
    requires n <= span
    ensures Back(now, span, width) <= Back(now, n, width)
  {
    assert (span - n) * width >= 0 && span * width == (span - n) * width + n * width;
  }

  // ---- Pruned checks against the log.

  lemma RecentLater(records: seq<CheckRecord>, c: real, d: real)
    requires c <= d
    ensures Recent(Recent(records, c), d) == Recent(records, d)
  {
    FilterWeaker(Since(d), Since(c), records);
  }

  lemma RecentAgreeLater(xs: seq<CheckRecord>, ys: seq<CheckRecord>, c: real, d: real)
    requires c <= d && Recent(xs, c) == Recent(ys, c)
    ensures Recent(xs, d) == Recent(ys, d)
  {
    RecentLater(xs, c, d);
    RecentLater(ys, c, d);
  }

  /** Lists that agree from c on agree on every selection of records that are not before c. */
  lemma SelectRecent(p: CheckRecord -> bool, xs: seq<CheckRecord>, ys: seq<CheckRecord>, c: real)
    requires Recent(xs, c) == Recent(ys, c)
    requires forall r | (r in xs || r in ys) && p(r) :: r.checkedAt >= c
    ensures Filter(p, xs) == Filter(p, ys)
  {
    FilterWeaker(p, Since(c), xs);
    FilterWeaker(p, Since(c), ys);
  }

  ghost predicate AllDated(records: seq<CheckRecord>) {
    forall r | r in records :: r.checkedAt >= 0.0
  }

  /** The surviving checks are the log's, from the horizon on. */
  ghost predicate ChecksMatch(checks: seq<CheckRecord>, log: seq<CheckRecord>, now: real, horizon: real) {
    && Recent(checks, now - horizon) == Recent(log, now - horizon)
    && AllDated(checks) && AllDated(log)
  }

  lemma ChecksMatchRecord(checks: seq<CheckRecord>, log: seq<CheckRecord>, records: seq<CheckRecord>, now: real, horizon: real)
    requires ChecksMatch(checks, log, now, horizon) && AllDated(records)
    ensures ChecksMatch(checks + records, log + records, now, horizon)
  {
    FilterConcat(Since(now - horizon), checks, records);
    FilterConcat(Since(now - horizon), log, records);
  }

  lemma ChecksMatchPrune(checks: seq<CheckRecord>, log: seq<CheckRecord>, now: real, retainDays: int, horizon: real)
    requires ChecksMatch(checks, log, now, horizon) && Keeps(Prune(now, retainDays), horizon)
    ensures ChecksMatch(Recent(checks, Cutoff(now, retainDays)), log, now, horizon)
  {
    RecentLater(checks, Cutoff(now, retainDays), now - horizon);
  }

  lemma ChecksMatchLater(checks: seq<CheckRecord>, log: seq<CheckRecord>, now: real, later: real, horizon: real)
    requires ChecksMatch(checks, log, now, horizon) && now <= later
    ensures ChecksMatch(checks, log, later, horizon)
  {
    RecentAgreeLater(checks, log, now - horizon, later - horizon);
  }

  lemma {:induction false} ChecksMatchLog(engine: Engine, ops: seq<Op>, now: real, horizon: real)
    requires Timely(ops, now)
    requires forall i | 0 <= i < |ops| :: Dated(ops[i]) && Keeps(ops[i], horizon)
    ensures ChecksMatch(After(engine, ops).checks, Log(ops), now, horizon)
  {
    if ops != [] {
      var before, last := ops[..|ops| - 1], ops[|ops| - 1];
      var checks, log := After(engine, before).checks, Log(before);
      match last
      case Record(records) =>
        ChecksMatchLog(engine, before, now, horizon);
        ChecksMatchRecord(checks, log, records, now, horizon);
      case Rebuild(at, _, _, _) =>
        ChecksMatchLog(engine, before, at, horizon);
        ChecksMatchLater(checks, log, at, now, horizon);
      case Prune(at, retainDays) =>
        ChecksMatchLog(engine, before, at, horizon);
        ChecksMatchPrune(checks, log, at, retainDays, horizon);
        ChecksMatchLater(Recent(checks, Cutoff(at, retainDays)), log, at, now, horizon);
    }
  }

  /** Pruning is invisible to the rates: they equal those of the log that was never pruned. */
  lemma RatesFromLog(engine: Engine, ops: seq<Op>, id: string, now: real, of: Series)
    requires Timely(ops, now)
    requires forall i | 0 <= i < |ops| :: Dated(ops[i]) && Keeps(ops[i], (7 * DAY_SECONDS) as real)
    ensures Rates(After(engine, ops).checks, id, now, of) == Rates(Log(ops), id, now, of)
  {
    var week := now - (7 * DAY_SECONDS) as real;
    ChecksMatchLog(engine, ops, now, (7 * DAY_SECONDS) as real);
    forall since: real, ok | since >= week
      ensures CountWithin(After(engine, ops).checks, id, of, since, ok) == CountWithin(Log(ops), id, of, since, ok)
    {
      SelectRecent(Within(id, of, since, ok), After(engine, ops).checks, Log(ops), week);
    }
  }

  // ---- Rollups against the snapshot.

  /** From now on, a read of n buckets shows exactly the whole cells of the snapshot. */
  ghost predicate RollupsMatch(t: RollupTable, period: Period, series: Series, snapshot: seq<CheckRecord>, n: int, now: real) {
    forall k: Cell | Visible(period.Width(), n, now, k.1) ::
      SameEntry(t, Table(Memory, period.Width(), series, snapshot), k)
  }

  /** The rows a rebuild sees of a visible cell are all the rows the log has of it. */
  lemma VisibleRows(engine: Engine, period: Period, series: Series, s: Tables, log: seq<CheckRecord>, k: Cell, n: int, span: int, now: real, horizon: real)
    requires ChecksMatch(s.checks, log, now, horizon) && n <= span && (n * period.Width()) as real <= horizon
    requires Visible(period.Width(), n, now, k.1)
    ensures var w := period.Width();
            Rows(engine, w, series, Recent(s.checks, Back(now, span, w)), k) == Rows(Memory, w, series, log, k)
  {
    var w := period.Width();
    var p, q := InCell(engine, w, series, k), InCell(Memory, w, series, k);
    CellsAreLate(engine, w, series, k, s.checks);
    CellsAreLate(engine, w, series, k, log);
    LongerWindow(now, n, span, w);
    FilterWeaker(p, Since(Back(now, span, w)), s.checks);
    SelectRecent(p, s.checks, log, now - horizon);
    FilterSame(p, q, log);
  }

  lemma RebuildMatches(engine: Engine, period: Period, series: Series, s: Tables, snapshot: seq<CheckRecord>, log: seq<CheckRecord>, n: int, span: int, earlier: real, now: real, horizon: real)
    requires ChecksMatch(s.checks, log, now, horizon) && n <= span && (n * period.Width()) as real <= horizon
    requires snapshot <= log && earlier <= now
    requires RollupsMatch(s.Rollups(period), period, series, snapshot, n, earlier)
    ensures RollupsMatch(Rebuilt(engine, period, series, s.Rollups(period), s.checks, Back(now, span, period.Width())),
                         period, series, log, n, now)
  {
    var w := period.Width();
    var seen := Recent(s.checks, Back(now, span, w));
    forall k: Cell | Visible(w, n, now, k.1)
      ensures SameEntry(Rebuilt(engine, period, series, s.Rollups(period), s.checks, Back(now, span, w)), Table(Memory, w, series, log), k)
    {
      VisibleRows(engine, period, series, s, log, k, n, span, now, horizon);
      TableEntry(engine, w, series, seen, k);
      TableEntry(Memory, w, series, log, k);
      // A bucket kept from before has rows in the snapshot, hence in the log, hence was rebuilt.
      TableEntry(Memory, w, series, snapshot, k);
      assert log == snapshot + log[|snapshot|..];
      FilterConcat(InCell(Memory, w, series, k), snapshot, log[|snapshot|..]);
      assert Visible(w, n, earlier, k.1);
      assert SameEntry(s.Rollups(period), Table(Memory, w, series, snapshot), k);
    }
  }

  lemma PruneMatches(period: Period, series: Series, t: RollupTable, snapshot: seq<CheckRecord>, n: int, earlier: real, now: real, retainDays: int)
    requires (n * period.Width()) as real <= (Max(1, retainDays) * DAY_SECONDS) as real && earlier <= now
    requires RollupsMatch(t, period, series, snapshot, n, earlier)
    ensures RollupsMatch(From(t, Bucket(period.Width(), Cutoff(now, retainDays))), period, series, snapshot, n, now)
  {
    var w := period.Width();
    forall k: Cell | Visible(w, n, now, k.1)
      ensures SameEntry(From(t, Bucket(w, Cutoff(now, retainDays))), Table(Memory, w, series, snapshot), k)
    {
      VisibleSurvives(w, k.1, Cutoff(now, retainDays));
      assert Visible(w, n, earlier, k.1);
      assert SameEntry(t, Table(Memory, w, series, snapshot), k);
    }
  }

  lemma SnapshotIsPrefix(ops: seq<Op>)
    ensures Snapshot(ops) <= Log(ops)
  {
  }

  lemma {:induction false} RollupsMatchSnapshot(engine: Engine, series: Series, period: Period, ops: seq<Op>, n: int, now: real, horizon: real)
    requires Timely(ops, now) && Admissible(ops, series, period, n, horizon)
    requires (n * period.Width()) as real <= horizon
    ensures RollupsMatch(After(engine, ops).Rollups(period), period, series, Snapshot(ops), n, now)
  {
    if ops == [] {
    } else {
      var before, last := ops[..|ops| - 1], ops[|ops| - 1];
      var earlier := if last.Record? then now else last.now;
      var s := After(engine, before);
      RollupsMatchSnapshot(engine, series, period, before, n, earlier, horizon);
      match last
      case Record(_) =>
      case Rebuild(_, _, _, _) =>
        ChecksMatchLog(engine, before, earlier, horizon);
        SnapshotIsPrefix(before);
        RebuildMatches(engine, period, series, s, Snapshot(before), Log(before), n, last.Span(period), earlier, earlier, horizon);
        MatchLater(After(engine, ops).Rollups(period), period, series, Log(before), n, earlier, now);
      case Prune(_, retainDays) =>
        PruneMatches(period, series, s.Rollups(period), Snapshot(before), n, earlier, earlier, retainDays);
        MatchLater(After(engine, ops).Rollups(period), period, series, Snapshot(before), n, earlier, now);
    }
  }

  lemma MatchLater(t: RollupTable, period: Period, series: Series, snapshot: seq<CheckRecord>, n: int, earlier: real, now: real)
    requires earlier <= now && RollupsMatch(t, period, series, snapshot, n, earlier)
    ensures RollupsMatch(t, period, series, snapshot, n, now)
  {
    forall k: Cell | Visible(period.Width(), n, now, k.1) ensures SameEntry(t, Table(Memory, period.Width(), series, snapshot), k) {
      assert Visible(period.Width(), n, earlier, k.1);
    }
  }

  /**
   * No shown bucket is partial: a read of n buckets shows, for either engine, exactly what the
   * whole log as of the last rebuild has in the buckets it asks for.
   */
  lemma ShownIsWhole(engine: Engine, series: Series, period: Period, ops: seq<Op>, n: int, now: real, horizon: real)
    requires Timely(ops, now) && Admissible(ops, series, period, n, horizon)
    requires (n * period.Width()) as real <= horizon
    ensures Shown(After(engine, ops), period, n, now)
            == From(Table(Memory, period.Width(), series, Snapshot(ops)), Bucket(period.Width(), Back(now, n - 1, period.Width())))
  {
    var w := period.Width();
    var start := Bucket(w, Back(now, n - 1, w));
    var t, u := After(engine, ops).Rollups(period), Table(Memory, w, series, Snapshot(ops));
    RollupsMatchSnapshot(engine, series, period, ops, n, now, horizon);
    forall k: Cell ensures SameEntry(From(t, start), From(u, start), k) {
      if k.1 >= start {
        ShownIsVisible(w, n, now, k.1);
        assert SameEntry(t, u, k);
      }
    }
    SameTables(From(t, start), From(u, start));
  }

  // ---- The SQL store refines the in-memory store.

  lemma {:induction false} ChecksAgree(ops: seq<Op>)
    ensures After(Sqlite, ops).checks == After(Memory, ops).checks
  {
    if ops != [] {
      ChecksAgree(ops[..|ops| - 1]);
    }
  }

  lemma StoresAgree(series: Series, period: Period, ops: seq<Op>, n: int, now: real, horizon: real)
    requires Timely(ops, now) && Admissible(ops, series, period, n, horizon)
    requires (n * period.Width()) as real <= horizon
    ensures Shown(After(Sqlite, ops), period, n, now) == Shown(After(Memory, ops), period, n, now)
  {
    ShownIsWhole(Sqlite, series, period, ops, n, now, horizon);
    ShownIsWhole(Memory, series, period, ops, n, now, horizon);
  }

  /** A run whose rebuilds cover n buckets and whose prunes all retain the given number of days. */
  ghost predicate Retaining(ops: seq<Op>, series: Series, period: Period, n: int, retainDays: int) {
    forall i | 0 <= i < |ops| ::
      Dated(ops[i]) && Covers(ops[i], series, period, n) && (ops[i].Prune? ==> ops[i].retainDays == retainDays)
  }

  ghost predicate AlwaysAgree(series: Series, period: Period, n: int, retainDays: int) {
    forall ops: seq<Op>, now: real | Timely(ops, now) && Retaining(ops, series, period, n, retainDays) ::
      Shown(After(Sqlite, ops), period, n, now) == Shown(After(Memory, ops), period, n, now)
  }

  /** The stores show the same last n buckets on every run exactly when those fit into the retention. */
  lemma StoresAgreeIff(series: Series, period: Period, n: int, retainDays: int)
    ensures AlwaysAgree(series, period, n, retainDays) <==> n * period.Width() <= Max(1, retainDays) * DAY_SECONDS
  {
    if n * period.Width() <= Max(1, retainDays) * DAY_SECONDS {
      forall ops: seq<Op>, now: real | Timely(ops, now) && Retaining(ops, series, period, n, retainDays)
        ensures Shown(After(Sqlite, ops), period, n, now) == Shown(After(Memory, ops), period, n, now)
      {
        StoresAgree(series, period, ops, n, now, (Max(1, retainDays) * DAY_SECONDS) as real);
      }
    } else {
      var ops, now := StaleBucket(series, period, n, retainDays);
    }
  }

  const STALE: Cell := ("m", 0)

  function StaleCheck(series: Series): CheckRecord {
    CheckRecord("m", series, 0.0, true, None, None, None)
  }

  /**
   * A read window longer than the retention can show a stale bucket: one check at the start of
   * its bucket is rolled up, pruned a second after the retention ends, and rebuilt away in
   * memory, while SQLite keeps the bucket.
   */
  lemma StaleBucket(series: Series, period: Period, n: int, retainDays: int) returns (ops: seq<Op>, now: real)
    requires n * period.Width() > Max(1, retainDays) * DAY_SECONDS
    ensures Timely(ops, now) && Retaining(ops, series, period, n, retainDays)
    ensures Shown(After(Sqlite, ops), period, n, now) != Shown(After(Memory, ops), period, n, now)
  {
    now := (Max(1, retainDays) * DAY_SECONDS) as real + 1.0;
    var pruned := StalePruned(series, period, n, retainDays, now);
    ops := pruned + [Rebuild(now, n, n, series)];
    StillShown(period.Width(), n, retainDays, now);
    OneMoreRebuild(series, period, pruned, now, n, retainDays);
    RebuildForgets(series, period, pruned, now, n);
  }

  lemma StalePruned(series: Series, period: Period, n: int, retainDays: int, now: real) returns (ops: seq<Op>)
    requires n * period.Width() > Max(1, retainDays) * DAY_SECONDS
    requires now == (Max(1, retainDays) * DAY_SECONDS) as real + 1.0
    ensures Timely(ops, now) && Retaining(ops, series, period, n, retainDays)
    ensures forall engine: Engine :: After(engine, ops).checks == []
    ensures forall engine: Engine :: STALE in After(engine, ops).Rollups(period)
  {
    MultipleIsFar(n, period.Width());
    var rolled := StaleRollup(series, period, n, retainDays);
    ops := rolled + [Prune(now, retainDays)];
    assert ops[..|rolled|] == rolled;
    forall engine: Engine
      ensures After(engine, ops).checks == [] && STALE in After(engine, ops).Rollups(period)
    {
      PruneLeavesBucket(engine, series, period, rolled, now, retainDays);
    }
  }

  lemma StaleRollup(series: Series, period: Period, n: int, retainDays: int) returns (ops: seq<Op>)
    requires n >= 1
    ensures Retaining(ops, series, period, n, retainDays) && forall now | now >= 0.0 :: Timely(ops, now)
    ensures forall engine: Engine :: After(engine, ops).checks == [StaleCheck(series)]
    ensures forall engine: Engine :: STALE in After(engine, ops).Rollups(period)
  {
    var record, rebuild := Record([StaleCheck(series)]), Rebuild(0.0, n, n, series);
    ops := [record] + [rebuild];
    assert ops[..1] == [record] && [record][..0] == [];
    assert Timely([record], 0.0);
    forall engine: Engine
      ensures After(engine, ops).checks == [StaleCheck(series)] && STALE in After(engine, ops).Rollups(period)
    {
      assert After(engine, [record]).checks == [StaleCheck(series)];
      assert n * period.Width() >= 0;
      StaleRebuilt(engine, series, period, After(engine, [record]), rebuild);
    }
  }

  /** A rebuild whose window reaches back to the stale check counts it. */
  lemma StaleRebuilt(engine: Engine, series: Series, period: Period, s: Tables, op: Op)
    requires op.Rebuild? && op.of == series && Back(op.now, op.Span(period), period.Width()) <= 0.0
    requires s.checks == [StaleCheck(series)]
    ensures var t := Apply(engine, s, op);
            t.checks == [StaleCheck(series)] && STALE in t.Rollups(period) && CountOf(t.Rollups(period), STALE, true) == 1
  {
    var check, w := StaleCheck(series), period.Width();
    assert [] + [check] == [check];
    FilterAppend(Since(Back(op.now, op.Span(period), w)), [], check);
    assert Recent([check], Back(op.now, op.Span(period), w)) == [check];
    FilterAppend(InCell(engine, w, series, STALE), [], check);
    assert Rows(engine, w, series, [check], STALE) == [check];
    TableEntry(engine, w, series, [check], STALE);
    FilterAppend(Succeeded, [], check);
    assert Filter(Succeeded, [check]) == [check];
  }

  lemma PruneLeavesBucket(engine: Engine, series: Series, period: Period, before: seq<Op>, now: real, retainDays: int)
    requires var s := After(engine, before); s.checks == [StaleCheck(series)] && STALE in s.Rollups(period)
    requires Cutoff(now, retainDays) == 1.0
    ensures var s := After(engine, before + [Prune(now, retainDays)]); s.checks == [] && STALE in s.Rollups(period)
  {
    assert (before + [Prune(now, retainDays)])[..|before|] == before;
    assert Recent([StaleCheck(series)], 1.0) == Recent([], 1.0);
  }

  lemma OneMoreRebuild(series: Series, period: Period, before: seq<Op>, now: real, n: int, retainDays: int)
    requires Timely(before, now) && Retaining(before, series, period, n, retainDays)
    ensures Timely(before + [Rebuild(now, n, n, series)], now) && Retaining(before + [Rebuild(now, n, n, series)], series, period, n, retainDays)
  {
    assert (before + [Rebuild(now, n, n, series)])[..|before|] == before;
  }

  lemma RebuildForgets(series: Series, period: Period, before: seq<Op>, now: real, n: int)
    requires After(Sqlite, before).checks == After(Memory, before).checks == []
    requires STALE in After(Sqlite, before).Rollups(period)
    requires Bucket(period.Width(), Back(now, n - 1, period.Width())) <= 0
    ensures STALE in Shown(After(Sqlite, before + [Rebuild(now, n, n, series)]), period, n, now)
    ensures STALE !in Shown(After(Memory, before + [Rebuild(now, n, n, series)]), period, n, now)
  {
    assert (before + [Rebuild(now, n, n, series)])[..|before|] == before;
  }

  lemma StillShown(width: nat, n: int, retainDays: int, now: real)
    requires width == DAY_SECONDS || width == HOUR_SECONDS
    requires n * width > Max(1, retainDays) * DAY_SECONDS
    requires now == (Max(1, retainDays) * DAY_SECONDS) as real + 1.0
    ensures Bucket(width, Back(now, n - 1, width)) <= 0
  {
    assert (n - 1) * width >= Max(1, retainDays) * DAY_SECONDS;
    BucketBounds(width, Back(now, n - 1, width));
  }

}
