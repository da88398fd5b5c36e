/** The status detail of a member: the observation at which the two stores must agree. */
module ReadStatus {
  import opened Prelude
  import opened Sorting
  import opened Checks
  import opened Windows
  import opened Stores
  import opened Listings
  import opened History
  import PoolStates
  import Score
  import Selection
  import Sweeps
  import Undisturbed

  const HISTORY_LIMIT := 100

  datatype ProxyDetail = ProxyDetail(
    member: PoolStates.Member,
    preferred: bool,
    history: seq<CheckRecord>,
    daily: seq<Rollup>,
    hourly: seq<Rollup>)

  ghost predicate ShowsHistory(engine: Engine, checks: seq<CheckRecord>, id: string, rows: seq<CheckRecord>) {
    if engine.Memory? then rows == MemoryHistory(checks, id, Pool, HISTORY_LIMIT)
    else SqlHistory(checks, id, Pool, HISTORY_LIMIT, rows)
  }

  /** What the service answers about a member; it knows nothing of other ids. */
  ghost predicate ShowsDetail(engine: Engine, pool: PoolStates.PoolState, tables: Tables, id: string, now: real, d: Option<ProxyDetail>) {
    if id !in pool.members then d.None?
    else
      && d.Some? && d.value.member == pool.members[id]
      && (d.value.preferred <==> pool.choice.preferred == Some(id))
      && ShowsHistory(engine, tables.checks, id, d.value.history)
      && IsListing(d.value.daily, Shown(tables, Daily, 7, now), id)
      && IsListing(d.value.hourly, Shown(tables, Hourly, 24, now), id)
  }

  /** The row is one of the member in the table, of a bucket that was not over at an instant. */
  ghost predicate RowSince(t: RollupTable, width: nat, since: real, id: string, row: Rollup) {
    (id, row.bucket) in t && t[(id, row.bucket)] == row && (width * (row.bucket + 1)) as real > since
  }

  /**
   * A detail shows, in ascending order, exactly the member's rows of the days that were not over
   * 6 days ago and of the hours that were not over 23 hours ago, and its 100 newest pool checks.
   */
  lemma DetailRows(engine: Engine, pool: PoolStates.PoolState, tables: Tables, id: string, now: real, d: ProxyDetail, row: Rollup)
    requires id in pool.members && ShowsDetail(engine, pool, tables, id, now, Some(d)) && Keyed(tables.daily) && Keyed(tables.hourly)
    ensures row in d.daily <==> RowSince(tables.daily, 86400, now - 518400.0, id, row)
    ensures row in d.hourly <==> RowSince(tables.hourly, 3600, now - 82800.0, id, row)
    ensures var n := |set i | 0 <= i < |tables.checks| && tables.checks[i].proxyId == id && tables.checks[i].series == Pool|;
            |d.history| == if n < 100 then n else 100
    ensures forall i, j | 0 <= i < j < |d.history| :: d.history[i].checkedAt >= d.history[j].checkedAt
    ensures d.member == pool.members[id] && (d.preferred <==> pool.choice.preferred == Some(id))
  {
    ShownRows(tables, 7, now, (id, row.bucket));
    ShownRows(tables, 24, now, (id, row.bucket));
    ListedRow(d.daily, Shown(tables, Daily, 7, now), id, row);
    ListedRow(d.hourly, Shown(tables, Hourly, 24, now), id, row);
    NewestFirst(tables.checks, id, Pool, 100, d.history);
    AllUpToLimit(tables.checks, id, Pool, 100, d.history);
  }

  lemma ListedRow(rows: seq<Rollup>, t: RollupTable, id: string, row: Rollup)
    requires IsListing(rows, t, id)
    ensures row in rows <==> (id, row.bucket) in t && t[(id, row.bucket)] == row
  {
  }

  /** Two listings of one member, read from the two stores after the same run, have the same rows. */
  lemma RowsAgree(series: Series, period: Period, ops: seq<Op>, n: int, now: real, horizon: real, id: string, xs: seq<Rollup>, ys: seq<Rollup>)
    requires Timely(ops, now) && Admissible(ops, series, period, n, horizon)
    requires (n * period.Width()) as real <= horizon
    requires IsListing(xs, Shown(After(Sqlite, ops), period, n, now), id)
    requires IsListing(ys, Shown(After(Memory, ops), period, n, now), id)
    ensures xs == ys
  {
    StoresAgree(series, period, ops, n, now, horizon);
    AscendingUnique(xs, ys);
  }

  const WEEK: real := (7 * DAY_SECONDS) as real

  lemma SweepsAdmissible(ops: seq<Op>, retainDays: int, period: Period, n: int, horizon: real)
    requires Sweeps.WrittenBySweeps(ops, retainDays) && horizon <= (Max(1, retainDays) * DAY_SECONDS) as real
    requires n <= if period.Daily? then 7 else 48
    ensures Admissible(ops, Pool, period, n, horizon)
  {
  }

  /** s is where the steps lead from the start. */
  ghost predicate Reaches(c: Sweeps.Config, steps: seq<Sweeps.Step>, s: Sweeps.System) {
    NoDuplicates(c.ids) && Sweeps.Possible(c, steps) && Sweeps.AfterSteps(c, steps) == s
  }

  /**
   * With 7 days of retention the detail of any member is the same from either store, in every
   * interleaving: its state, whether it is preferred, its rows, the instants of its history, and
   * the history itself unless two of its checks coincide.
   */
  lemma DetailAgrees(c: Sweeps.Config, steps: seq<Sweeps.Step>, s: Sweeps.System, t: Sweeps.System, now: real, id: string,
                     a: Option<ProxyDetail>, b: Option<ProxyDetail>)
    requires Reaches(c.(engine := Sqlite), steps, s) && Reaches(c.(engine := Memory), steps, t)
    requires Sweeps.WellClocked(steps, now) && c.retainDays >= 7
    requires ShowsDetail(Sqlite, s.pool, s.tables, id, now, a) && ShowsDetail(Memory, t.pool, t.tables, id, now, b)
    ensures a.Some? <==> b.Some?
    ensures a.Some? ==>
              && a.value.member == b.value.member && a.value.preferred == b.value.preferred
              && a.value.daily == b.value.daily && a.value.hourly == b.value.hourly
              && Instants(a.value.history) == Instants(b.value.history)
              && (Antisymmetric(LatestFirst, Filter(Belongs(id, Pool), s.tables.checks)) ==> a == b)
  {
    SystemsAlike(c, steps, s, t, now);
    if id in s.pool.members {
      SweepsAdmissible(s.journal, c.retainDays, Daily, 7, WEEK);
      SweepsAdmissible(s.journal, c.retainDays, Hourly, 24, WEEK);
      RowsAgree(Pool, Daily, s.journal, 7, now, WEEK, id, a.value.daily, b.value.daily);
      RowsAgree(Pool, Hourly, s.journal, 24, now, WEEK, id, a.value.hourly, b.value.hourly);
      HistoriesAgree(s.tables.checks, id, Pool, HISTORY_LIMIT, a.value.history);
    }
  }

  lemma SystemsAlike(c: Sweeps.Config, steps: seq<Sweeps.Step>, s: Sweeps.System, t: Sweeps.System, now: real)
    requires Reaches(c.(engine := Sqlite), steps, s) && Reaches(c.(engine := Memory), steps, t)
    requires Sweeps.WellClocked(steps, now)
    ensures s.pool == t.pool && s.journal == t.journal && s.tables.checks == t.tables.checks
    ensures s.tables == After(Sqlite, s.journal) && t.tables == After(Memory, s.journal)
    ensures Timely(s.journal, now) && Sweeps.WrittenBySweeps(s.journal, c.retainDays)
  {
    Sweeps.EnginesRunAlike(c.(engine := Sqlite), Memory, steps);
    Sweeps.RunsAreJournalled(c.(engine := Sqlite), steps, now);
    Sweeps.RunsAreJournalled(c.(engine := Memory), steps, now);
    assert c.(engine := Sqlite).(engine := Memory) == c.(engine := Memory);
  }

  // ---- Seven days of retention are needed.

  /** The stores show the same 7 days and 24 hours after a run of the store. */
  ghost predicate SameRows(ops: seq<Op>, now: real) {
    && Shown(After(Sqlite, ops), Daily, 7, now) == Shown(After(Memory, ops), Daily, 7, now)
    && Shown(After(Sqlite, ops), Hourly, 24, now) == Shown(After(Memory, ops), Hourly, 24, now)
  }

  ghost predicate AlwaysSameRows(retainDays: int) {
    forall c: Sweeps.Config, steps: seq<Sweeps.Step>, s: Sweeps.System, now: real
      | c.retainDays == retainDays && Reaches(c, steps, s) && Sweeps.WellClocked(steps, now) :: SameRows(s.journal, now)
  }

  /** Details show the same rows from either store in every run of the system exactly when 7 days are retained. */
  lemma DetailAgreesIff(retainDays: int)
    ensures AlwaysSameRows(retainDays) <==> retainDays >= 7
  {
    if retainDays >= 7 {
      forall c: Sweeps.Config, steps: seq<Sweeps.Step>, s: Sweeps.System, now: real
        | c.retainDays == retainDays && Reaches(c, steps, s) && Sweeps.WellClocked(steps, now)
        ensures SameRows(s.journal, now)
      {
        Sweeps.RunsAreJournalled(c, steps, now);
        SweepsAdmissible(s.journal, retainDays, Daily, 7, WEEK);
        SweepsAdmissible(s.journal, retainDays, Hourly, 24, WEEK);
        StoresAgree(Pool, Daily, s.journal, 7, now, WEEK);
        StoresAgree(Pool, Hourly, s.journal, 24, now, WEEK);
      }
    } else {
      var c, steps, s, now := StaleSystem(retainDays);
    }
  }

  /** The defaults of the settings. */
  const POLICIES := PoolStates.Policies(
    Score.ScoringPolicy(0.35, 0.2, 0.15, 0.1, 0.2, 2000.0), Selection.SelectionPolicy(2, 1, 0.05, 1))

  function Answer(t: real): ProbeOutcome {
    ProbeOutcome(true, None, None, None, t)
  }

  function CheckAt(t: real): CheckRecord {
    CheckRecord("m", Pool, t, true, None, None, None)
  }

  /** What one sweep adds to the journal. */
  function Round(ops: seq<Op>, rows: seq<CheckRecord>, now: real, retainDays: int): seq<Op> {
    ops + [Record(rows)] + [Rebuild(now, 7, 48, Pool)] + [Prune(now, retainDays)]
  }

  /** A round makes of the store what a sweep makes of it. */
  lemma RoundApplies(engine: Engine, ops: seq<Op>, rows: seq<CheckRecord>, now: real, retainDays: int)
    ensures After(engine, Round(ops, rows, now, retainDays))
            == Undisturbed.SweptTables(engine, After(engine, ops), rows, now, retainDays)
    ensures Timely(ops, now) ==> Timely(Round(ops, rows, now, retainDays), now)
  {
    var recorded := ops + [Record(rows)];
    var rebuilt := recorded + [Rebuild(now, 7, 48, Pool)];
    OneMore(engine, ops, Record(rows), now);
    OneMore(engine, recorded, Rebuild(now, 7, 48, Pool), now);
    OneMore(engine, rebuilt, Prune(now, retainDays), now);
  }

  /** A bucket that SQLite has is kept by a sweep that does not prune it. */
  lemma RoundKeeps(s: Tables, rows: seq<CheckRecord>, now: real, retainDays: int)
    requires STALE in s.daily && Bucket(DAY_SECONDS, Cutoff(now, retainDays)) <= 0
    ensures STALE in Undisturbed.SweptTables(Sqlite, s, rows, now, retainDays).daily
  {
  }

  /** Memory has no bucket of a day without checks. */
  lemma RoundForgets(s: Tables, rows: seq<CheckRecord>, now: real, retainDays: int)
    requires forall r | r in s.checks + rows :: Bucket(DAY_SECONDS, r.checkedAt) != 0
    ensures STALE !in Undisturbed.SweptTables(Memory, s, rows, now, retainDays).daily
  {
  }

  lemma FirstRound(retainDays: int)
    ensures STALE in Undisturbed.SweptTables(Sqlite, EMPTY, [CheckAt(0.0)], 0.0, retainDays).daily
  {
    var s := Apply(Sqlite, EMPTY, Record([CheckAt(0.0)]));
    assert [] + [CheckAt(0.0)] == [CheckAt(0.0)] == [StaleCheck(Pool)];
    StaleRebuilt(Sqlite, Pool, Daily, s, Rebuild(0.0, 7, 48, Pool));
    VisibleSurvives(DAY_SECONDS, 0, Cutoff(0.0, retainDays));
  }

  /** A second after the retention of the first check ends, on a later day. */
  function Late(retainDays: int): real {
    (Max(1, retainDays) * DAY_SECONDS) as real + 1.0
  }

  lemma LateBuckets(retainDays: int)
    requires retainDays < 7
    ensures Cutoff(Late(retainDays), retainDays) == 1.0 && Bucket(DAY_SECONDS, 1.0) == 0
    ensures Bucket(DAY_SECONDS, Late(retainDays)) != 0
    ensures Bucket(DAY_SECONDS, Back(Late(retainDays), 6, DAY_SECONDS)) <= 0
  {
    BucketBounds(DAY_SECONDS, Late(retainDays));
    BucketBounds(DAY_SECONDS, Back(Late(retainDays), 6, DAY_SECONDS));
  }

  /** Three sweeps of the journal: the second, late one prunes the first check, and the third rebuilds. */
  function StaleJournal(retainDays: int): seq<Op> {
    var late := Late(retainDays);
    Round(Round(Round([], [CheckAt(0.0)], 0.0, retainDays), [CheckAt(late)], late, retainDays), [CheckAt(late)], late, retainDays)
  }

  lemma SqlKeepsStale(retainDays: int)
    requires retainDays < 7
    ensures STALE in After(Sqlite, StaleJournal(retainDays)).daily
  {
    var late := Late(retainDays);
    var one := Round([], [CheckAt(0.0)], 0.0, retainDays);
    var two := Round(one, [CheckAt(late)], late, retainDays);
    LateBuckets(retainDays);
    RoundApplies(Sqlite, [], [CheckAt(0.0)], 0.0, retainDays);
    FirstRound(retainDays);
    RoundApplies(Sqlite, one, [CheckAt(late)], late, retainDays);
    RoundKeeps(After(Sqlite, one), [CheckAt(late)], late, retainDays);
    RoundApplies(Sqlite, two, [CheckAt(late)], late, retainDays);
    RoundKeeps(After(Sqlite, two), [CheckAt(late)], late, retainDays);
  }

  /** After the late sweep all that is left are late checks. */
  lemma LateChecks(engine: Engine, retainDays: int)
    requires retainDays < 7
    ensures var late := Late(retainDays);
            var two := Round(Round([], [CheckAt(0.0)], 0.0, retainDays), [CheckAt(late)], late, retainDays);
            forall r | r in After(engine, two).checks :: r == CheckAt(late)
  {
    var late := Late(retainDays);
    var one := Round([], [CheckAt(0.0)], 0.0, retainDays);
    LateBuckets(retainDays);
    RoundApplies(engine, [], [CheckAt(0.0)], 0.0, retainDays);
    Undisturbed.SweptTablesChecks(engine, EMPTY, [CheckAt(0.0)], 0.0, retainDays);
    RoundApplies(engine, one, [CheckAt(late)], late, retainDays);
    Undisturbed.SweptTablesChecks(engine, After(engine, one), [CheckAt(late)], late, retainDays);
  }

  lemma MemoryForgetsStale(retainDays: int)
    requires retainDays < 7
    ensures STALE !in After(Memory, StaleJournal(retainDays)).daily
  {
    var late := Late(retainDays);
    var two := Round(Round([], [CheckAt(0.0)], 0.0, retainDays), [CheckAt(late)], late, retainDays);
    LateBuckets(retainDays);
    LateChecks(Memory, retainDays);
    RoundApplies(Memory, two, [CheckAt(late)], late, retainDays);
    RoundForgets(After(Memory, two), [CheckAt(late)], late, retainDays);
  }

  lemma SweptJournal(c: Sweeps.Config, s: Sweeps.System, at: real)
    requires c.ids == ["m"]
    ensures var t := Undisturbed.Swept(c, s, [Answer(at)], at, 1.0);
            t.sweep.Idle? && t.journal == Round(s.journal, [CheckAt(at)], at, c.retainDays)
  {
    assert Sweeps.PoolRecords(c.ids, [Answer(at)]) == [CheckAt(at)];
  }

  lemma SweepReaches(c: Sweeps.Config, steps: seq<Sweeps.Step>, s: Sweeps.System, at: real)
    requires c.ids == ["m"] && Reaches(c, steps, s) && s.sweep.Idle?
    ensures Reaches(c, steps + Undisturbed.SweepSteps([Answer(at)], at, 1.0), Undisturbed.Swept(c, s, [Answer(at)], at, 1.0))
  {
    Undisturbed.SweepContinues(c, steps, [Answer(at)], at, 1.0);
  }

  /** One more sweep of a one-member system at rest. */
  lemma AnotherSweep(c: Sweeps.Config, steps: seq<Sweeps.Step>, s: Sweeps.System, earlier: real, at: real)
    returns (steps': seq<Sweeps.Step>, t: Sweeps.System)
    requires c.ids == ["m"] && Reaches(c, steps, s) && s.sweep.Idle?
    requires Sweeps.WellClocked(steps, earlier) && 0.0 <= earlier <= at
    ensures Reaches(c, steps', t) && t.sweep.Idle? && Sweeps.WellClocked(steps', at)
    ensures t.journal == Round(s.journal, [CheckAt(at)], at, c.retainDays)
  {
    Sweeps.ClockLater(steps, earlier, at);
    Undisturbed.SweepWellClocked(steps, [Answer(at)], at, 1.0);
    SweepReaches(c, steps, s, at);
    SweptJournal(c, s, at);
    steps', t := steps + Undisturbed.SweepSteps([Answer(at)], at, 1.0), Undisturbed.Swept(c, s, [Answer(at)], at, 1.0);
  }

  /** With less than 7 days of retention, three sweeps of one member tell the stores apart. */
  lemma StaleSystem(retainDays: int) returns (c: Sweeps.Config, steps: seq<Sweeps.Step>, s: Sweeps.System, now: real)
    requires retainDays < 7
    ensures c.retainDays == retainDays && Reaches(c, steps, s) && Sweeps.WellClocked(steps, now) && !SameRows(s.journal, now)
  {
    c, steps, now := Sweeps.Config(["m"], POLICIES, retainDays, Sqlite, false), [], Late(retainDays);
    s := Sweeps.AfterSteps(c, steps);
    steps, s := AnotherSweep(c, steps, s, 0.0, 0.0);
    steps, s := AnotherSweep(c, steps, s, 0.0, now);
    steps, s := AnotherSweep(c, steps, s, now, now);
    assert s.journal == StaleJournal(retainDays);
    SqlKeepsStale(retainDays);
    MemoryForgetsStale(retainDays);
    LateBuckets(retainDays);
    assert STALE in Shown(After(Sqlite, s.journal), Daily, 7, now);
  }

  // ---- Days and hours.

  /** Today's and yesterday's counts are the sums of the counts of their stored hours. */
  ghost predicate HoursMatch(s: Tables, now: real) {
    forall id, day, ok | Bucket(DAY_SECONDS, now) - 1 <= day <= Bucket(DAY_SECONDS, now) ::
      CountOf(s.daily, (id, day), ok) == HoursTotal(s.hourly, id, day, 24, ok)
  }

  const TWO_DAYS: real := (2 * DAY_SECONDS) as real

  /**
   * With two days of retention, whenever the rollups of either store are read, the successes and
   * failures of today and of yesterday are the sums over their hours.
   */
  lemma TodayAndYesterdayAreTheirHours(engine: Engine, ops: seq<Op>, now: real, retainDays: int)
    requires Timely(ops, now) && Sweeps.WrittenBySweeps(ops, retainDays) && retainDays >= 2
    ensures HoursMatch(After(engine, ops), now)
  {
    SweepsAdmissible(ops, retainDays, Daily, 2, TWO_DAYS);
    SweepsAdmissible(ops, retainDays, Hourly, 48, TWO_DAYS);
    RollupsMatchSnapshot(engine, Pool, Daily, ops, 2, now, TWO_DAYS);
    RollupsMatchSnapshot(engine, Pool, Hourly, ops, 48, now, TWO_DAYS);
    forall id, day, ok | Bucket(DAY_SECONDS, now) - 1 <= day <= Bucket(DAY_SECONDS, now)
      ensures CountOf(After(engine, ops).daily, (id, day), ok) == HoursTotal(After(engine, ops).hourly, id, day, 24, ok)
    {
      DayMatches(After(engine, ops), Snapshot(ops), now, id, day, ok);
    }
  }

  lemma DayMatches(s: Tables, log: seq<CheckRecord>, now: real, id: string, day: int, ok: bool)
    requires RollupsMatch(s.daily, Daily, Pool, log, 2, now) && RollupsMatch(s.hourly, Hourly, Pool, log, 48, now)
    requires Bucket(DAY_SECONDS, now) - 1 <= day <= Bucket(DAY_SECONDS, now)
    ensures CountOf(s.daily, (id, day), ok) == HoursTotal(s.hourly, id, day, 24, ok)
  {
    BucketBounds(DAY_SECONDS, now);
    assert Visible(DAY_SECONDS, 2, now, day);
    assert SameEntry(s.daily, Table(Memory, DAY_SECONDS, Pool, log), (id, day));
    forall h: int | 24 * day <= h < 24 * day + 24
      ensures CountOf(s.hourly, (id, h), ok) == CountOf(Table(Memory, HOUR_SECONDS, Pool, log), (id, h), ok)
    {
      assert Visible(HOUR_SECONDS, 48, now, h);
      assert SameEntry(s.hourly, Table(Memory, HOUR_SECONDS, Pool, log), (id, h));
    }
    SameHours(s.hourly, Table(Memory, HOUR_SECONDS, Pool, log), id, day, 24, ok);
    DayIsItsHours(Pool, log, id, day, ok);
  }

  lemma {:induction false} SameHours(t: RollupTable, u: RollupTable, id: string, day: int, n: nat, ok: bool)
    requires forall h: int | 24 * day <= h < 24 * day + n :: CountOf(t, (id, h), ok) == CountOf(u, (id, h), ok)
    ensures HoursTotal(t, id, day, n, ok) == HoursTotal(u, id, day, n, ok)
  {
    if n > 0 {
      SameHours(t, u, id, day, n - 1, ok);
    }
  }

  ghost predicate AlwaysHoursMatch(engine: Engine, retainDays: int) {
    forall ops: seq<Op>, now: real | Timely(ops, now) && Sweeps.WrittenBySweeps(ops, retainDays) :: HoursMatch(After(engine, ops), now)
  }

  /** Two days are needed: with one, a prune takes hours of yesterday and leaves the day. */
  lemma HoursMatchIff(engine: Engine, retainDays: int)
    ensures AlwaysHoursMatch(engine, retainDays) <==> retainDays >= 2
  {
    if retainDays >= 2 {
      forall ops: seq<Op>, now: real | Timely(ops, now) && Sweeps.WrittenBySweeps(ops, retainDays)
        ensures HoursMatch(After(engine, ops), now)
      {
        TodayAndYesterdayAreTheirHours(engine, ops, now, retainDays);
      }
    } else {
      var ops, now := LostHours(engine, retainDays);
    }
  }

  /** A prune in the first day's second hour keeps the day and drops its first hour. */
  lemma FirstHourPruned(engine: Engine, t: Tables, now: real, retainDays: int)
    requires Cutoff(now, retainDays) == HOUR_SECONDS as real
    requires CountOf(t.daily, STALE, true) == 1 && forall k | k in t.hourly :: k.1 == 0
    ensures var u := Apply(engine, t, Prune(now, retainDays)); CountOf(u.daily, STALE, true) == 1 && u.hourly == map[]
  {
    assert Bucket(DAY_SECONDS, HOUR_SECONDS as real) == 0 && Bucket(HOUR_SECONDS, HOUR_SECONDS as real) == 1;
  }

  lemma FirstHourCounted(engine: Engine, now: real)
    requires now == (DAY_SECONDS + HOUR_SECONDS) as real
    ensures var t := Apply(engine, Apply(engine, EMPTY, Record([CheckAt(0.0)])), Rebuild(now, 7, 48, Pool));
            CountOf(t.daily, STALE, true) == 1 && forall k | k in t.hourly :: k.1 == 0
  {
    var s, rebuild := Apply(engine, EMPTY, Record([CheckAt(0.0)])), Rebuild(now, 7, 48, Pool);
    assert [] + [CheckAt(0.0)] == [CheckAt(0.0)] == [StaleCheck(Pool)];
    StaleRebuilt(engine, Pool, Daily, s, rebuild);
    OneHour(engine, s, rebuild);
  }

  /** A check in the first hour of yesterday is counted by the day and, after the prune, by no hour. */
  lemma LostHour(engine: Engine, now: real, retainDays: int)
    requires retainDays < 2 && now == (DAY_SECONDS + HOUR_SECONDS) as real
    ensures var s := Undisturbed.SweptTables(engine, EMPTY, [CheckAt(0.0)], now, retainDays);
            CountOf(s.daily, STALE, true) == 1 && s.hourly == map[]
  {
    FirstHourCounted(engine, now);
    FirstHourPruned(engine, Apply(engine, Apply(engine, EMPTY, Record([CheckAt(0.0)])), Rebuild(now, 7, 48, Pool)), now, retainDays);
  }

  lemma OneHour(engine: Engine, s: Tables, rebuild: Op)
    requires s.checks == [CheckAt(0.0)] && s.hourly == map[] && rebuild.Rebuild?
    ensures forall k | k in Apply(engine, s, rebuild).hourly :: k.1 == 0
  {
    var seen := Recent(s.checks, Back(rebuild.now, rebuild.hours, HOUR_SECONDS));
    assert forall r | r in seen :: r == CheckAt(0.0);
    assert BucketOf(engine, HOUR_SECONDS, 0.0) == 0;
    CellsOfOne(engine, rebuild.of, seen);
  }

  lemma CellsOfOne(engine: Engine, series: Series, seen: seq<CheckRecord>)
    requires forall r | r in seen :: BucketOf(engine, HOUR_SECONDS, r.checkedAt) == 0
    ensures forall k | k in Table(engine, HOUR_SECONDS, series, seen) :: k.1 == 0
  {
  }

  lemma {:induction false} NoHours(id: string, day: int, n: nat, ok: bool)
    ensures HoursTotal(map[], id, day, n, ok) == 0
  {
    if n > 0 {
      NoHours(id, day, n - 1, ok);
    }
  }

  lemma Mismatch(s: Tables, now: real)
    requires CountOf(s.daily, STALE, true) == 1 && s.hourly == map[] && now == (DAY_SECONDS + HOUR_SECONDS) as real
    ensures !HoursMatch(s, now)
  {
    assert Bucket(DAY_SECONDS, now) == 1;
    NoHours("m", 0, 24, true);
    assert CountOf(s.daily, ("m", 0), true) != HoursTotal(s.hourly, "m", 0, 24, true);
  }

  lemma RoundWritten(now: real, retainDays: int)
    ensures Sweeps.WrittenBySweeps(Round([], [CheckAt(0.0)], now, retainDays), retainDays)
  {
  }

  lemma LostHours(engine: Engine, retainDays: int) returns (ops: seq<Op>, now: real)
    requires retainDays < 2
    ensures Timely(ops, now) && Sweeps.WrittenBySweeps(ops, retainDays) && !HoursMatch(After(engine, ops), now)
  {
    now := (DAY_SECONDS + HOUR_SECONDS) as real;
    ops := Round([], [CheckAt(0.0)], now, retainDays);
    RoundWritten(now, retainDays);
    RoundApplies(engine, [], [CheckAt(0.0)], now, retainDays);
    LostHour(engine, now, retainDays);
    Mismatch(Undisturbed.SweptTables(engine, EMPTY, [CheckAt(0.0)], now, retainDays), now);
  }
}
