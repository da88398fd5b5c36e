/** The SQLite check store: tables changed by INSERT, upsert and DELETE, and its read queries. */
module SqlStore {
  import opened Prelude
  import opened Sorting
  import opened Checks
  import opened Windows
  import opened Stores
  import opened Listings
  import opened History

  function Selected(id: string, series: Series, since: real): CheckRecord -> bool {
    (r: CheckRecord) => r.series == series && r.checkedAt >= since && r.proxyId == id
  }

  /** `SUM(CASE WHEN checked_at >= since AND success = 1 THEN 1 ELSE 0 END)` over a group. */
  function SuccessSince(since: real): CheckRecord -> bool {
    (r: CheckRecord) => r.checkedAt >= since && r.success
  }

  /** The aggregate row of one group of the success-rate query. */
  function RateRow(group: seq<CheckRecord>, now: real): SuccessRates {
    var hour, day := now - HOUR_SECONDS as real, now - DAY_SECONDS as real;
    Checks.SuccessRates(
      |Filter(SuccessSince(day), group)|, |Filter(Since(day), group)|,
      |Filter(Succeeded, group)|, |group|,
      |Filter(SuccessSince(hour), group)|, |Filter(Since(hour), group)|)
  }

  /** Grouping and conditional sums count what the definition of the rates counts. */
  lemma RateRowIsRates(checks: seq<CheckRecord>, id: string, now: real, series: Series)
    ensures RateRow(Filter(Selected(id, series, now - (7 * DAY_SECONDS) as real), checks), now) == Rates(checks, id, now, series)
  {
    var hour, day, week := now - HOUR_SECONDS as real, now - DAY_SECONDS as real, now - (7 * DAY_SECONDS) as real;
    SelectedSince(checks, id, series, week, day);
    SelectedSince(checks, id, series, week, hour);
    var p := Selected(id, series, week);
    FilterBoth(p, Succeeded, Within(id, series, week, true), checks);
    FilterSame(p, Within(id, series, week, false), checks);
  }

  lemma SelectedSince(checks: seq<CheckRecord>, id: string, series: Series, week: real, since: real)
    requires since >= week
    ensures var group := Filter(Selected(id, series, week), checks);
            && |Filter(SuccessSince(since), group)| == CountWithin(checks, id, series, since, true)
            && |Filter(Since(since), group)| == CountWithin(checks, id, series, since, false)
  {
    var p := Selected(id, series, week);
    FilterBoth(p, SuccessSince(since), Within(id, series, since, true), checks);
    FilterBoth(p, Since(since), Within(id, series, since, false), checks);
  }

  /** A member without rows in the window keeps the zero rates of `empty`. */
  lemma NoRowsNoRates(checks: seq<CheckRecord>, id: string, now: real, series: Series)
    requires Filter(Selected(id, series, now - (7 * DAY_SECONDS) as real), checks) == []
    ensures Rates(checks, id, now, series) == NO_RATES
  {
    RateRowIsRates(checks, id, now, series);
  }

  /** The rows of a table in the unspecified order in which a query without ORDER BY visits them. */
  method Visit(t: RollupTable) returns (cells: seq<Cell>)
    ensures NoDuplicates(cells) && forall k :: k in cells <==> k in t
  {
    cells := [];
    var left := t.Keys;
    while left != {}
      invariant NoDuplicates(cells) && left <= t.Keys
      invariant forall k :: k in cells <==> k in t && k !in left
      decreases |left|
    {
      var k :| k in left;
      cells := cells + [k];
      left := left - {k};
    }
  }

  /** `SELECT ... WHERE day >= :start ORDER BY day ASC`, grouped by member. */
  method ListSince(t: RollupTable, start: int) returns (lists: RowLists)
    requires Keyed(t)
    ensures Lists(lists, From(t, start))
  {
    var selected := From(t, start);
    var cells := Visit(selected);
    CellOrders();
    SortedCellsAscend(BucketLe, cells);
    lists := GroupRows(Sort(BucketLe, cells), selected);
  }

  class SqliteCheckStore {
    var checks: seq<CheckRecord>
    var daily: RollupTable
    var hourly: RollupTable

    ghost function State(): Tables
      reads this
    {
      Tables(checks, daily, hourly)
    }

    ghost predicate Valid()
      reads this
    {
      Keyed(daily) && Keyed(hourly)
    }

    constructor ()
      ensures Valid() && State() == EMPTY
    {
      checks, daily, hourly := [], map[], map[];
    }

    method Record(rows: seq<CheckRecord>)
      requires Valid()
      modifies this
      ensures Valid() && State() == Apply(Sqlite, old(State()), Op.Record(rows))
    {
      if rows == [] {
        return;
      }
      checks := checks + rows;
    }

    method SuccessRates(proxyIds: seq<string>, now: real, of: Series) returns (found: map<string, Checks.SuccessRates>)
      requires Valid()
      ensures found.Keys == set id | id in proxyIds
      ensures forall id | id in proxyIds :: found[id] == Rates(State().checks, id, now, of)
    {
      var week := now - (7 * DAY_SECONDS) as real;
      found := map id | id in proxyIds :: NO_RATES;
      for i := 0 to |proxyIds|
        invariant found.Keys == set id | id in proxyIds
        invariant forall id | id in proxyIds[..i] :: found[id] == Rates(checks, id, now, of)
      {
        var id := proxyIds[i];
        var group := Filter(Selected(id, of, week), checks);
        RateRowIsRates(checks, id, now, of);
        if group != [] {
          found := found[id := RateRow(group, now)];
        } else {
          NoRowsNoRates(checks, id, now, of);
          found := found[id := NO_RATES];
        }
        assert proxyIds[..i + 1] == proxyIds[..i] + [id];
      }
      assert proxyIds[..|proxyIds|] == proxyIds;
    }

    method RebuildRollups(now: real, days: int, hours: int, of: Series)
      requires Valid()
      modifies this
      ensures Valid() && State() == Apply(Sqlite, old(State()), Rebuild(now, days, hours, of))
    {
      TableKeyed(Sqlite, DAY_SECONDS, of, Recent(checks, Back(now, days, DAY_SECONDS)));
      TableKeyed(Sqlite, HOUR_SECONDS, of, Recent(checks, Back(now, hours, HOUR_SECONDS)));
      daily := daily + Table(Sqlite, DAY_SECONDS, of, Recent(checks, Back(now, days, DAY_SECONDS)));
      hourly := hourly + Table(Sqlite, HOUR_SECONDS, of, Recent(checks, Back(now, hours, HOUR_SECONDS)));
    }

    method DailySince(days: int, now: real) returns (lists: RowLists)
      requires Valid()
      ensures Lists(lists, Shown(State(), Daily, days, now))
    {
      lists := ListSince(daily, Bucket(DAY_SECONDS, Back(now, days - 1, DAY_SECONDS)));
    }

    method HourlySince(hours: int, now: real) returns (lists: RowLists)
      requires Valid()
      ensures Lists(lists, Shown(State(), Hourly, hours, now))
    {
      lists := ListSince(hourly, Bucket(HOUR_SECONDS, Back(now, hours - 1, HOUR_SECONDS)));
    }

    method HistoryOf(id: string, of: Series, limit: int) returns (rows: seq<CheckRecord>)
      requires Valid()
      ensures SqlHistory(State().checks, id, of, limit, rows)
    {
      var matched := Filter(Belongs(id, of), checks);
      var ordered := Sort(LatestFirst, matched);
      SortSorts(LatestFirst, matched);
      assert Arranges(ordered, matched);
      rows := Limit(ordered, limit);
    }

    method Prune(now: real, retainDays: int) returns (removed: nat)
      requires Valid()
      modifies this
      ensures Valid() && State() == Apply(Sqlite, old(State()), Op.Prune(now, retainDays))
      ensures removed == |old(State()).checks| - |State().checks|
    {
      var cutoff := Cutoff(now, retainDays);
      var kept := Recent(checks, cutoff);
      removed := |checks| - |kept|;
      checks := kept;
      daily := From(daily, Bucket(DAY_SECONDS, cutoff));
      hourly := From(hourly, Bucket(HOUR_SECONDS, cutoff));
    }
  }
}
