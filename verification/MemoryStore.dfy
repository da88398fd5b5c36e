/** The in-memory check store, and the grouping that rebuilds its rollups. */
module MemoryStore {
  import opened Prelude
  import opened Sorting
  import opened Checks
  import opened Windows
  import opened Stores
  import opened Listings
  import opened History

  type Groups = map<Cell, seq<CheckRecord>>

  /** Every cell of the records seen so far holds its rows, and only cells with rows are present. */
  ghost predicate Grouped(grouped: Groups, width: nat, series: Series, seen: seq<CheckRecord>)
    requires width > 0
  {
    forall k: Cell :: GroupOf(grouped, k) == Rows(Memory, width, series, seen, k) && (k in grouped ==> grouped[k] != [])
  }

  /** `defaultdict(list)`: a missing cell is an empty list. */
  function GroupOf(grouped: Groups, k: Cell): seq<CheckRecord> {
    if k in grouped then grouped[k] else []
  }

  lemma GroupedAppend(grouped: Groups, width: nat, series: Series, seen: seq<CheckRecord>, r: CheckRecord)
    requires width > 0 && Grouped(grouped, width, series, seen)
    ensures var k := (r.proxyId, Bucket(width, r.checkedAt));
            Grouped(if r.series == series then grouped[k := GroupOf(grouped, k) + [r]] else grouped, width, series, seen + [r])
  {
    var k := (r.proxyId, Bucket(width, r.checkedAt));
    var grown := if r.series == series then grouped[k := GroupOf(grouped, k) + [r]] else grouped;
    forall c: Cell ensures GroupOf(grown, c) == Rows(Memory, width, series, seen + [r], c) && (c in grown ==> grown[c] != []) {
      FilterAppend(InCell(Memory, width, series, c), seen, r);
      assert GroupOf(grouped, c) == Rows(Memory, width, series, seen, c);
    }
  }

  lemma GroupedTable(grouped: Groups, width: nat, series: Series, seen: seq<CheckRecord>)
    requires width > 0 && Grouped(grouped, width, series, seen)
    ensures (map k | k in grouped :: Summary(k.0, k.1, grouped[k])) == Table(Memory, width, series, seen)
  {
    var t := map k | k in grouped :: Summary(k.0, k.1, grouped[k]);
    forall k: Cell ensures SameEntry(t, Table(Memory, width, series, seen), k) {
      assert GroupOf(grouped, k) == Rows(Memory, width, series, seen, k);
      TableEntry(Memory, width, series, seen, k);
    }
    SameTables(t, Table(Memory, width, series, seen));
  }

  /** The first loop of a rebuild: the checks in the window, grouped by cell, and the cells as they came. */
  method GroupChecks(records: seq<CheckRecord>, width: nat, since: real, series: Series) returns (grouped: Groups, cells: seq<Cell>)
    requires width > 0
    ensures Grouped(grouped, width, series, Recent(records, since))
    ensures NoDuplicates(cells) && forall k :: k in cells <==> k in grouped
  {
    grouped, cells := map[], [];
    ghost var seen: seq<CheckRecord> := [];
    for i := 0 to |records|
      invariant seen == Recent(records[..i], since)
      invariant Grouped(grouped, width, series, seen)
      invariant NoDuplicates(cells) && forall k :: k in cells <==> k in grouped
    {
      var record := records[i];
      RecentAppend(records, i, since);
      if record.checkedAt >= since {
        grouped, cells := AddToGroup(grouped, cells, record, width, series, seen);
        seen := seen + [record];
      }
    }
    assert records[..|records|] == records;
  }

  lemma RecentAppend(records: seq<CheckRecord>, i: nat, since: real)
    requires i < |records|
    ensures Recent(records[..i + 1], since)
            == if records[i].checkedAt >= since then Recent(records[..i], since) + [records[i]] else Recent(records[..i], since)
  {
    assert records[..i + 1] == records[..i] + [records[i]];
    FilterAppend(Since(since), records[..i], records[i]);
  }

  method AddToGroup(grouped: Groups, cells: seq<Cell>, record: CheckRecord, width: nat, series: Series, ghost seen: seq<CheckRecord>)
    returns (grown: Groups, known: seq<Cell>)
    requires width > 0 && Grouped(grouped, width, series, seen)
    requires NoDuplicates(cells) && forall k :: k in cells <==> k in grouped
    ensures Grouped(grown, width, series, seen + [record])
    ensures NoDuplicates(known) && forall k :: k in known <==> k in grown
  {
    GroupedAppend(grouped, width, series, seen, record);
    grown, known := grouped, cells;
    if record.series == series {
      var k := (record.proxyId, Bucket(width, record.checkedAt));
      if k !in grouped {
        known := known + [k];
      }
      grown := grouped[k := GroupOf(grouped, k) + [record]];
    }
  }

  /** `daily_rollups_from_checks` and `hourly_rollups_from_checks`: group, sort the cells, summarise. */
  method RollupsFromChecks(records: seq<CheckRecord>, width: nat, since: real, series: Series) returns (out: RowLists)
    requires width > 0
    ensures Lists(out, Table(Memory, width, series, Recent(records, since)))
  {
    var grouped, cells := GroupChecks(records, width, since, series);
    GroupedTable(grouped, width, series, Recent(records, since));
    CellOrders();
    SortedCellsAscend(CellLe, cells);
    TableKeyed(Memory, width, series, Recent(records, since));
    out := GroupRows(Sort(CellLe, cells), map k | k in grouped :: Summary(k.0, k.1, grouped[k]));
  }

  class InMemoryCheckStore {
    var records: seq<CheckRecord>
    var daily: RowLists
    var hourly: RowLists

    ghost var state: Tables

    ghost predicate Valid()
      reads this
    {
      && records == state.checks
      && Lists(daily, state.daily) && Keyed(state.daily)
      && Lists(hourly, state.hourly) && Keyed(state.hourly)
    }

    constructor ()
      ensures Valid() && state == EMPTY
    {
      records, daily, hourly := [], map[], map[];
      state := EMPTY;
    }

    method Record(rows: seq<CheckRecord>)
      requires Valid()
      modifies this
      ensures Valid() && state == Apply(Memory, old(state), Op.Record(rows))
    {
      records := records + rows;
      state := Apply(Memory, state, Op.Record(rows));
    }

    method SuccessRates(proxyIds: seq<string>, now: real, of: Series) returns (rates: map<string, Checks.SuccessRates>)
      requires Valid()
      ensures rates.Keys == set id | id in proxyIds
      ensures forall id | id in proxyIds :: rates[id] == Rates(state.checks, id, now, of)
    {
      rates := RatesFromChecks(records, proxyIds, now, of);
    }

    method RebuildRollups(now: real, days: int, hours: int, of: Series)
      requires Valid()
      modifies this
      ensures Valid() && state == Apply(Memory, old(state), Rebuild(now, days, hours, of))
    {
      daily := RollupsFromChecks(records, DAY_SECONDS, Back(now, days, DAY_SECONDS), of);
      hourly := RollupsFromChecks(records, HOUR_SECONDS, Back(now, hours, HOUR_SECONDS), of);
      TableKeyed(Memory, DAY_SECONDS, of, Recent(records, Back(now, days, DAY_SECONDS)));
      TableKeyed(Memory, HOUR_SECONDS, of, Recent(records, Back(now, hours, HOUR_SECONDS)));
      state := Apply(Memory, state, Rebuild(now, days, hours, of));
    }

    method DailySince(days: int, now: real) returns (lists: RowLists)
      requires Valid()
      ensures Lists(lists, Shown(state, Daily, days, now))
    {
      var start := Bucket(DAY_SECONDS, Back(now, days - 1, DAY_SECONDS));
      LaterLists(daily, state.daily, start);
      lists := Later(daily, start);
    }

    method HourlySince(hours: int, now: real) returns (lists: RowLists)
      requires Valid()
      ensures Lists(lists, Shown(state, Hourly, hours, now))
    {
      var start := Bucket(HOUR_SECONDS, Back(now, hours - 1, HOUR_SECONDS));
      LaterLists(hourly, state.hourly, start);
      lists := Later(hourly, start);
    }

    method HistoryOf(id: string, of: Series, limit: int) returns (rows: seq<CheckRecord>)
      requires Valid()
      ensures rows == MemoryHistory(state.checks, id, of, limit)
    {
      var matched := Filter(Belongs(id, of), records);
      matched := Sort(LatestFirst, matched);
      rows := Slice(matched, limit);
    }

    method Prune(now: real, retainDays: int) returns (removed: nat)
      requires Valid()
      modifies this
      ensures Valid() && state == Apply(Memory, old(state), Op.Prune(now, retainDays))
      ensures removed == |old(state).checks| - |state.checks|
    {
      var cutoff := Cutoff(now, retainDays);
      var before := |records|;
      records := Recent(records, cutoff);
      LaterLists(daily, state.daily, Bucket(DAY_SECONDS, cutoff));
      LaterLists(hourly, state.hourly, Bucket(HOUR_SECONDS, cutoff));
      daily := Later(daily, Bucket(DAY_SECONDS, cutoff));
      hourly := Later(hourly, Bucket(HOUR_SECONDS, cutoff));
      state := Apply(Memory, state, Op.Prune(now, retainDays));
      removed := before - |records|;
    }
  }
}
