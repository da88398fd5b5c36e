/** Success rates over sliding windows, and rollups by UTC day and hour. */
module Windows {
  import opened Prelude
  import opened Checks

  const HOUR_SECONDS := 3600
  const DAY_SECONDS := 86400

  /** Which arithmetic names a bucket: Python's `datetime`, or SQLite's cast to an integer first. */
  datatype Engine = Memory | Sqlite

  /** The number of the UTC day or hour, of the given width in seconds, that contains an instant. */
  function Bucket(width: nat, t: real): int
    requires width > 0
  {
    t.Floor / width
  }

  /** SQLite's `CAST(... AS INTEGER)` drops the fraction. */
  function Truncate(t: real): int {
    if t >= 0.0 then t.Floor else -(-t).Floor
  }

  function BucketOf(engine: Engine, width: nat, t: real): int
    requires width > 0
  {
    if engine.Memory? then Bucket(width, t) else Truncate(t) / width
  }

  /** The two engines name the same bucket except for a fractional negative instant in the last second of one. */
  lemma BucketsAgreeIff(width: nat, t: real)
    requires width > 0
    ensures (BucketOf(Memory, width, t) == BucketOf(Sqlite, width, t))
            <==> (t >= 0.0 || t == t.Floor as real || (t.Floor + 1) % width != 0)
  {
    if t < 0.0 {
      if t == t.Floor as real {
        assert (-t).Floor == -t.Floor;
      } else {
        assert (-t).Floor == -t.Floor - 1;
        NextQuotient(t.Floor, width);
      }
    }
  }

  lemma NextQuotient(n: int, width: nat)
    requires width > 0
    ensures (n + 1) / width == n / width <==> (n + 1) % width != 0
  {
    var q, r := n / width, n % width;
    assert n == q * width + r;
    if r + 1 == width {
      assert n + 1 == (q + 1) * width;
      QuotientIs(n + 1, width, q + 1, 0);
    } else {
      QuotientIs(n + 1, width, q, r + 1);
    }
  }

  lemma QuotientIs(n: int, width: nat, q: int, r: int)
    requires 0 <= r < width && n == q * width + r
    ensures n / width == q && n % width == r
  {
    var d := n / width - q;
    assert d * width == r - n % width;
    MultipleIsFar(d, width);
  }

  lemma MultipleIsFar(d: int, width: nat)
    ensures d >= 1 ==> d * width >= width
    ensures d <= -1 ==> d * width <= -(width as int)
  {
    if d >= 1 {
      assert (d - 1) * width >= 0;
    } else if d <= -1 {
      assert (-d - 1) * width >= 0;
    }
  }

  // ---- Success rates.

  function Within(id: string, series: Series, since: real, okOnly: bool): CheckRecord -> bool {
    (r: CheckRecord) => r.proxyId == id && r.series == series && r.checkedAt >= since && (okOnly ==> r.success)
  }

  function CountWithin(records: seq<CheckRecord>, id: string, series: Series, since: real, okOnly: bool): nat {
    |Filter(Within(id, series, since, okOnly), records)|
  }

  /** The counts a member's rates are defined by. */
  function Rates(records: seq<CheckRecord>, id: string, now: real, series: Series): SuccessRates {
    var hour, day, week := now - HOUR_SECONDS as real, now - DAY_SECONDS as real, now - (7 * DAY_SECONDS) as real;
    SuccessRates(
      CountWithin(records, id, series, day, true), CountWithin(records, id, series, day, false),
      CountWithin(records, id, series, week, true), CountWithin(records, id, series, week, false),
      CountWithin(records, id, series, hour, true), CountWithin(records, id, series, hour, false))
  }

  /** The rates held by the six counters of one member. */
  function Unpacked(slot: seq<nat>): SuccessRates
    requires |slot| == 6
  {
    SuccessRates(slot[3], slot[2], slot[5], slot[4], slot[1], slot[0])
  }

  lemma CountAppend(records: seq<CheckRecord>, r: CheckRecord, id: string, series: Series, since: real, okOnly: bool)
    ensures CountWithin(records + [r], id, series, since, okOnly)
            == CountWithin(records, id, series, since, okOnly) + (if Within(id, series, since, okOnly)(r) then 1 else 0)
  {
    FilterAppend(Within(id, series, since, okOnly), records, r);
  }

  /** The counters after one more record of the member that lies within the last seven days. */
  function Counted(s: seq<nat>, r: CheckRecord, day: real, hour: real): (t: seq<nat>)
    requires |s| == 6
    ensures |t| == 6
  {
    [s[0] + (if r.checkedAt >= hour then 1 else 0),
     s[1] + (if r.checkedAt >= hour && r.success then 1 else 0),
     s[2] + (if r.checkedAt >= day then 1 else 0),
     s[3] + (if r.checkedAt >= day && r.success then 1 else 0),
     s[4] + 1,
     s[5] + (if r.success then 1 else 0)]
  }

  /** The counters as the pass leaves them after each record in turn. */
  function Pass(records: seq<CheckRecord>, id: string, now: real, series: Series): (s: seq<nat>)
    ensures |s| == 6
  {
    if records == [] then [0, 0, 0, 0, 0, 0]
    else
      var r, s := records[|records| - 1], Pass(records[..|records| - 1], id, now, series);
      if r.proxyId == id && r.series == series && r.checkedAt >= now - (7 * DAY_SECONDS) as real
      then Counted(s, r, now - DAY_SECONDS as real, now - HOUR_SECONDS as real)
      else s
  }

  lemma {:induction false} PassCounts(records: seq<CheckRecord>, id: string, now: real, series: Series)
    ensures Unpacked(Pass(records, id, now, series)) == Rates(records, id, now, series)
  {
    if records != [] {
      var before, r := records[..|records| - 1], records[|records| - 1];
      assert records == before + [r];
      PassCounts(before, id, now, series);
      RatesAppend(before, r, id, now, series);
    }
  }

  /** One more record changes the rates as it changes the counters. */
  lemma RatesAppend(before: seq<CheckRecord>, r: CheckRecord, id: string, now: real, series: Series)
    ensures
      var hour, day, week := now - HOUR_SECONDS as real, now - DAY_SECONDS as real, now - (7 * DAY_SECONDS) as real;
      var mine := r.proxyId == id && r.series == series;
      var a, b := Rates(before, id, now, series), Rates(before + [r], id, now, series);
      && b.total1h == a.total1h + (if mine && r.checkedAt >= hour then 1 else 0)
      && b.ok1h == a.ok1h + (if mine && r.checkedAt >= hour && r.success then 1 else 0)
      && b.total24h == a.total24h + (if mine && r.checkedAt >= day then 1 else 0)
      && b.ok24h == a.ok24h + (if mine && r.checkedAt >= day && r.success then 1 else 0)
      && b.total7d == a.total7d + (if mine && r.checkedAt >= week then 1 else 0)
      && b.ok7d == a.ok7d + (if mine && r.checkedAt >= week && r.success then 1 else 0)
  {
    var hour, day, week := now - HOUR_SECONDS as real, now - DAY_SECONDS as real, now - (7 * DAY_SECONDS) as real;
    CountAppend(before, r, id, series, hour, false);
    CountAppend(before, r, id, series, hour, true);
    CountAppend(before, r, id, series, day, false);
    CountAppend(before, r, id, series, day, true);
    CountAppend(before, r, id, series, week, false);
    CountAppend(before, r, id, series, week, true);
  }

  /** The body of the single pass, for a record that belongs to a requested member. */
  method CountRecord(s: seq<nat>, record: CheckRecord, since24h: real, since1h: real) returns (slot: seq<nat>)
    requires |s| == 6
    ensures slot == Counted(s, record, since24h, since1h)
  {
    slot := s[4 := s[4] + 1];
    if record.success {
      slot := slot[5 := slot[5] + 1];
    }
    if record.checkedAt >= since24h {
      slot := slot[2 := slot[2] + 1];
      if record.success {
        slot := slot[3 := slot[3] + 1];
      }
    }
    if record.checkedAt >= since1h {
      slot := slot[0 := slot[0] + 1];
      if record.success {
        slot := slot[1 := slot[1] + 1];
      }
    }
  }

  /** The single pass over the records: six counters for each requested member. */
  method CountAll(records: seq<CheckRecord>, proxyIds: seq<string>, now: real, series: Series)
    returns (buckets: map<string, seq<nat>>)
    ensures buckets.Keys == set id | id in proxyIds
    ensures forall id | id in buckets :: buckets[id] == Pass(records, id, now, series)
  {
    var since1h := now - HOUR_SECONDS as real;
    var since24h := now - DAY_SECONDS as real;
    var since7d := now - (7 * DAY_SECONDS) as real;
    buckets := map id | id in proxyIds :: [0, 0, 0, 0, 0, 0];
    for i := 0 to |records|
      invariant buckets.Keys == set id | id in proxyIds
      invariant forall id | id in buckets :: |buckets[id]| == 6 && buckets[id] == Pass(records[..i], id, now, series)
    {
      var record := records[i];
      assert records[..i + 1][..i] == records[..i];
      if record.series != series || record.checkedAt < since7d {
        continue;
      }
      if record.proxyId !in buckets {
        continue;
      }
      var slot := CountRecord(buckets[record.proxyId], record, since24h, since1h);
      buckets := buckets[record.proxyId := slot];
    }
    assert records[..|records|] == records;
  }

  /** The pass computes the defining counts of every requested member. */
  method RatesFromChecks(records: seq<CheckRecord>, proxyIds: seq<string>, now: real, series: Series)
    returns (rates: map<string, SuccessRates>)
    ensures rates.Keys == set id | id in proxyIds
    ensures forall id | id in proxyIds :: rates[id] == Rates(records, id, now, series)
  {
    var buckets := CountAll(records, proxyIds, now, series);
    forall id | id in buckets ensures Unpacked(buckets[id]) == Rates(records, id, now, series) {
      PassCounts(records, id, now, series);
    }
    rates := map id | id in buckets :: Unpacked(buckets[id]);
  }

  /** The checks of a member and series since an instant, by position. */
  ghost function ChecksSince(records: seq<CheckRecord>, id: string, series: Series, since: real): set<int> {
    set i | 0 <= i < |records| && records[i].proxyId == id && records[i].series == series && records[i].checkedAt >= since
  }

  /** Those of them that succeeded. */
  ghost function SuccessesSince(records: seq<CheckRecord>, id: string, series: Series, since: real): set<int> {
    set i | i in ChecksSince(records, id, series, since) && records[i].success
  }

  lemma CountIsOfPositions(records: seq<CheckRecord>, id: string, series: Series, since: real)
    ensures CountWithin(records, id, series, since, false) == |ChecksSince(records, id, series, since)|
    ensures CountWithin(records, id, series, since, true) == |SuccessesSince(records, id, series, since)|
  {
    FilterCounts(Within(id, series, since, false), records);
    FilterCounts(Within(id, series, since, true), records);
    assert Positions(Within(id, series, since, false), records) == ChecksSince(records, id, series, since);
    assert Positions(Within(id, series, since, true), records) == SuccessesSince(records, id, series, since);
  }

  /** The rates count the member's checks, and its successes, of the last hour, of 24 hours and of 7 days. */
  lemma RatesAreWindowCounts(records: seq<CheckRecord>, id: string, now: real, series: Series)
    ensures var r := Rates(records, id, now, series);
            && r.total1h == |ChecksSince(records, id, series, now - 3600.0)|
            && r.ok1h == |SuccessesSince(records, id, series, now - 3600.0)|
            && r.total24h == |ChecksSince(records, id, series, now - 86400.0)|
            && r.ok24h == |SuccessesSince(records, id, series, now - 86400.0)|
            && r.total7d == |ChecksSince(records, id, series, now - 604800.0)|
            && r.ok7d == |SuccessesSince(records, id, series, now - 604800.0)|
  {
    CountIsOfPositions(records, id, series, now - 3600.0);
    CountIsOfPositions(records, id, series, now - 86400.0);
    CountIsOfPositions(records, id, series, now - 604800.0);
  }

  lemma CountNarrower(records: seq<CheckRecord>, id: string, series: Series, since: real, okOnly: bool, since': real, okOnly': bool)
    requires since' <= since && (okOnly' ==> okOnly)
    ensures CountWithin(records, id, series, since, okOnly) <= CountWithin(records, id, series, since', okOnly')
  {
    FilterWeaker(Within(id, series, since, okOnly), Within(id, series, since', okOnly'), records);
  }

  /** The windows nest and successes are among the checks, so every rate lies in [0, 1]. */
  lemma RatesNest(records: seq<CheckRecord>, id: string, now: real, series: Series)
    ensures var r := Rates(records, id, now, series);
            && r.ok1h <= r.total1h && r.ok24h <= r.total24h && r.ok7d <= r.total7d
            && r.total1h <= r.total24h <= r.total7d && r.ok1h <= r.ok24h <= r.ok7d
            && 0.0 <= r.Success1h() <= 1.0 && 0.0 <= r.Success24h() <= 1.0 && 0.0 <= r.Success7d() <= 1.0
  {
    var hour, day, week := now - HOUR_SECONDS as real, now - DAY_SECONDS as real, now - (7 * DAY_SECONDS) as real;
    CountNarrower(records, id, series, hour, true, hour, false);
    CountNarrower(records, id, series, day, true, day, false);
    CountNarrower(records, id, series, week, true, week, false);
    CountNarrower(records, id, series, hour, false, day, false);
    CountNarrower(records, id, series, day, false, week, false);
    CountNarrower(records, id, series, hour, true, day, true);
    CountNarrower(records, id, series, day, true, week, true);
  }

  /** Counting ignores the order of the records and adds over concatenation. */
  lemma CountsAddAndIgnoreOrder(xs: seq<CheckRecord>, ys: seq<CheckRecord>, id: string, series: Series, since: real, okOnly: bool)
    ensures CountWithin(xs + ys, id, series, since, okOnly)
            == CountWithin(xs, id, series, since, okOnly) + CountWithin(ys, id, series, since, okOnly)
    ensures multiset(xs) == multiset(ys) ==>
              CountWithin(xs, id, series, since, okOnly) == CountWithin(ys, id, series, since, okOnly)
  {
    var p := Within(id, series, since, okOnly);
    FilterConcat(p, xs, ys);
    if multiset(xs) == multiset(ys) {
      forall v ensures multiset(Filter(p, xs))[v] == multiset(Filter(p, ys))[v] {
        FilterMultiset(p, xs, v);
        FilterMultiset(p, ys, v);
      }
      assert multiset(Filter(p, xs)) == multiset(Filter(p, ys));
      assert |multiset(Filter(p, xs))| == |Filter(p, xs)| && |multiset(Filter(p, ys))| == |Filter(p, ys)|;
    }
  }

  /** Records of another series never enter a rate. */
  lemma RatesIgnoreOtherSeries(records: seq<CheckRecord>, id: string, now: real, series: Series)
    ensures Rates(Filter(InSeries(series), records), id, now, series) == Rates(records, id, now, series)
  {
    forall since, okOnly ensures CountWithin(Filter(InSeries(series), records), id, series, since, okOnly)
                                 == CountWithin(records, id, series, since, okOnly)
    {
      FilterWeaker(Within(id, series, since, okOnly), InSeries(series), records);
    }
  }

  function InSeries(series: Series): CheckRecord -> bool {
    (r: CheckRecord) => r.series == series
  }

  // ---- Rollups.

  predicate Succeeded(r: CheckRecord) {
    r.success
  }

  predicate Failed(r: CheckRecord) {
    !r.success
  }

  function Latencies(rows: seq<CheckRecord>): seq<real> {
    if rows == [] then []
    else
      var last := rows[|rows| - 1];
      Latencies(rows[..|rows| - 1]) + (if last.latency.Some? then [last.latency.value] else [])
  }

  function Sum(xs: seq<real>): real {
    if xs == [] then 0.0 else Sum(xs[..|xs| - 1]) + xs[|xs| - 1]
  }

  function Mean(xs: seq<real>): Option<real> {
    if xs == [] then None else Some(Sum(xs) / |xs| as real)
  }

  /** Python's `_daily` and `_hourly`: failures are what is left of the rows. */
  function Summary(id: string, bucket: int, rows: seq<CheckRecord>): Rollup {
    var successes := Filter(Succeeded, rows);
    Rollup(id, bucket, |successes|, |rows| - |successes|, Mean(Latencies(successes)))
  }

  /** The aggregate columns of the SQL rebuild: failures are counted by their own CASE. */
  function SqlSummary(id: string, bucket: int, rows: seq<CheckRecord>): Rollup {
    Rollup(id, bucket, |Filter(Succeeded, rows)|, |Filter(Failed, rows)|, Mean(Latencies(Filter(Succeeded, rows))))
  }

  lemma SummariesAgree(id: string, bucket: int, rows: seq<CheckRecord>)
    ensures SqlSummary(id, bucket, rows) == Summary(id, bucket, rows)
  {
    FilterSplit(Succeeded, Failed, _ => true, rows);
    FilterAll(rows);
  }

  lemma FilterAll(rows: seq<CheckRecord>)
    ensures Filter(_ => true, rows) == rows
  {
    if rows != [] {
      FilterAll(rows[..|rows| - 1]);
    }
  }

  /** A bucket of one member. */
  type Cell = (string, int)
  type RollupTable = map<Cell, Rollup>

  function InCell(engine: Engine, width: nat, series: Series, k: Cell): CheckRecord -> bool
    requires width > 0
  {
    (r: CheckRecord) => r.series == series && r.proxyId == k.0 && BucketOf(engine, width, r.checkedAt) == k.1
  }

  function Rows(engine: Engine, width: nat, series: Series, records: seq<CheckRecord>, k: Cell): seq<CheckRecord>
    requires width > 0
  {
    Filter(InCell(engine, width, series, k), records)
  }

  function Cells(engine: Engine, width: nat, series: Series, records: seq<CheckRecord>): (cells: set<Cell>)
    requires width > 0
  {
    set r | r in records && r.series == series :: (r.proxyId, BucketOf(engine, width, r.checkedAt))
  }

  /** The rollup of a list of records: one summary for each cell that has a row. */
  function Table(engine: Engine, width: nat, series: Series, records: seq<CheckRecord>): RollupTable
    requires width > 0
  {
    map k | k in Cells(engine, width, series, records) ::
      var rows := Rows(engine, width, series, records, k);
      if engine.Memory? then Summary(k.0, k.1, rows) else SqlSummary(k.0, k.1, rows)
  }

  /** An entry exists exactly when the cell has rows, and it summarises those rows. */
  lemma TableEntry(engine: Engine, width: nat, series: Series, records: seq<CheckRecord>, k: Cell)
    requires width > 0
    ensures var rows, table := Rows(engine, width, series, records, k), Table(engine, width, series, records);
            && (k in table <==> rows != [])
            && (k in table ==> table[k] == Summary(k.0, k.1, rows))
  {
    var rows := Rows(engine, width, series, records, k);
    SummariesAgree(k.0, k.1, rows);
    if rows != [] {
      assert rows[0] in records && InCell(engine, width, series, k)(rows[0]);
    }
    if k in Cells(engine, width, series, records) {
      var r :| r in records && r.series == series && k == (r.proxyId, BucketOf(engine, width, r.checkedAt));
      assert InCell(engine, width, series, k)(r);
      assert r in rows;
    }
  }

  /** The checks that belong to a cell, by position. */
  ghost function ChecksIn(engine: Engine, width: nat, series: Series, records: seq<CheckRecord>, k: Cell): set<int>
    requires width > 0
  {
    set i | 0 <= i < |records| && records[i].series == series && records[i].proxyId == k.0
            && BucketOf(engine, width, records[i].checkedAt) == k.1
  }

  lemma CellPositions(engine: Engine, width: nat, series: Series, records: seq<CheckRecord>, k: Cell)
    requires width > 0
    ensures Positions(InCell(engine, width, series, k), records) == ChecksIn(engine, width, series, records, k)
  {
  }

  lemma CellRows(engine: Engine, width: nat, series: Series, records: seq<CheckRecord>, k: Cell)
    requires width > 0
    ensures |Rows(engine, width, series, records, k)| == |ChecksIn(engine, width, series, records, k)|
  {
    FilterCounts(InCell(engine, width, series, k), records);
    CellPositions(engine, width, series, records, k);
  }

  /** The successes among them. */
  ghost function SuccessesIn(engine: Engine, width: nat, series: Series, records: seq<CheckRecord>, k: Cell): set<int>
    requires width > 0
  {
    set i | 0 <= i < |records| && records[i].series == series && records[i].proxyId == k.0
            && BucketOf(engine, width, records[i].checkedAt) == k.1 && records[i].success
  }

  function SuccessInCell(engine: Engine, width: nat, series: Series, k: Cell): CheckRecord -> bool
    requires width > 0
  {
    (r: CheckRecord) => r.series == series && r.proxyId == k.0 && BucketOf(engine, width, r.checkedAt) == k.1 && r.success
  }

  lemma SuccessPositions(engine: Engine, width: nat, series: Series, records: seq<CheckRecord>, k: Cell)
    requires width > 0
    ensures Positions(SuccessInCell(engine, width, series, k), records) == SuccessesIn(engine, width, series, records, k)
  {
  }

  lemma SuccessRows(engine: Engine, width: nat, series: Series, records: seq<CheckRecord>, k: Cell)
    requires width > 0
    ensures |Filter(Succeeded, Rows(engine, width, series, records, k))| == |SuccessesIn(engine, width, series, records, k)|
  {
    FilterBoth(InCell(engine, width, series, k), Succeeded, SuccessInCell(engine, width, series, k), records);
    FilterCounts(SuccessInCell(engine, width, series, k), records);
    SuccessPositions(engine, width, series, records, k);
  }

  /** A row exists for every cell with checks; it counts the successes among them, and the rest as failures. */
  lemma RollupCounts(engine: Engine, width: nat, series: Series, records: seq<CheckRecord>, k: Cell)
    requires width > 0
    ensures var cell, table := ChecksIn(engine, width, series, records, k), Table(engine, width, series, records);
            && (k in table <==> cell != {})
            && (k in table ==>
                  && table[k].proxyId == k.0 && table[k].bucket == k.1
                  && table[k].successCount == |SuccessesIn(engine, width, series, records, k)|
                  && table[k].failCount == |cell| - table[k].successCount)
  {
    TableEntry(engine, width, series, records, k);
    CellRows(engine, width, series, records, k);
    SuccessRows(engine, width, series, records, k);
  }

  /** An average times the number of values is their sum. */
  lemma MeanTimesCount(xs: seq<real>)
    ensures Mean(xs).None? <==> xs == []
    ensures Mean(xs).Some? ==> Mean(xs).value * |xs| as real == Sum(xs)
  {
  }

  /** The average of a row is that of its successes. */
  lemma AverageOfSuccesses(engine: Engine, width: nat, series: Series, records: seq<CheckRecord>, k: Cell)
    requires width > 0
    ensures k in Table(engine, width, series, records) ==>
              Table(engine, width, series, records)[k].avgLatency
              == Mean(Latencies(Filter(Succeeded, Rows(engine, width, series, records, k))))
  {
    TableEntry(engine, width, series, records, k);
  }

  /** The latencies listed are those of the rows that have one, and each of them adds itself to the sum. */
  lemma {:induction false} LatenciesListed(rows: seq<CheckRecord>)
    ensures |Latencies(rows)| == |Filter(HasLatency, rows)|
    ensures forall i | 0 <= i < |Latencies(rows)| :: Filter(HasLatency, rows)[i].latency == Some(Latencies(rows)[i])
  {
    if rows != [] {
      LatenciesListed(rows[..|rows| - 1]);
    }
  }

  predicate HasLatency(r: CheckRecord) {
    r.latency.Some?
  }

  lemma {:induction false} SumMoves(xs: seq<real>, i: nat, x: real)
    requires i < |xs|
    ensures Sum(xs[i := x]) == Sum(xs) - xs[i] + x
    ensures (forall j | 0 <= j < |xs| :: xs[j] == 0.0) ==> Sum(xs) == 0.0
  {
    var n := |xs| - 1;
    if i < n {
      SumMoves(xs[..n], i, x);
      assert xs[i := x][..n] == xs[..n][i := x];
    } else {
      assert xs[i := x][..n] == xs[..n];
      if n > 0 {
        SumMoves(xs[..n], 0, x);
      }
    }
  }

  /** A rollup never mixes series. */
  lemma TableIgnoresOtherSeries(engine: Engine, width: nat, series: Series, records: seq<CheckRecord>)
    requires width > 0
    ensures Table(engine, width, series, Filter(InSeries(series), records)) == Table(engine, width, series, records)
  {
    var mine := Filter(InSeries(series), records);
    var t, u := Table(engine, width, series, mine), Table(engine, width, series, records);
    forall k: Cell ensures SameEntry(t, u, k) {
      EntryIgnoresOtherSeries(engine, width, series, records, k);
    }
    SameTables(t, u);
  }

  lemma SameTables(t: RollupTable, u: RollupTable)
    requires forall k: Cell :: SameEntry(t, u, k)
    ensures t == u
  {
    forall k: Cell ensures (k in t <==> k in u) && (k in t ==> t[k] == u[k]) {
      assert SameEntry(t, u, k);
    }
  }

  ghost predicate SameEntry(t: RollupTable, u: RollupTable, k: Cell) {
    (k in t <==> k in u) && (k in t && k in u ==> t[k] == u[k])
  }

  lemma EntryIgnoresOtherSeries(engine: Engine, width: nat, series: Series, records: seq<CheckRecord>, k: Cell)
    requires width > 0
    ensures SameEntry(Table(engine, width, series, Filter(InSeries(series), records)), Table(engine, width, series, records), k)
  {
    FilterWeaker(InCell(engine, width, series, k), InSeries(series), records);
    TableEntry(engine, width, series, Filter(InSeries(series), records), k);
    TableEntry(engine, width, series, records, k);
  }

  // ---- A day is its hours.

  /** Successes or failures of a cell; an absent cell counts nothing. */
  function CountOf(table: RollupTable, k: Cell, ok: bool): nat {
    if k !in table then 0 else if ok then table[k].successCount else table[k].failCount
  }

  /** The count of n consecutive hours, starting with the first hour of the given day. */
  function HoursTotal(table: RollupTable, id: string, day: int, n: nat, ok: bool): nat {
    if n == 0 then 0
    else HoursTotal(table, id, day, n - 1, ok) + CountOf(table, (id, 24 * day + n - 1), ok)
  }

  function InHours(series: Series, id: string, day: int, n: nat, ok: bool): CheckRecord -> bool {
    (r: CheckRecord) =>
      r.series == series && r.proxyId == id && r.success == ok
      && 24 * day <= Bucket(HOUR_SECONDS, r.checkedAt) < 24 * day + n
  }

  function InCellWith(width: nat, series: Series, k: Cell, ok: bool): CheckRecord -> bool
    requires width > 0
  {
    (r: CheckRecord) => r.series == series && r.proxyId == k.0 && Bucket(width, r.checkedAt) == k.1 && r.success == ok
  }

  lemma CellCounts(width: nat, series: Series, records: seq<CheckRecord>, k: Cell, ok: bool)
    requires width > 0
    ensures CountOf(Table(Memory, width, series, records), k, ok) == |Filter(InCellWith(width, series, k, ok), records)|
  {
    TableEntry(Memory, width, series, records, k);
    SummariesAgree(k.0, k.1, Rows(Memory, width, series, records, k));
    FilterBoth(InCell(Memory, width, series, k), if ok then Succeeded else Failed, InCellWith(width, series, k, ok), records);
  }

  lemma {:induction false} FilterBoth(p: CheckRecord -> bool, q: CheckRecord -> bool, both: CheckRecord -> bool, xs: seq<CheckRecord>)
    requires forall x | x in xs :: both(x) <==> p(x) && q(x)
    ensures Filter(q, Filter(p, xs)) == Filter(both, xs)
  {
    if xs != [] {
      var n := |xs| - 1;
      FilterBoth(p, q, both, xs[..n]);
      FilterTail(q, Filter(p, xs[..n]), p(xs[n]), xs[n]);
    }
  }

  ghost predicate CountsHours(table: RollupTable, series: Series, records: seq<CheckRecord>, id: string, ok: bool) {
    forall h :: CountOf(table, (id, h), ok) == |Filter(InCellWith(HOUR_SECONDS, series, (id, h), ok), records)|
  }

  lemma HourlyCountsHours(series: Series, records: seq<CheckRecord>, id: string, ok: bool)
    ensures CountsHours(Table(Memory, HOUR_SECONDS, series, records), series, records, id, ok)
  {
    forall h ensures CountOf(Table(Memory, HOUR_SECONDS, series, records), (id, h), ok)
                     == |Filter(InCellWith(HOUR_SECONDS, series, (id, h), ok), records)|
    {
      CellCounts(HOUR_SECONDS, series, records, (id, h), ok);
    }
  }

  lemma NoHour(series: Series, records: seq<CheckRecord>, id: string, day: int, ok: bool)
    ensures Filter(InHours(series, id, day, 0, ok), records) == []
  {
    EmptyFilter(InHours(series, id, day, 0, ok), records);
  }

  lemma {:induction false} HoursCounted(table: RollupTable, series: Series, records: seq<CheckRecord>, id: string, day: int, n: nat, ok: bool)
    requires CountsHours(table, series, records, id, ok)
    ensures HoursTotal(table, id, day, n, ok) == |Filter(InHours(series, id, day, n, ok), records)|
  {
    if n == 0 {
      NoHour(series, records, id, day, ok);
    } else {
      HoursCounted(table, series, records, id, day, n - 1, ok);
      OneMoreHour(series, records, id, day, n - 1, ok);
      HourCounts(table, series, records, id, 24 * day + n - 1, ok);
    }
  }

  lemma HourCounts(table: RollupTable, series: Series, records: seq<CheckRecord>, id: string, h: int, ok: bool)
    requires CountsHours(table, series, records, id, ok)
    ensures CountOf(table, (id, h), ok) == |Filter(InCellWith(HOUR_SECONDS, series, (id, h), ok), records)|
  {
  }

  lemma OneMoreHour(series: Series, records: seq<CheckRecord>, id: string, day: int, n: nat, ok: bool)
    ensures |Filter(InHours(series, id, day, n + 1, ok), records)|
            == |Filter(InHours(series, id, day, n, ok), records)|
               + |Filter(InCellWith(HOUR_SECONDS, series, (id, 24 * day + n), ok), records)|
  {
    FilterSplit(InHours(series, id, day, n, ok), InCellWith(HOUR_SECONDS, series, (id, 24 * day + n), ok),
                InHours(series, id, day, n + 1, ok), records);
  }

  lemma {:induction false} EmptyFilter(p: CheckRecord -> bool, xs: seq<CheckRecord>)
    requires forall x | x in xs :: !p(x)
    ensures Filter(p, xs) == []
  {
    if xs != [] {
      EmptyFilter(p, xs[..|xs| - 1]);
    }
  }

  lemma SameDay(series: Series, records: seq<CheckRecord>, id: string, day: int, ok: bool)
    ensures Filter(InCellWith(DAY_SECONDS, series, (id, day), ok), records) == Filter(InHours(series, id, day, 24, ok), records)
  {
    FilterSame(InCellWith(DAY_SECONDS, series, (id, day), ok), InHours(series, id, day, 24, ok), records);
  }

  /** The counts of a day are the sums of the counts of its 24 hours. */
  lemma DayIsItsHours(series: Series, records: seq<CheckRecord>, id: string, day: int, ok: bool)
    ensures CountOf(Table(Memory, DAY_SECONDS, series, records), (id, day), ok)
            == HoursTotal(Table(Memory, HOUR_SECONDS, series, records), id, day, 24, ok)
  {
    HourlyCountsHours(series, records, id, ok);
    HoursCounted(Table(Memory, HOUR_SECONDS, series, records), series, records, id, day, 24, ok);
    CellCounts(DAY_SECONDS, series, records, (id, day), ok);
    SameDay(series, records, id, day, ok);
  }
}
