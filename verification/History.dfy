/** The history of one member: memory sorts and slices, SQLite leaves ties to the database. */
module History {
  import opened Prelude
  import opened Sorting
  import opened Checks
  import opened Windows

  function Belongs(id: string, series: Series): CheckRecord -> bool {
    (r: CheckRecord) => r.proxyId == id && r.series == series
  }

  predicate LatestFirst(a: CheckRecord, b: CheckRecord) {
    a.checkedAt >= b.checkedAt
  }

  /** Python's `rows[:limit]`: a negative limit drops that many rows from the end. */
  function Slice(rows: seq<CheckRecord>, limit: int): seq<CheckRecord> {
    Take(rows, if limit >= 0 then limit else Max(0, |rows| + limit))
  }

  /** SQLite's `LIMIT`: a negative limit is none. */
  function Limit(rows: seq<CheckRecord>, limit: int): seq<CheckRecord> {
    if limit >= 0 then Take(rows, limit) else rows
  }

  /** A stable sort by descending instant, cut to the limit. */
  function MemoryHistory(checks: seq<CheckRecord>, id: string, series: Series, limit: int): seq<CheckRecord> {
    Slice(Sort(LatestFirst, Filter(Belongs(id, series), checks)), limit)
  }

  /** `ORDER BY checked_at DESC LIMIT n`: the first rows of some descending arrangement. */
  ghost predicate SqlHistory(checks: seq<CheckRecord>, id: string, series: Series, limit: int, answer: seq<CheckRecord>) {
    exists all: seq<CheckRecord> :: Arranges(all, Filter(Belongs(id, series), checks)) && answer == Limit(all, limit)
  }

  ghost predicate Arranges(all: seq<CheckRecord>, rows: seq<CheckRecord>) {
    multiset(all) == multiset(rows) && SortedBy(LatestFirst, all)
  }

  function Instants(rows: seq<CheckRecord>): (ts: seq<real>)
    ensures |ts| == |rows|
    ensures forall i | 0 <= i < |ts| :: ts[i] == rows[i].checkedAt
  {
    seq(|rows|, i requires 0 <= i < |rows| => rows[i].checkedAt)
  }

  function At(t: real): CheckRecord -> bool {
    (r: CheckRecord) => r.checkedAt == t
  }

  lemma {:induction false} InstantsCounted(rows: seq<CheckRecord>, t: real)
    ensures multiset(Instants(rows))[t] == |Filter(At(t), rows)|
  {
    if rows != [] {
      var n := |rows| - 1;
      InstantsCounted(rows[..n], t);
      assert Instants(rows) == Instants(rows[..n]) + [rows[n].checkedAt];
    } else {
      assert Instants(rows) == [];
    }
  }

  lemma SameInstants(xs: seq<CheckRecord>, ys: seq<CheckRecord>)
    requires Arranges(xs, ys) && SortedBy(LatestFirst, ys)
    ensures Instants(xs) == Instants(ys)
  {
    forall t ensures multiset(Instants(xs))[t] == multiset(Instants(ys))[t] {
      InstantsCounted(xs, t);
      InstantsCounted(ys, t);
      FilterSize(At(t), xs, ys);
    }
    var le := (a: real, b: real) => a >= b;
    SortedUnique(le, Instants(xs), Instants(ys));
  }

  lemma FilterSize(p: CheckRecord -> bool, xs: seq<CheckRecord>, ys: seq<CheckRecord>)
    requires multiset(xs) == multiset(ys)
    ensures |Filter(p, xs)| == |Filter(p, ys)|
  {
    forall v ensures multiset(Filter(p, xs))[v] == multiset(Filter(p, ys))[v] {
      FilterMultiset(p, xs, v);
      FilterMultiset(p, ys, v);
    }
    assert multiset(Filter(p, xs)) == multiset(Filter(p, ys));
    assert |multiset(Filter(p, xs))| == |Filter(p, xs)| && |multiset(Filter(p, ys))| == |Filter(p, ys)|;
  }

  /**
   * Every answer SQLite may give shows the same instants as memory's, position by position,
   * exactly when the limit is not negative or there is nothing to show; and it is memory's answer
   * when the member has no two checks at the same instant.
   */
  lemma HistoriesAgree(checks: seq<CheckRecord>, id: string, series: Series, limit: int, answer: seq<CheckRecord>)
    requires SqlHistory(checks, id, series, limit, answer)
    ensures Instants(answer) == Instants(MemoryHistory(checks, id, series, limit))
            <==> limit >= 0 || Filter(Belongs(id, series), checks) == []
    ensures limit >= 0 ==> SqlHistory(checks, id, series, limit, MemoryHistory(checks, id, series, limit))
    ensures limit >= 0 && Antisymmetric(LatestFirst, Filter(Belongs(id, series), checks)) ==>
              answer == MemoryHistory(checks, id, series, limit)
  {
    var rows := Filter(Belongs(id, series), checks);
    var all: seq<CheckRecord> :| Arranges(all, rows) && answer == Limit(all, limit);
    assert |multiset(all)| == |all| && |multiset(rows)| == |rows|;
    if limit >= 0 {
      AnswersAgree(rows, limit, all);
    } else if rows != [] {
      assert |answer| > |MemoryHistory(checks, id, series, limit)|;
      assert |Instants(answer)| > |Instants(MemoryHistory(checks, id, series, limit))|;
    } else {
      assert all == [];
    }
  }

  lemma AnswersAgree(rows: seq<CheckRecord>, limit: nat, all: seq<CheckRecord>)
    requires Arranges(all, rows)
    ensures Arranges(Sort(LatestFirst, rows), rows)
    ensures Instants(Take(all, limit)) == Instants(Take(Sort(LatestFirst, rows), limit))
    ensures Antisymmetric(LatestFirst, rows) ==> all == Sort(LatestFirst, rows)
  {
    var sorted := Sort(LatestFirst, rows);
    SortSorts(LatestFirst, rows);
    assert Arranges(sorted, rows);
    SameInstants(all, sorted);
    assert forall i | 0 <= i < |all| :: all[i].checkedAt == Instants(all)[i] == Instants(sorted)[i] == sorted[i].checkedAt;
    assert Instants(Take(all, limit)) == Instants(Take(sorted, limit));
    if Antisymmetric(LatestFirst, rows) {
      assert forall x :: x in rows <==> x in multiset(all);
      SortedUnique(LatestFirst, sorted, all);
    }
  }

  /**
   * The newest checks first: an answer of either store to a limit that is not negative has checks
   * of that member and series only, by descending instant.
   */
  lemma NewestFirst(checks: seq<CheckRecord>, id: string, series: Series, limit: nat, answer: seq<CheckRecord>)
    requires answer == MemoryHistory(checks, id, series, limit) || SqlHistory(checks, id, series, limit, answer)
    ensures forall r | r in answer :: r in checks && r.proxyId == id && r.series == series
    ensures forall i, j | 0 <= i < j < |answer| :: answer[i].checkedAt >= answer[j].checkedAt
  {
    var all := DescendingRows(checks, id, series, limit, answer);
    forall r | r in answer ensures r in checks && r.proxyId == id && r.series == series {
      OwnRow(checks, id, series, all, r);
    }
  }

  lemma OwnRow(checks: seq<CheckRecord>, id: string, series: Series, all: seq<CheckRecord>, r: CheckRecord)
    requires multiset(all) == multiset(Filter(Belongs(id, series), checks)) && r in all
    ensures r in checks && r.proxyId == id && r.series == series
  {
    SameRows(all, Filter(Belongs(id, series), checks));
    assert Belongs(id, series)(r);
  }

  /** An answer has as many rows as the member has checks, up to the limit. */
  lemma AllUpToLimit(checks: seq<CheckRecord>, id: string, series: Series, limit: nat, answer: seq<CheckRecord>)
    requires answer == MemoryHistory(checks, id, series, limit) || SqlHistory(checks, id, series, limit, answer)
    ensures var n := |set i | 0 <= i < |checks| && checks[i].proxyId == id && checks[i].series == series|;
            |answer| == if n < limit then n else limit
  {
    var all := DescendingRows(checks, id, series, limit, answer);
    RowsCounted(checks, id, series);
    SameRows(all, Filter(Belongs(id, series), checks));
  }

  lemma SameRows(xs: seq<CheckRecord>, ys: seq<CheckRecord>)
    requires multiset(xs) == multiset(ys)
    ensures |xs| == |ys| && forall r :: r in xs <==> r in ys
  {
    assert |multiset(xs)| == |xs| && |multiset(ys)| == |ys|;
    forall r ensures r in xs <==> r in ys {
      assert r in xs <==> r in multiset(xs);
    }
  }

  /** A check of the member that an answer leaves out is not later than any that it shows. */
  lemma NothingNewerLeftOut(checks: seq<CheckRecord>, id: string, series: Series, limit: nat, answer: seq<CheckRecord>, a: CheckRecord, r: CheckRecord)
    requires answer == MemoryHistory(checks, id, series, limit) || SqlHistory(checks, id, series, limit, answer)
    requires a in answer && r in checks && r.proxyId == id && r.series == series
    requires multiset(answer)[r] < multiset(checks)[r]
    ensures a.checkedAt >= r.checkedAt
  {
    var all := DescendingRows(checks, id, series, limit, answer);
    FilterMultiset(Belongs(id, series), checks, r);
    LeftOutIsLater(all, |answer|, a, r);
  }

  /** Every answer begins some descending arrangement of the member's checks. */
  lemma DescendingRows(checks: seq<CheckRecord>, id: string, series: Series, limit: nat, answer: seq<CheckRecord>) returns (all: seq<CheckRecord>)
    requires answer == MemoryHistory(checks, id, series, limit) || SqlHistory(checks, id, series, limit, answer)
    ensures multiset(all) == multiset(Filter(Belongs(id, series), checks)) && answer == Take(all, limit)
    ensures forall i, j | 0 <= i < j < |all| :: all[i].checkedAt >= all[j].checkedAt
  {
    var rows := Filter(Belongs(id, series), checks);
    if answer == MemoryHistory(checks, id, series, limit) {
      all := Sort(LatestFirst, rows);
      SortSorts(LatestFirst, rows);
    } else {
      all :| Arranges(all, rows) && answer == Limit(all, limit);
    }
    forall i, j | 0 <= i < j < |all| ensures all[i].checkedAt >= all[j].checkedAt {
      assert LatestFirst(all[i], all[j]);
    }
  }

  lemma RowsCounted(checks: seq<CheckRecord>, id: string, series: Series)
    ensures |Filter(Belongs(id, series), checks)| == |set i | 0 <= i < |checks| && checks[i].proxyId == id && checks[i].series == series|
  {
    FilterCounts(Belongs(id, series), checks);
    assert Positions(Belongs(id, series), checks)
           == set i | 0 <= i < |checks| && checks[i].proxyId == id && checks[i].series == series;
  }

  lemma LeftOutIsLater(all: seq<CheckRecord>, n: nat, a: CheckRecord, r: CheckRecord)
    requires n <= |all| && a in all[..n] && multiset(all[..n])[r] < multiset(all)[r]
    requires forall i, j | 0 <= i < j < |all| :: all[i].checkedAt >= all[j].checkedAt
    ensures a.checkedAt >= r.checkedAt
  {
    assert all == all[..n] + all[n..];
    assert r in multiset(all[n..]);
    var i :| 0 <= i < n && all[i] == a;
    var j :| 0 <= j < |all[n..]| && all[n..][j] == r;
    assert all[n + j] == r;
  }
}
