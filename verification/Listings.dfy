/** Rollup tables laid out as the stores return them: for each member, its rows by ascending bucket. */
module Listings {
  import opened Prelude
  import opened Sorting
  import opened Checks
  import opened Windows
  import opened Stores

  type RowLists = map<string, seq<Rollup>>

  /** Python's `lists.get(id, [])`. */
  function GetRows(lists: RowLists, id: string): seq<Rollup> {
    if id in lists then lists[id] else []
  }

  ghost predicate Ascending(rows: seq<Rollup>) {
    forall i, j | 0 <= i < j < |rows| :: rows[i].bucket < rows[j].bucket
  }

  /** The rows are exactly the table's entries for id, by ascending bucket. */
  ghost predicate IsListing(rows: seq<Rollup>, t: RollupTable, id: string) {
    && Ascending(rows)
    && (forall row | row in rows :: (id, row.bucket) in t && t[(id, row.bucket)] == row)
    && (forall k | k in t && k.0 == id :: t[k] in rows)
  }

  ghost predicate Lists(lists: RowLists, t: RollupTable) {
    forall id :: IsListing(GetRows(lists, id), t, id)
  }

  /** Every entry carries its own cell. */
  ghost predicate Keyed(t: RollupTable) {
    forall k | k in t :: t[k].proxyId == k.0 && t[k].bucket == k.1
  }

  lemma TableKeyed(engine: Engine, width: nat, series: Series, records: seq<CheckRecord>)
    requires width > 0
    ensures Keyed(Table(engine, width, series, records))
  {
  }

  predicate EarlierRow(a: Rollup, b: Rollup) {
    a.bucket <= b.bucket
  }

  lemma AscendingUnique(xs: seq<Rollup>, ys: seq<Rollup>)
    requires Ascending(xs) && Ascending(ys)
    requires forall r :: r in xs <==> r in ys
    ensures xs == ys
  {
    SameElements(xs, ys);
    SortedUnique(EarlierRow, xs, ys);
  }

  /** A table has one listing, up to members without rows. */
  lemma ListsUnique(a: RowLists, b: RowLists, t: RollupTable, id: string)
    requires Lists(a, t) && Lists(b, t) && Keyed(t)
    ensures GetRows(a, id) == GetRows(b, id)
  {
    var xs, ys := GetRows(a, id), GetRows(b, id);
    assert IsListing(xs, t, id) && IsListing(ys, t, id);
    AscendingUnique(xs, ys);
  }

  function NotBefore(start: int): Rollup -> bool {
    (row: Rollup) => row.bucket >= start
  }

  lemma {:induction false} FilterAscending(rows: seq<Rollup>, start: int)
    requires Ascending(rows)
    ensures Ascending(Filter(NotBefore(start), rows))
  {
    if rows != [] {
      var n := |rows| - 1;
      FilterAscending(rows[..n], start);
      var kept := Filter(NotBefore(start), rows[..n]);
      forall i | 0 <= i < |kept| ensures kept[i].bucket < rows[n].bucket {
        assert kept[i] in rows[..n];
      }
    }
  }

  /** Dropping early buckets from every list lists the later part of the table. */
  function Later(lists: RowLists, start: int): RowLists {
    map id | id in lists :: Filter(NotBefore(start), lists[id])
  }

  lemma LaterLists(lists: RowLists, t: RollupTable, start: int)
    requires Lists(lists, t) && Keyed(t)
    ensures Lists(Later(lists, start), From(t, start)) && Keyed(From(t, start))
  {
    forall id ensures IsListing(GetRows(Later(lists, start), id), From(t, start), id) {
      assert IsListing(GetRows(lists, id), t, id);
      FilterAscending(GetRows(lists, id), start);
    }
  }

  // ---- Building the lists from a sorted list of cells.

  predicate CellLe(a: Cell, b: Cell) {
    (a.0 != b.0 && NameLe(a.0, b.0)) || (a.0 == b.0 && a.1 <= b.1)
  }

  predicate BucketLe(a: Cell, b: Cell) {
    a.1 <= b.1
  }

  lemma CellOrders()
    ensures TotalPreorder(CellLe) && TotalPreorder(BucketLe)
  {
    forall a: Cell, b: Cell ensures CellLe(a, b) || CellLe(b, a) {
      NameLeTotal(a.0, b.0);
    }
    forall a: Cell, b: Cell, c: Cell | CellLe(a, b) && CellLe(b, c) ensures CellLe(a, c) {
      if a.0 != b.0 && b.0 != c.0 {
        NameLeTransitive(a.0, b.0, c.0);
        if a.0 == c.0 {
          NameLeAntisymmetric(a.0, b.0);
        }
      }
    }
  }

  /** Cells of one member appear by ascending bucket. */
  ghost predicate BucketsAscend(cells: seq<Cell>) {
    forall i, j | 0 <= i < j < |cells| && cells[i].0 == cells[j].0 :: cells[i].1 < cells[j].1
  }

  /** Sorting by an order that puts the cells of one member in order of their buckets does that. */
  lemma SortedCellsAscend(le: (Cell, Cell) -> bool, cells: seq<Cell>)
    requires NoDuplicates(cells) && TotalPreorder(le)
    requires forall a, b | le(a, b) && a.0 == b.0 :: a.1 <= b.1
    ensures BucketsAscend(Sort(le, cells))
  {
    SortSorts(le, cells);
    PermutationNoDuplicates(cells, Sort(le, cells));
    var sorted := Sort(le, cells);
    forall i, j | 0 <= i < j < |sorted| && sorted[i].0 == sorted[j].0 ensures sorted[i].1 < sorted[j].1 {
      assert le(sorted[i], sorted[j]) && sorted[i] != sorted[j];
    }
  }

  /** The loop with which both stores group sorted rows by member. */
  method GroupRows(cells: seq<Cell>, t: RollupTable) returns (out: RowLists)
    requires BucketsAscend(cells) && Keyed(t)
    requires forall k :: k in t <==> k in cells
    ensures Lists(out, t)
  {
    out := map[];
    for i := 0 to |cells|
      invariant Lists(out, Part(t, cells[..i]))
    {
      var k := cells[i];
      PartGrows(t, cells, i);
      NextRow(out, Part(t, cells[..i]), k, t[k]);
      out := out[k.0 := GetRows(out, k.0) + [t[k]]];
    }
    assert Part(t, cells[..|cells|]) == t;
  }

  /** The entries of a table whose cells are listed. */
  function Part(t: RollupTable, cells: seq<Cell>): RollupTable {
    map k | k in t && k in cells :: t[k]
  }

  lemma PartGrows(t: RollupTable, cells: seq<Cell>, i: nat)
    requires i < |cells| && cells[i] in t && BucketsAscend(cells)
    ensures Part(t, cells[..i + 1]) == Part(t, cells[..i])[cells[i] := t[cells[i]]]
    ensures forall c | c in Part(t, cells[..i]) && c.0 == cells[i].0 :: c.1 < cells[i].1
  {
    assert cells[..i + 1] == cells[..i] + [cells[i]];
  }

  /** Appending a member's next row lists the table with that row. */
  lemma NextRow(out: RowLists, u: RollupTable, k: Cell, row: Rollup)
    requires Lists(out, u) && row.bucket == k.1
    requires forall c | c in u && c.0 == k.0 :: c.1 < k.1
    ensures Lists(out[k.0 := GetRows(out, k.0) + [row]], u[k := row])
  {
    var grown := out[k.0 := GetRows(out, k.0) + [row]];
    forall id ensures IsListing(GetRows(grown, id), u[k := row], id) {
      assert IsListing(GetRows(out, id), u, id);
      if id == k.0 {
        AppendListing(GetRows(out, id), u, k, row);
      } else {
        assert GetRows(grown, id) == GetRows(out, id);
      }
    }
  }

  lemma AppendListing(rows: seq<Rollup>, u: RollupTable, k: Cell, row: Rollup)
    requires IsListing(rows, u, k.0) && row.bucket == k.1
    requires forall c | c in u && c.0 == k.0 :: c.1 < k.1
    ensures IsListing(rows + [row], u[k := row], k.0)
  {
    assert forall r | r in rows :: r.bucket < row.bucket;
    assert forall r | r in rows + [row] :: r in rows || r == row;
    assert forall c | c in u[k := row] && c.0 == k.0 :: c == k || c in u;
  }
}
