/** Python's stable `list.sort(key=...)`, with the key given as the order it induces. */
module Sorting {
  import opened Prelude

  ghost predicate TotalPreorder<T(!new)>(le: (T, T) -> bool) {
    && (forall a, b :: le(a, b) || le(b, a))
    && (forall a, b, c :: le(a, b) && le(b, c) ==> le(a, c))
  }

  ghost predicate SortedBy<T(!new)>(le: (T, T) -> bool, xs: seq<T>) {
    forall i, j | 0 <= i < j < |xs| :: le(xs[i], xs[j])
  }

  /** No two different elements of xs are tied. */
  ghost predicate Antisymmetric<T(!new)>(le: (T, T) -> bool, xs: seq<T>) {
    forall a, b | a in xs && b in xs && le(a, b) && le(b, a) :: a == b
  }

  /** x placed after every element that is not above it, so equal keys keep their order. */
  function Insert<T(!new)>(le: (T, T) -> bool, xs: seq<T>, x: T): (ys: seq<T>)
    ensures multiset(ys) == multiset(xs) + multiset{x}
    ensures |ys| == |xs| + 1
  {
    if xs == [] then [x]
    else
      var n := |xs| - 1;
      assert xs == xs[..n] + [xs[n]];
      if le(xs[n], x) then xs + [x]
      else Insert(le, xs[..n], x) + [xs[n]]
  }

  function Sort<T(!new)>(le: (T, T) -> bool, xs: seq<T>): (ys: seq<T>)
    ensures multiset(ys) == multiset(xs)
    ensures |ys| == |xs|
    ensures forall x :: x in ys <==> x in xs
  {
    if xs == [] then []
    else
      var n := |xs| - 1;
      assert xs == xs[..n] + [xs[n]];
      var ys := Insert(le, Sort(le, xs[..n]), xs[n]);
      assert forall x :: x in ys <==> x in multiset(ys);
      assert forall x :: x in xs <==> x in multiset(xs);
      ys
  }

  lemma {:induction false} InsertSorted<T(!new)>(le: (T, T) -> bool, xs: seq<T>, x: T)
    requires TotalPreorder(le) && SortedBy(le, xs)
    ensures SortedBy(le, Insert(le, xs, x))
  {
    if xs == [] {
    } else if le(xs[|xs| - 1], x) {
      forall i | 0 <= i < |xs| ensures le(xs[i], x) {
        assert i == |xs| - 1 || le(xs[i], xs[|xs| - 1]);
      }
      SortedAppend(le, xs, x);
    } else {
      var ys, y := xs[..|xs| - 1], xs[|xs| - 1];
      InsertSorted(le, ys, x);
      var zs := Insert(le, ys, x);
      forall i | 0 <= i < |zs| ensures le(zs[i], y) {
        assert zs[i] in multiset(zs);
        assert zs[i] == x || zs[i] in multiset(ys);
      }
      SortedAppend(le, zs, y);
    }
  }

  lemma SortedAppend<T(!new)>(le: (T, T) -> bool, xs: seq<T>, x: T)
    requires SortedBy(le, xs) && forall i | 0 <= i < |xs| :: le(xs[i], x)
    ensures SortedBy(le, xs + [x])
  {
  }

  lemma {:induction false} SortSorts<T(!new)>(le: (T, T) -> bool, xs: seq<T>)
    requires TotalPreorder(le)
    ensures SortedBy(le, Sort(le, xs))
  {
    if xs != [] {
      var n := |xs| - 1;
      SortSorts(le, xs[..n]);
      InsertSorted(le, Sort(le, xs[..n]), xs[n]);
    }
  }

  /** Any two elements that satisfy p are tied. */
  ghost predicate Tied<T(!new)>(le: (T, T) -> bool, p: T -> bool) {
    forall a, b | p(a) && p(b) :: le(a, b)
  }

  lemma AppendStable<T(!new)>(p: T -> bool, zs: seq<T>, ys: seq<T>, x: T, y: T)
    requires Filter(p, zs) == if p(x) then Filter(p, ys) + [x] else Filter(p, ys)
    requires !p(x) || !p(y)
    ensures Filter(p, zs + [y]) == if p(x) then Filter(p, ys + [y]) + [x] else Filter(p, ys + [y])
  {
    FilterAppend(p, zs, y);
    FilterAppend(p, ys, y);
  }

  lemma {:induction false} InsertStable<T(!new)>(le: (T, T) -> bool, xs: seq<T>, x: T, p: T -> bool)
    requires forall i | 0 <= i < |xs| && p(xs[i]) :: p(x) ==> le(xs[i], x)
    ensures Filter(p, Insert(le, xs, x)) == if p(x) then Filter(p, xs) + [x] else Filter(p, xs)
  {
    if xs == [] {
      FilterAppend(p, xs, x);
      assert Insert(le, xs, x) == xs + [x];
    } else {
      var n := |xs| - 1;
      var ys, y := xs[..n], xs[n];
      assert xs == ys + [y];
      if le(y, x) {
        FilterAppend(p, xs, x);
      } else {
        InsertStable(le, ys, x, p);
        AppendStable(p, Insert(le, ys, x), ys, x, y);
      }
    }
  }

  /** The sort is stable: elements that are tied with each other keep their order. */
  lemma {:induction false} SortStable<T(!new)>(le: (T, T) -> bool, xs: seq<T>, p: T -> bool)
    requires Tied(le, p)
    ensures Filter(p, Sort(le, xs)) == Filter(p, xs)
  {
    if xs != [] {
      var ys, x := xs[..|xs| - 1], xs[|xs| - 1];
      SortStable(le, ys, p);
      InsertStable(le, Sort(le, ys), x, p);
    }
  }

  /** A list without ties has exactly one sorted arrangement. */
  lemma {:induction false} SortedUnique<T(!new)>(le: (T, T) -> bool, xs: seq<T>, ys: seq<T>)
    requires SortedBy(le, xs) && SortedBy(le, ys)
    requires multiset(xs) == multiset(ys)
    requires Antisymmetric(le, xs)
    requires TotalPreorder(le)
    ensures xs == ys
  {
    assert |multiset(xs)| == |xs| && |multiset(ys)| == |ys|;
    if xs != [] {
      SameFirst(le, xs, ys);
      TailsFit(le, xs, ys);
      SortedUnique(le, xs[1..], ys[1..]);
      assert xs == [xs[0]] + xs[1..] && ys == [ys[0]] + ys[1..];
    }
  }

  lemma TailsFit<T(!new)>(le: (T, T) -> bool, xs: seq<T>, ys: seq<T>)
    requires SortedBy(le, xs) && SortedBy(le, ys) && Antisymmetric(le, xs)
    requires xs != [] && ys != [] && xs[0] == ys[0] && multiset(xs) == multiset(ys)
    ensures SortedBy(le, xs[1..]) && SortedBy(le, ys[1..]) && Antisymmetric(le, xs[1..])
    ensures multiset(xs[1..]) == multiset(ys[1..])
  {
    SortedTail(le, xs);
    SortedTail(le, ys);
    TailMultiset(xs);
    TailMultiset(ys);
  }

  lemma SortedTail<T(!new)>(le: (T, T) -> bool, xs: seq<T>)
    requires SortedBy(le, xs) && xs != []
    ensures SortedBy(le, xs[1..])
  {
  }

  lemma TailMultiset<T>(xs: seq<T>)
    requires xs != []
    ensures multiset(xs[1..]) == multiset(xs) - multiset{xs[0]}
  {
    assert xs == [xs[0]] + xs[1..];
  }

  lemma SameFirst<T(!new)>(le: (T, T) -> bool, xs: seq<T>, ys: seq<T>)
    requires SortedBy(le, xs) && SortedBy(le, ys) && xs != [] && ys != []
    requires multiset(xs) == multiset(ys) && Antisymmetric(le, xs) && TotalPreorder(le)
    ensures xs[0] == ys[0]
  {
    assert ys[0] in multiset(xs) && xs[0] in multiset(ys);
    assert le(xs[0], ys[0]) && le(ys[0], xs[0]);
  }

  /** Sorting forgets the order of a list without ties. */
  lemma SortCanonical<T(!new)>(le: (T, T) -> bool, xs: seq<T>, ys: seq<T>)
    requires TotalPreorder(le) && Antisymmetric(le, xs)
    requires multiset(xs) == multiset(ys)
    ensures Sort(le, xs) == Sort(le, ys)
  {
    SortSorts(le, xs);
    SortSorts(le, ys);
    SortedUnique(le, Sort(le, xs), Sort(le, ys));
  }

  ghost predicate NoDuplicates<T(!new)>(xs: seq<T>) {
    forall i, j | 0 <= i < j < |xs| :: xs[i] != xs[j]
  }

  lemma {:induction false} OccursOnce<T(!new)>(xs: seq<T>, x: T)
    requires NoDuplicates(xs)
    ensures multiset(xs)[x] <= 1
  {
    if xs != [] {
      var n := |xs| - 1;
      assert xs == xs[..n] + [xs[n]];
      OccursOnce(xs[..n], x);
      assert x == xs[n] ==> x !in multiset(xs[..n]);
    }
  }

  lemma PermutationNoDuplicates<T(!new)>(xs: seq<T>, ys: seq<T>)
    requires NoDuplicates(xs) && multiset(xs) == multiset(ys)
    ensures NoDuplicates(ys)
  {
    forall i, j | 0 <= i < j < |ys| ensures ys[i] != ys[j] {
      OccursOnce(xs, ys[j]);
      OccursTwice(ys, i, j);
    }
  }

  lemma OccursTwice<T(!new)>(ys: seq<T>, i: nat, j: nat)
    requires i < j < |ys|
    ensures ys[i] == ys[j] ==> multiset(ys)[ys[j]] >= 2
  {
    var before, after := ys[..j], ys[j + 1..];
    assert ys == before + [ys[j]] + after;
    assert before[i] in multiset(before);
  }

  lemma SameElements<T(!new)>(xs: seq<T>, ys: seq<T>)
    requires NoDuplicates(xs) && NoDuplicates(ys)
    requires forall x :: x in xs <==> x in ys
    ensures multiset(xs) == multiset(ys)
  {
    forall x ensures multiset(xs)[x] == multiset(ys)[x] {
      OccursOnce(xs, x);
      OccursOnce(ys, x);
      assert x in xs <==> x in multiset(xs);
      assert x in ys <==> x in multiset(ys);
    }
  }
}
