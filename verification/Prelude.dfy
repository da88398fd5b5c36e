/** Shared vocabulary: optional values, list comprehensions and the order of names. */
module Prelude {
  datatype Option<+T> = None | Some(value: T)

  function Max(a: int, b: int): (m: int)
    ensures m >= a && m >= b && (m == a || m == b)
  {
    if a >= b then a else b
  }

  /** The elements of xs that satisfy p, in order: a list comprehension with an `if`. */
  function Filter<T(!new)>(p: T -> bool, xs: seq<T>): (ys: seq<T>)
    ensures |ys| <= |xs|
    ensures forall y :: y in ys <==> y in xs && p(y)
  {
    if xs == [] then []
    else
      var n := |xs| - 1;
      assert xs == xs[..n] + [xs[n]];
      Filter(p, xs[..n]) + (if p(xs[n]) then [xs[n]] else [])
  }

  /** The first element that satisfies p: Python's `next(..., None)`. */
  function First<T(!new)>(p: T -> bool, xs: seq<T>): (r: Option<T>)
    ensures r.Some? ==> r.value in xs && p(r.value)
    ensures r.None? ==> forall x | x in xs :: !p(x)
  {
    if xs == [] then None
    else if p(xs[0]) then Some(xs[0])
    else First(p, xs[1..])
  }

  /** The first n elements, or all of them: Python's `xs[:n]`. */
  function Take<T>(xs: seq<T>, n: nat): (ys: seq<T>)
    ensures ys <= xs && |ys| <= n && (|ys| == n || ys == xs)
  {
    if |xs| <= n then xs else xs[..n]
  }

  lemma FilterAppend<T(!new)>(p: T -> bool, xs: seq<T>, x: T)
    ensures Filter(p, xs + [x]) == Filter(p, xs) + (if p(x) then [x] else [])
  {
    assert (xs + [x])[..|xs|] == xs;
  }

  lemma {:induction false} FilterConcat<T(!new)>(p: T -> bool, xs: seq<T>, ys: seq<T>)
    ensures Filter(p, xs + ys) == Filter(p, xs) + Filter(p, ys)
  {
    if ys == [] {
      assert xs + ys == xs;
    } else {
      var n := |ys| - 1;
      assert (xs + ys)[..|xs + ys| - 1] == xs + ys[..n];
      FilterConcat(p, xs, ys[..n]);
    }
  }

  /** Where the elements that satisfy p stand. */
  function Positions<T(!new)>(p: T -> bool, xs: seq<T>): set<int> {
    set i | 0 <= i < |xs| && p(xs[i])
  }

  lemma PositionsAppend<T(!new)>(p: T -> bool, ys: seq<T>, x: T)
    ensures Positions(p, ys + [x]) == if p(x) then Positions(p, ys) + {|ys|} else Positions(p, ys)
  {
  }

  /** The size of a selection is the number of positions selected. */
  lemma {:induction false} FilterCounts<T(!new)>(p: T -> bool, xs: seq<T>)
    ensures |Filter(p, xs)| == |Positions(p, xs)|
  {
    if xs == [] {
      assert Positions(p, xs) == {};
    } else {
      var ys, x := xs[..|xs| - 1], xs[|xs| - 1];
      assert xs == ys + [x];
      FilterCounts(p, ys);
      PositionsAppend(p, ys, x);
      assert |ys| !in Positions(p, ys);
    }
  }

  /** Two tests that agree on every element select the same list. */
  lemma {:induction false} FilterSame<T(!new)>(p: T -> bool, q: T -> bool, xs: seq<T>)
    requires forall x | x in xs :: p(x) == q(x)
    ensures Filter(p, xs) == Filter(q, xs)
  {
    if xs != [] {
      FilterSame(p, q, xs[..|xs| - 1]);
    }
  }

  /** Filtering by p after a weaker test q is filtering by p alone. */
  lemma {:induction false} FilterWeaker<T(!new)>(p: T -> bool, q: T -> bool, xs: seq<T>)
    requires forall x | x in xs && p(x) :: q(x)
    ensures Filter(p, Filter(q, xs)) == Filter(p, xs)
  {
    if xs != [] {
      var ys, x := xs[..|xs| - 1], xs[|xs| - 1];
      assert xs == ys + [x];
      FilterWeaker(p, q, ys);
      FilterAppend(q, ys, x);
      FilterAppend(p, ys, x);
      FilterTail(p, Filter(q, ys), q(x), x);
    }
  }

  lemma FilterTail<T(!new)>(p: T -> bool, xs: seq<T>, kept: bool, x: T)
    ensures Filter(p, xs + (if kept then [x] else [])) == Filter(p, xs) + (if kept && p(x) then [x] else [])
  {
    if kept {
      FilterAppend(p, xs, x);
    } else {
      assert xs + [] == xs;
    }
  }

  lemma {:induction false} FilterSwap<T(!new)>(p: T -> bool, q: T -> bool, xs: seq<T>)
    ensures Filter(p, Filter(q, xs)) == Filter(q, Filter(p, xs))
  {
    if xs != [] {
      var ys, x := xs[..|xs| - 1], xs[|xs| - 1];
      assert xs == ys + [x];
      FilterSwap(p, q, ys);
      FilterAppend(q, ys, x);
      FilterAppend(p, ys, x);
      FilterTail(p, Filter(q, ys), q(x), x);
      FilterTail(q, Filter(p, ys), p(x), x);
    }
  }

  /** A selection split in two disjoint parts has the sum of their sizes. */
  lemma {:induction false} FilterSplit<T(!new)>(p: T -> bool, q: T -> bool, r: T -> bool, xs: seq<T>)
    requires forall x | x in xs :: (r(x) <==> p(x) || q(x)) && !(p(x) && q(x))
    ensures |Filter(r, xs)| == |Filter(p, xs)| + |Filter(q, xs)|
  {
    if xs != [] {
      FilterSplit(p, q, r, xs[..|xs| - 1]);
    }
  }

  /** How many elements are selected does not depend on the order of the list. */
  lemma {:induction false} FilterMultiset<T(!new)>(p: T -> bool, xs: seq<T>, v: T)
    ensures multiset(Filter(p, xs))[v] == if p(v) then multiset(xs)[v] else 0
  {
    if xs != [] {
      var n := |xs| - 1;
      assert xs == xs[..n] + [xs[n]];
      FilterMultiset(p, xs[..n], v);
    }
  }

  /** Lexicographic order of strings by code point, as Python compares `str`. */
  predicate NameLe(a: string, b: string) {
    a == [] || (b != [] && (a[0] < b[0] || (a[0] == b[0] && NameLe(a[1..], b[1..]))))
  }

  /** At some position the names differ for the first time, and a has the smaller character there. */
  ghost predicate SmallerAt(a: string, b: string, i: nat) {
    i < |a| && i < |b| && a[..i] == b[..i] && a[i] < b[i]
  }

  /** The order is the dictionary's: a begins b, or has the smaller character where they first differ. */
  lemma {:induction false} NameLeIff(a: string, b: string)
    ensures NameLe(a, b) <==> a <= b || exists i: nat :: SmallerAt(a, b, i)
  {
    if a != [] && b != [] {
      NameLeIff(a[1..], b[1..]);
      assert a == [a[0]] + a[1..] && b == [b[0]] + b[1..];
      if a[0] < b[0] {
        assert SmallerAt(a, b, 0);
      } else if a[0] == b[0] && NameLe(a[1..], b[1..]) && !(a[1..] <= b[1..]) {
        var i: nat :| SmallerAt(a[1..], b[1..], i);
        assert a[..i + 1] == [a[0]] + a[1..][..i] && b[..i + 1] == [b[0]] + b[1..][..i];
        assert SmallerAt(a, b, i + 1);
      }
      if i: nat :| SmallerAt(a, b, i) {
        if i > 0 {
          assert a[0] == a[..i][0] == b[..i][0] == b[0];
          assert a[1..][..i - 1] == a[..i][1..] && b[1..][..i - 1] == b[..i][1..];
          assert SmallerAt(a[1..], b[1..], i - 1);
        }
      }
    }
  }

  lemma NameLeTotal(a: string, b: string)
    ensures NameLe(a, b) || NameLe(b, a)
  {
  }

  lemma {:induction false} NameLeAntisymmetric(a: string, b: string)
    requires NameLe(a, b) && NameLe(b, a)
    ensures a == b
  {
    if a != [] {
      NameLeAntisymmetric(a[1..], b[1..]);
      assert a == [a[0]] + a[1..] && b == [b[0]] + b[1..];
    }
  }

  lemma NameLeTransitive(a: string, b: string, c: string)
    requires NameLe(a, b) && NameLe(b, c)
    ensures NameLe(a, c)
  {
  }
}
