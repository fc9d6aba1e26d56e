/** In-memory counterparts of the query-set operations the endpoints chain:
    `.filter`, `.distinct` and `.order_by` over a sequence of records. */
module Sequences {
  import opened Strings

  /** Records whose keys are in non-decreasing string order. */
  ghost predicate SortedBy<T>(xs: seq<T>, key: T -> string)
  {
    forall i, j :: 0 <= i < j < |xs| ==> Le(key(xs[i]), key(xs[j]))
  }

  /** No record appears twice. */
  ghost predicate NoDuplicates<T>(xs: seq<T>)
  {
    forall i, j :: 0 <= i < j < |xs| ==> xs[i] != xs[j]
  }

  /** `.filter(...)`: the records that satisfy `keep`, in their original order. */
  function Filter<T(!new)>(xs: seq<T>, keep: T -> bool): (r: seq<T>)
    ensures forall x :: x in r <==> x in xs && keep(x)
    ensures forall x :: multiset(r)[x] == if keep(x) then multiset(xs)[x] else 0
  {
    if xs == [] then []
    else
      assert xs == [xs[0]] + xs[1..];
      (if keep(xs[0]) then [xs[0]] else []) + Filter(xs[1..], keep)
  }

  /** Places `x` before the first element whose key is not smaller, so records
      with equal keys keep their relative order. */
  function Insert<T>(x: T, xs: seq<T>, key: T -> string): (r: seq<T>)
    ensures multiset(r) == multiset(xs) + multiset{x}
  {
    if xs == [] then [x]
    else if Le(key(x), key(xs[0])) then [x] + xs
    else
      assert xs == [xs[0]] + xs[1..];
      [xs[0]] + Insert(x, xs[1..], key)
  }

  /** `.order_by(key)`: a stable insertion sort. */
  function SortBy<T>(xs: seq<T>, key: T -> string): (r: seq<T>)
    ensures multiset(r) == multiset(xs)
  {
    if xs == [] then []
    else
      assert xs == [xs[0]] + xs[1..];
      Insert(xs[0], SortBy(xs[1..], key), key)
  }

  /** `.distinct()`: keeps the first occurrence of every record. */
  function Dedup<T(==, !new)>(xs: seq<T>): (r: seq<T>)
    ensures forall x :: x in r <==> x in xs
    ensures forall x :: multiset(r)[x] <= 1
  {
    if xs == [] then []
    else
      var d := Dedup(xs[..|xs| - 1]);
      var x := xs[|xs| - 1];
      assert xs == xs[..|xs| - 1] + [x];
      if x in d then d else d + [x]
  }

  /** Prepending a key no larger than every other keeps a sequence sorted. */
  lemma SortedPrepend<T>(x: T, xs: seq<T>, key: T -> string)
    requires SortedBy(xs, key)
    requires forall y :: y in xs ==> Le(key(x), key(y))
    ensures SortedBy([x] + xs, key)
  {
    forall i, j | 0 <= i < j < |[x] + xs|
      ensures Le(key(([x] + xs)[i]), key(([x] + xs)[j]))
    {
      if i == 0 {
        assert ([x] + xs)[j] == xs[j - 1];
      }
    }
  }

  lemma {:induction false} InsertSorted<T>(x: T, xs: seq<T>, key: T -> string)
    requires SortedBy(xs, key)
    ensures SortedBy(Insert(x, xs, key), key)
  {
    if xs == [] {
    } else if Le(key(x), key(xs[0])) {
      forall y | y in xs ensures Le(key(x), key(y)) {
        var k :| 0 <= k < |xs| && xs[k] == y;
        if k > 0 {
          LeTransitive(key(x), key(xs[0]), key(y));
        }
      }
      SortedPrepend(x, xs, key);
    } else {
      var rest := Insert(x, xs[1..], key);
      InsertSorted(x, xs[1..], key);
      forall y | y in rest ensures Le(key(xs[0]), key(y)) {
        assert y in multiset(rest);
        if y == x {
          LeTotal(key(x), key(xs[0]));
        } else {
          assert y in multiset(xs[1..]);
          var k :| 0 <= k < |xs[1..]| && xs[1..][k] == y;
          assert xs[k + 1] == y;
        }
      }
      SortedPrepend(xs[0], rest, key);
    }
  }

  /** `.order_by(key)` yields a key-sorted permutation of its input. */
  lemma {:induction false} SortBySorted<T>(xs: seq<T>, key: T -> string)
    ensures SortedBy(SortBy(xs, key), key)
  {
    if xs != [] {
      SortBySorted(xs[1..], key);
      InsertSorted(xs[0], SortBy(xs[1..], key), key);
    }
  }

  /** Filtering a sorted sequence leaves it sorted. */
  lemma {:induction false} FilterSorted<T(!new)>(xs: seq<T>, keep: T -> bool, key: T -> string)
    requires SortedBy(xs, key)
    ensures SortedBy(Filter(xs, keep), key)
  {
    if xs != [] {
      var rest := Filter(xs[1..], keep);
      assert SortedBy(xs[1..], key);
      FilterSorted(xs[1..], keep, key);
      if keep(xs[0]) {
        forall y | y in rest ensures Le(key(xs[0]), key(y)) {
          var k :| 0 <= k < |xs[1..]| && xs[1..][k] == y;
          assert xs[k + 1] == y;
        }
        SortedPrepend(xs[0], rest, key);
      }
    }
  }

  /** Two equal entries at distinct positions count twice in the multiset. */
  lemma RepeatCountsTwice<T>(xs: seq<T>, i: int, j: int)
    requires 0 <= i < j < |xs|
    ensures xs[i] == xs[j] ==> multiset(xs)[xs[i]] >= 2
  {
    assert xs == xs[..j] + xs[j..];
    assert xs[..j][i] == xs[i];
    assert xs[j..][0] == xs[j];
    assert multiset(xs)[xs[i]] == multiset(xs[..j])[xs[i]] + multiset(xs[j..])[xs[i]];
  }

  /** A sequence in which every record counts at most once has no duplicates. */
  lemma CountAtMostOneNoDuplicates<T>(xs: seq<T>)
    requires forall x :: multiset(xs)[x] <= 1
    ensures NoDuplicates(xs)
  {
    forall i, j | 0 <= i < j < |xs| ensures xs[i] != xs[j] {
      RepeatCountsTwice(xs, i, j);
    }
  }
}
