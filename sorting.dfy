/**
 * The array methods the catalog code is built from: `filter`, `find`,
 * `findIndex` and a comparator sort, on sequences. `Array.prototype.sort` is
 * modelled by an insertion sort that, like the engine's, moves an element
 * before a later one only when the comparator says it is strictly greater.
 */
module Sorting {
  import opened Text

  /** `xs.findIndex(p)`; `None` is -1. */
  function FindIndex<T>(xs: seq<T>, p: T -> bool): (r: Option<nat>)
    ensures r.Some? ==> r.value < |xs| && p(xs[r.value])
    ensures r.Some? ==> forall j :: 0 <= j < r.value ==> !p(xs[j])
    ensures r.None? <==> forall j :: 0 <= j < |xs| ==> !p(xs[j])
    decreases |xs|
  {
    if |xs| == 0 then None
    else if p(xs[0]) then Some(0)
    else
      var r := FindIndex(xs[1..], p);
      if r.Some? then Some(r.value + 1) else None
  }

  /** `findIndex` gives exactly the first position that passes. */
  lemma FindIndexFirst<T>(xs: seq<T>, p: T -> bool, k: int)
    requires 0 <= k < |xs| && p(xs[k]) && forall j :: 0 <= j < k ==> !p(xs[j])
    ensures FindIndex(xs, p) == Some(k)
  {
    var m := FindIndex(xs, p);
    assert m.Some? && !(m.value < k) && !(k < m.value);
  }

  /** `xs.find(p)`; `None` is `undefined`. */
  function Find<T>(xs: seq<T>, p: T -> bool): (r: Option<T>)
    ensures r.Some? <==> FindIndex(xs, p).Some?
    ensures r.Some? ==> r.value == xs[FindIndex(xs, p).value]
  {
    var i := FindIndex(xs, p);
    if i.Some? then Some(xs[i.value]) else None
  }

  /** `xs.filter(p)` */
  function Filter<T>(xs: seq<T>, p: T -> bool): (r: seq<T>)
    ensures |r| <= |xs|
    ensures forall i :: 0 <= i < |r| ==> p(r[i])
    decreases |xs|
  {
    if |xs| == 0 then []
    else if p(xs[0]) then [xs[0]] + Filter(xs[1..], p)
    else Filter(xs[1..], p)
  }

  /** `a` is `b` with some elements left out, the rest in their order. */
  predicate SubsequenceOf<T(==)>(a: seq<T>, b: seq<T>)
    decreases |b|
  {
    if |a| == 0 then true
    else if |b| == 0 then false
    else if a[0] == b[0] then SubsequenceOf(a[1..], b[1..])
    else SubsequenceOf(a, b[1..])
  }

  /** What `filter` keeps is exactly the elements that pass, in their order. */
  lemma {:induction false} FilterSpec<T>(xs: seq<T>, p: T -> bool)
    ensures forall x :: x in Filter(xs, p) <==> x in xs && p(x)
    ensures SubsequenceOf(Filter(xs, p), xs)
    decreases |xs|
  {
    if |xs| > 0 {
      FilterSpec(xs[1..], p);
      assert forall x :: x in xs <==> x == xs[0] || x in xs[1..];
      if p(xs[0]) {
        assert ([xs[0]] + Filter(xs[1..], p))[1..] == Filter(xs[1..], p);
      }
    }
  }

  /** `filter` keeps every passing element as often as it occurs, and drops
      every other one. */
  lemma {:induction false} FilterMultiset<T>(xs: seq<T>, p: T -> bool, x: T)
    ensures multiset(Filter(xs, p))[x] == if p(x) then multiset(xs)[x] else 0
    decreases |xs|
  {
    if |xs| > 0 {
      FilterMultiset(xs[1..], p, x);
      assert xs == [xs[0]] + xs[1..];
    }
  }

  /** Filtering with a predicate every element passes keeps the list. */
  lemma {:induction false} FilterAll<T>(xs: seq<T>, p: T -> bool)
    requires forall i :: 0 <= i < |xs| ==> p(xs[i])
    ensures Filter(xs, p) == xs
    decreases |xs|
  {
    if |xs| > 0 {
      FilterAll(xs[1..], p);
    }
  }

  /** Filtering distributes over concatenation. */
  lemma {:induction false} FilterConcat<T>(a: seq<T>, b: seq<T>, p: T -> bool)
    ensures Filter(a + b, p) == Filter(a, p) + Filter(b, p)
    decreases |a|
  {
    if |a| == 0 {
      assert a + b == b;
    } else {
      assert (a + b)[1..] == a[1..] + b;
      FilterConcat(a[1..], b, p);
    }
  }

  /** `ys` (already sorted) with `x` placed before the first element it is
      not greater than. */
  function InsertBy<T>(x: T, ys: seq<T>, cmp: (T, T) -> int): (r: seq<T>)
    ensures multiset(r) == multiset(ys) + multiset{x}
    decreases |ys|
  {
    if |ys| == 0 || cmp(x, ys[0]) <= 0 then [x] + ys
    else
      assert ys == [ys[0]] + ys[1..];
      [ys[0]] + InsertBy(x, ys[1..], cmp)
  }

  /** `xs.sort(cmp)` on a copy. */
  function SortBy<T>(xs: seq<T>, cmp: (T, T) -> int): (r: seq<T>)
    ensures multiset(r) == multiset(xs)
    ensures |r| == |xs|
    decreases |xs|
  {
    if |xs| == 0 then []
    else
      assert xs == [xs[0]] + xs[1..];
      InsertBy(xs[0], SortBy(xs[1..], cmp), cmp)
  }

  /** The comparator answers consistently: if `a` is greater than `b`, then
      `b` is not greater than `a`. */
  ghost predicate Consistent<T(!new)>(cmp: (T, T) -> int) {
    forall a, b :: cmp(a, b) > 0 ==> cmp(b, a) <= 0
  }

  /** No element is greater than its successor. */
  predicate Sorted<T>(xs: seq<T>, cmp: (T, T) -> int) {
    forall i :: 0 <= i < |xs| - 1 ==> cmp(xs[i], xs[i + 1]) <= 0
  }

  lemma {:induction false} InsertBySorted<T(!new)>(x: T, ys: seq<T>, cmp: (T, T) -> int)
    requires Consistent(cmp) && Sorted(ys, cmp)
    ensures Sorted(InsertBy(x, ys, cmp), cmp)
    ensures |InsertBy(x, ys, cmp)| > 0
    ensures InsertBy(x, ys, cmp)[0] == x || (|ys| > 0 && InsertBy(x, ys, cmp)[0] == ys[0])
    decreases |ys|
  {
    if |ys| > 0 && cmp(x, ys[0]) > 0 {
      var rest := InsertBy(x, ys[1..], cmp);
      InsertBySorted(x, ys[1..], cmp);
      var r := [ys[0]] + rest;
      assert cmp(ys[0], x) <= 0;
      forall i | 0 <= i < |r| - 1
        ensures cmp(r[i], r[i + 1]) <= 0
      {
        if i > 0 {
          assert r[i] == rest[i - 1] && r[i + 1] == rest[i];
        } else if rest[0] != x {
          assert rest[0] == ys[1];
        }
      }
    }
  }

  /** The sort's result is ordered by a consistent comparator. */
  lemma {:induction false} SortBySorted<T(!new)>(xs: seq<T>, cmp: (T, T) -> int)
    requires Consistent(cmp)
    ensures Sorted(SortBy(xs, cmp), cmp)
    decreases |xs|
  {
    if |xs| > 0 {
      SortBySorted(xs[1..], cmp);
      InsertBySorted(xs[0], SortBy(xs[1..], cmp), cmp);
    }
  }

  /** When the comparator orders by an integer key, a sorted list has the
      keys in ascending order. */
  lemma {:induction false} SortedByKey<T>(xs: seq<T>, cmp: (T, T) -> int, key: T -> int)
    requires Sorted(xs, cmp)
    requires forall i :: 0 <= i < |xs| - 1 ==> (cmp(xs[i], xs[i + 1]) <= 0 ==> key(xs[i]) <= key(xs[i + 1]))
    ensures forall i, j :: 0 <= i <= j < |xs| ==> key(xs[i]) <= key(xs[j])
    decreases |xs|
  {
    if |xs| > 1 {
      SortedByKey(xs[1..], cmp, key);
      forall i, j | 0 <= i <= j < |xs|
        ensures key(xs[i]) <= key(xs[j])
      {
        if 0 < i {
          assert xs[i] == xs[1..][i - 1] && xs[j] == xs[1..][j - 1];
        } else if 0 < j {
          assert xs[1] == xs[1..][0] && xs[j] == xs[1..][j - 1];
        }
      }
    }
  }

  /** Code-point order on strings, standing in for `localeCompare`:
      negative, zero or positive. */
  function CompareText(a: string, b: string): (r: int)
    ensures r == 0 <==> a == b
    ensures -1 <= r <= 1
    decreases |a|
  {
    if |a| == 0 && |b| == 0 then 0
    else if |a| == 0 then -1
    else if |b| == 0 then 1
    else if a[0] < b[0] then -1
    else if a[0] > b[0] then 1
    else
      var r := CompareText(a[1..], b[1..]);
      assert r == 0 ==> a == [a[0]] + a[1..] == [b[0]] + b[1..] == b;
      r
  }

  /** Swapping the arguments flips the sign. */
  lemma {:induction false} CompareTextFlip(a: string, b: string)
    ensures CompareText(b, a) == -CompareText(a, b)
    decreases |a|
  {
    if |a| > 0 && |b| > 0 && a[0] == b[0] {
      CompareTextFlip(a[1..], b[1..]);
    }
  }

  lemma {:induction false} CompareTextTransitive(a: string, b: string, c: string)
    requires CompareText(a, b) <= 0 && CompareText(b, c) <= 0
    ensures CompareText(a, c) <= 0
    decreases |a|
  {
    if |a| > 0 && |b| > 0 && |c| > 0 && a[0] == b[0] && b[0] == c[0] {
      CompareTextTransitive(a[1..], b[1..], c[1..]);
    }
  }

  /** "Not greater" is transitive. */
  ghost predicate Transitive<T(!new)>(cmp: (T, T) -> int) {
    forall a, b, c :: cmp(a, b) <= 0 && cmp(b, c) <= 0 ==> cmp(a, c) <= 0
  }

  /** With a transitive comparator, a sorted list has no element greater
      than any later one. */
  lemma {:induction false} SortedAllPairs<T(!new)>(xs: seq<T>, cmp: (T, T) -> int)
    requires Sorted(xs, cmp) && Transitive(cmp)
    ensures forall i, j :: 0 <= i < j < |xs| ==> cmp(xs[i], xs[j]) <= 0
    decreases |xs|
  {
    if |xs| > 1 {
      SortedAllPairs(xs[1..], cmp);
      forall i, j | 0 <= i < j < |xs|
        ensures cmp(xs[i], xs[j]) <= 0
      {
        if 0 < i {
          assert xs[i] == xs[1..][i - 1] && xs[j] == xs[1..][j - 1];
        } else if 1 < j {
          assert xs[1] == xs[1..][0] && xs[j] == xs[1..][j - 1];
          assert cmp(xs[1], xs[j]) <= 0;
        }
      }
    }
  }
}
