/** Descending sort of integers, as used by `sorted_by(|a, b| a.cmp(b).reverse())` and
    `sorted_by_key(|n| Reverse(n))`. For plain integers a stable and an unstable sort give
    the same sequence, so a functional insertion sort stands for either. */
module Sorting {
  import opened Util

  predicate SortedDesc(s: seq<int>) {
    forall i, j :: 0 <= i < j < |s| ==> s[i] >= s[j]
  }

  function Insert(x: int, s: seq<int>): (r: seq<int>)
    requires SortedDesc(s)
    ensures SortedDesc(r)
    ensures multiset(r) == multiset(s) + multiset{x}
    ensures |r| == |s| + 1
  {
    if |s| == 0 then [x]
    else if x >= s[0] then [x] + s
    else
      var rest := Insert(x, s[1..]);
      InsertBehind(x, s, rest);
      [s[0]] + rest
  }

  /** Inserting behind the head keeps the head in front of everything inserted after it. */
  lemma InsertBehind(x: int, s: seq<int>, rest: seq<int>)
    requires 0 < |s| && SortedDesc(s) && x < s[0]
    requires SortedDesc(rest) && multiset(rest) == multiset(s[1..]) + multiset{x}
    ensures SortedDesc([s[0]] + rest)
    ensures multiset([s[0]] + rest) == multiset(s) + multiset{x}
  {
    assert s == [s[0]] + s[1..];
    forall k | 0 <= k < |rest|
      ensures rest[k] <= s[0]
    {
      AtMostHead(s, rest[k], x, multiset(rest));
    }
  }

  /** An element of the tail of a sorted sequence, or a smaller new element, is at most
      the head. */
  lemma AtMostHead(s: seq<int>, y: int, x: int, m: multiset<int>)
    requires 0 < |s| && SortedDesc(s) && x < s[0]
    requires m == multiset(s[1..]) + multiset{x} && y in m
    ensures y <= s[0]
  {
    if y != x {
      assert y in multiset(s[1..]);
      var i :| 0 <= i < |s[1..]| && s[1..][i] == y;
      assert s[i + 1] == y;
    }
  }

  function SortDesc(s: seq<int>): (r: seq<int>)
    ensures SortedDesc(r)
    ensures multiset(r) == multiset(s)
    ensures |r| == |s|
  {
    if |s| == 0 then []
    else
      assert s == s[..|s| - 1] + [s[|s| - 1]];
      Insert(s[|s| - 1], SortDesc(s[..|s| - 1]))
  }

  /** The first element of the descending sort is the maximum. */
  lemma SortDescHeadIsMax(s: seq<int>)
    requires 0 < |s|
    ensures SortDesc(s)[0] == MaxOf(s)
  {
    var r := SortDesc(s);
    var m := MaxOf(s);
    assert r[0] in multiset(r);
    var i :| 0 <= i < |s| && s[i] == r[0];
    assert m in multiset(s);
    var j :| 0 <= j < |r| && r[j] == m;
    assert r[0] >= r[j] && s[i] <= m;
  }

  /** Sum of the `k` largest elements (`sorted_desc.take(k).sum()`). */
  function SumLargest(s: seq<int>, k: nat): int {
    var r := SortDesc(s);
    Sum(r[..Min(k, |r|)])
  }

  /** `top` and `rest` split the elements of `s`: `top` holds `k` of them (all of them when
      there are fewer), and nothing left in `rest` is larger than anything in `top`. */
  predicate LargestSplit(s: seq<int>, k: nat, top: seq<int>, rest: seq<int>) {
    && multiset(top) + multiset(rest) == multiset(s)
    && |top| == Min(k, |s|)
    && forall i, j :: 0 <= i < |top| && 0 <= j < |rest| ==> rest[j] <= top[i]
  }

  /** The sum of the `k` largest is the sum of a split's top part. */
  lemma SumLargestSplit(s: seq<int>, k: nat)
    ensures exists top, rest :: LargestSplit(s, k, top, rest) && SumLargest(s, k) == Sum(top)
  {
    var r := SortDesc(s);
    var m := Min(k, |r|);
    assert r == r[..m] + r[m..];
    assert LargestSplit(s, k, r[..m], r[m..]);
  }

  /** When no element is negative, the sum of the `k >= 1` largest is at least the maximum. */
  lemma SumLargestAtLeastMax(s: seq<int>, k: nat)
    requires 0 < |s| && 1 <= k
    requires forall i :: 0 <= i < |s| ==> s[i] >= 0
    ensures SumLargest(s, k) >= MaxOf(s)
  {
    var r := SortDesc(s);
    SortDescHeadIsMax(s);
    var top := r[..Min(k, |r|)];
    var rest := top[1..];
    forall i | 0 <= i < |rest|
      ensures rest[i] >= 0
    {
      assert rest[i] == r[i + 1] && r[i + 1] in multiset(r);
      assert r[i + 1] in s;
      var j :| 0 <= j < |s| && s[j] == r[i + 1];
    }
    SumNonNegative(rest);
    SumFirst(top);
    assert SumLargest(s, k) == Sum(top);
  }

  lemma SumFirst(s: seq<int>)
    requires 0 < |s|
    ensures Sum(s) == s[0] + Sum(s[1..])
  {
    SumAppend([s[0]], s[1..]);
    assert [s[0]] + s[1..] == s;
    assert Sum([s[0]]) == Sum([]) + s[0];
  }

  /** Product of the `k` largest elements (`sorted_desc.take(k).product()`). */
  function ProductLargest(s: seq<int>, k: nat): int {
    var r := SortDesc(s);
    Product(r[..Min(k, |r|)])
  }

  function Product(s: seq<int>): int {
    if |s| == 0 then 1 else Product(s[..|s| - 1]) * s[|s| - 1]
  }

  /** `a` is a largest element of `s` and `b` the largest of what is left without one
      copy of `a`. */
  predicate IsTopTwo(s: seq<int>, a: int, b: int) {
    multiset{a, b} <= multiset(s) && b <= a &&
    forall x :: x in multiset(s) - multiset{a, b} ==> x <= b
  }

  lemma SortedTopTwo(r: seq<int>)
    requires SortedDesc(r) && 2 <= |r|
    ensures IsTopTwo(r, r[0], r[1])
  {
    var a, b := r[0], r[1];
    assert r == [a, b] + r[2..];
    assert multiset(r) == multiset{a, b} + multiset(r[2..]);
    assert multiset(r) - multiset{a, b} == multiset(r[2..]);
    forall x | x in multiset(r) - multiset{a, b}
      ensures x <= b
    {
      assert x in r[2..];
    }
  }

  lemma ProductFirstTwo(r: seq<int>)
    requires 2 <= |r|
    ensures Product(r[..Min(2, |r|)]) == r[0] * r[1]
  {
    var top := r[..2];
    assert top[..1] == [r[0]] && top[..1][..0] == [];
    assert Product(top[..1]) == r[0];
  }

  /** The product of the two largest elements (`sorted_by_key(Reverse).take(2).product()`)
      multiplies a largest element with the largest of the rest. */
  lemma ProductLargestTwo(s: seq<int>)
    requires 2 <= |s|
    ensures exists a, b :: IsTopTwo(s, a, b) && ProductLargest(s, 2) == a * b
  {
    var r := SortDesc(s);
    SortedTopTwo(r);
    ProductFirstTwo(r);
    assert IsTopTwo(s, r[0], r[1]);
  }
}
