/** Small datatypes and arithmetic helpers shared by the solver models. */
module Util {

  /** A value that may be missing; `None` also stands for a run-time panic of the source. */
  datatype Option<T> = None | Some(value: T)

  /** The solvers' `Result<T, ()>`: either a value or a unit error. */
  datatype Result<T> = Ok(value: T) | Err

  /** Rust's `std::cmp::Ordering`. */
  datatype Ordering = Less | Equal | Greater {
    /** `Ordering::reverse`. */
    function Flip(): Ordering {
      match this
      case Less => Greater
      case Equal => Equal
      case Greater => Less
    }

    /** `Ordering::then_with`: the first non-`Equal` verdict wins. */
    function Then(next: Ordering): Ordering {
      if this == Equal then next else this
    }
  }

  /** Three-way comparison of integers (`Ord for u32`, `usize`, ...). */
  function CmpInt(a: int, b: int): (r: Ordering)
    ensures r == Less <==> a < b
    ensures r == Greater <==> a > b
  {
    if a < b then Less else if a == b then Equal else Greater
  }

  function Abs(x: int): nat {
    if x < 0 then -x else x
  }

  /** `i32::signum`. */
  function Sign(x: int): int {
    if x < 0 then -1 else if x == 0 then 0 else 1
  }

  function Max(a: int, b: int): int {
    if a < b then b else a
  }

  function Min(a: int, b: int): int {
    if a < b then a else b
  }

  function Sum(s: seq<int>): int {
    if |s| == 0 then 0 else Sum(s[..|s| - 1]) + s[|s| - 1]
  }

  lemma {:induction false} SumAppend(a: seq<int>, b: seq<int>)
    ensures Sum(a + b) == Sum(a) + Sum(b)
    decreases |b|
  {
    if |b| == 0 {
      assert a + b == a;
    } else {
      assert (a + b)[..|a + b| - 1] == a + b[..|b| - 1];
      SumAppend(a, b[..|b| - 1]);
    }
  }

  lemma {:induction false} SumNonNegative(s: seq<int>)
    requires forall i :: 0 <= i < |s| ==> s[i] >= 0
    ensures Sum(s) >= 0
    decreases |s|
  {
    if |s| > 0 {
      SumNonNegative(s[..|s| - 1]);
    }
  }

  /** Largest element of a non-empty sequence (`Iterator::max().unwrap()`). */
  function MaxOf(s: seq<int>): (m: int)
    requires |s| > 0
    ensures m in s
    ensures forall i :: 0 <= i < |s| ==> s[i] <= m
  {
    if |s| == 1 then s[0] else Max(MaxOf(s[..|s| - 1]), s[|s| - 1])
  }

  /** Smallest element of a non-empty sequence (`Iterator::min().unwrap()`). */
  function MinOf(s: seq<int>): (m: int)
    requires |s| > 0
    ensures m in s
    ensures forall i :: 0 <= i < |s| ==> m <= s[i]
  {
    if |s| == 1 then s[0] else Min(MinOf(s[..|s| - 1]), s[|s| - 1])
  }

  /** The last element of a non-empty sequence. */
  function Last<T>(s: seq<T>): T
    requires 0 < |s|
  {
    s[|s| - 1]
  }

  /** A property holds of every element iff it holds of all but the last and of the last. */
  lemma AllSnoc<T>(s: seq<T>, init: seq<T>, p: T -> bool)
    requires 0 < |s| && init == s[..|s| - 1]
    ensures (forall i :: 0 <= i < |s| ==> p(s[i])) <==>
      (forall i :: 0 <= i < |init| ==> p(init[i])) && p(s[|s| - 1])
  {
    assert forall i :: 0 <= i < |init| ==> init[i] == s[i];
  }

  /** A property holds of every element iff it holds of the first and of all the rest. */
  lemma AllCons<T>(s: seq<T>, rest: seq<T>, p: T -> bool)
    requires 0 < |s| && rest == s[1..]
    ensures (forall i :: 0 <= i < |s| ==> p(s[i])) <==>
      p(s[0]) && (forall i :: 0 <= i < |rest| ==> p(rest[i]))
  {
    assert forall i :: 0 <= i < |rest| ==> rest[i] == s[i + 1];
  }

  /** `f` applied to every element, or `None` as soon as one application fails (a
      `collect` into `Option<Vec<_>>`, or a `map` followed by `unwrap`). */
  function MapAll<A, B>(f: A -> Option<B>, xs: seq<A>): (r: Option<seq<B>>)
    ensures r.Some? <==> forall i :: 0 <= i < |xs| ==> f(xs[i]).Some?
    ensures r.Some? ==> |r.value| == |xs| && forall i :: 0 <= i < |xs| ==> f(xs[i]) == Some(r.value[i])
    decreases |xs|
  {
    if |xs| == 0 then Some([])
    else match (MapAll(f, xs[..|xs| - 1]), f(xs[|xs| - 1]))
      case (Some(init), Some(y)) => Some(init + [y])
      case _ => None
  }

  /** The concatenation of a sequence of sequences, in order. */
  function Flatten<T>(ss: seq<seq<T>>): seq<T>
    decreases |ss|
  {
    if |ss| == 0 then [] else Flatten(ss[..|ss| - 1]) + Last(ss)
  }

  /** An element of the concatenation is an element of one of the pieces. */
  lemma {:induction false} FlattenMembers<T>(ss: seq<seq<T>>, x: T)
    ensures x in Flatten(ss) <==> exists i :: 0 <= i < |ss| && x in ss[i]
    decreases |ss|
  {
    if |ss| != 0 {
      var init := ss[..|ss| - 1];
      FlattenMembers(init, x);
      if x in Flatten(init) {
        var i :| 0 <= i < |init| && x in init[i];
        assert x in ss[i];
      }
      if exists i :: 0 <= i < |ss| && x in ss[i] {
        var i :| 0 <= i < |ss| && x in ss[i];
        if i < |init| {
          assert x in init[i];
        }
      }
    }
  }

  /** Number of positions of `s` holding `x`. */
  function Count<T(==)>(s: seq<T>, x: T): nat {
    if |s| == 0 then 0 else Count(s[..|s| - 1], x) + (if s[|s| - 1] == x then 1 else 0)
  }

  /** The elements of `s` are pairwise distinct (`Itertools::all_unique`). */
  predicate AllDistinct<T(==)>(s: seq<T>) {
    forall i, j :: 0 <= i < j < |s| ==> s[i] != s[j]
  }

  /** The closed integer range `lo ..= hi`. */
  function Range(lo: int, hi: int): (r: set<int>)
    ensures forall x :: x in r <==> lo <= x <= hi
    decreases hi - lo
  {
    if hi < lo then {} else Range(lo, hi - 1) + {hi}
  }

  /** A closed integer range has `hi - lo + 1` members. */
  lemma {:induction false} RangeSize(lo: int, hi: int)
    requires lo <= hi + 1
    ensures |Range(lo, hi)| == hi - lo + 1
    decreases hi - lo
  {
    if lo <= hi {
      RangeSize(lo, hi - 1);
      assert Range(lo, hi) == Range(lo, hi - 1) + {hi};
    } else {
      assert Range(lo, hi) == {};
    }
  }

  /** Quotient and remainder are unique. */
  lemma DivModUnique(n: nat, w: nat, q: nat, r: nat)
    requires 0 < w && r < w && n == q * w + r
    ensures n / w == q && n % w == r
  {
    var q' := n / w;
    var r' := n % w;
    assert n == q' * w + r';
    if q' < q {
      assert q' * w + w <= q * w by { MulLe(q' + 1, q, w); }
    } else if q' > q {
      assert q * w + w <= q' * w by { MulLe(q + 1, q', w); }
    }
  }

  lemma MulLe(a: nat, b: nat, w: nat)
    requires a <= b
    ensures a * w <= b * w
  {
  }

  /** Adding the modulus leaves the remainder unchanged. */
  lemma ModShift(a: nat, n: nat)
    requires 0 < n
    ensures (a + n) % n == a % n
  {
    DivModUnique(a + n, n, a / n + 1, a % n);
  }
}
