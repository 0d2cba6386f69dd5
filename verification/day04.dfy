/** Camp Cleanup (day 4): pairs of section intervals, containment and overlap. */
module Day04 {
  import opened Util
  import opened Text

  /** An inclusive interval of section numbers (`u32` bounds). */
  datatype Interval = Interval(lo: nat, hi: nat)

  predicate WellFormed(a: Interval) {
    a.lo <= a.hi
  }

  /** The sections an interval covers. */
  predicate Covers(a: Interval, x: int) {
    a.lo <= x <= a.hi
  }

  /** `fully_contains(a, b)`: `b` lies inside `a`. */
  predicate FullyContains(a: Interval, b: Interval) {
    b.lo >= a.lo && b.hi <= a.hi
  }

  /** `overlaps`. */
  predicate Overlaps(a: Interval, b: Interval) {
    a.lo <= b.hi && a.hi >= b.lo
  }

  /** For well-formed intervals the bound comparisons mean what they say about sections:
      containment is inclusion of the covered sections, overlap is a shared section. */
  lemma Meaning(a: Interval, b: Interval)
    requires WellFormed(a) && WellFormed(b)
    ensures FullyContains(a, b) <==> forall x :: Covers(b, x) ==> Covers(a, x)
    ensures Overlaps(a, b) <==> exists x :: Covers(a, x) && Covers(b, x)
  {
    if !FullyContains(a, b) {
      assert !Covers(a, b.lo) || !Covers(a, b.hi);
    }
    if Overlaps(a, b) {
      var x := Max(a.lo, b.lo);
      assert Covers(a, x) && Covers(b, x);
    }
  }

  /** Containment is reflexive, overlap is symmetric, and containment either way implies
      overlap for well-formed intervals. */
  lemma Relations(a: Interval, b: Interval)
    ensures FullyContains(a, a)
    ensures Overlaps(a, b) <==> Overlaps(b, a)
    ensures WellFormed(a) && WellFormed(b) && (FullyContains(a, b) || FullyContains(b, a)) ==> Overlaps(a, b)
  {
  }

  /** One interval of the pair contains the other. */
  predicate EitherContains(pair: (Interval, Interval)) {
    FullyContains(pair.0, pair.1) || FullyContains(pair.1, pair.0)
  }

  /** `part1`: the number of pairs where one interval contains the other. */
  function CountContained(pairs: seq<(Interval, Interval)>): (c: nat)
    ensures c == |set i | 0 <= i < |pairs| && EitherContains(pairs[i])|
  {
    if |pairs| == 0 then 0
    else
      var init := pairs[..|pairs| - 1];
      var (l, r) := pairs[|pairs| - 1];
      assert (set i | 0 <= i < |pairs| && EitherContains(pairs[i])) ==
        (set i | 0 <= i < |init| && EitherContains(init[i])) + (if EitherContains(pairs[|init|]) then {|init|} else {});
      CountContained(init) + (if FullyContains(l, r) || FullyContains(r, l) then 1 else 0)
  }

  /** `part2`: the number of pairs that overlap. */
  function CountOverlapping(pairs: seq<(Interval, Interval)>): (c: nat)
    ensures c == |set i | 0 <= i < |pairs| && Overlaps(pairs[i].0, pairs[i].1)|
  {
    if |pairs| == 0 then 0
    else
      var init := pairs[..|pairs| - 1];
      var (l, r) := pairs[|pairs| - 1];
      assert (set i | 0 <= i < |pairs| && Overlaps(pairs[i].0, pairs[i].1)) ==
        (set i | 0 <= i < |init| && Overlaps(init[i].0, init[i].1)) + (if Overlaps(l, r) then {|init|} else {});
      CountOverlapping(init) + (if Overlaps(l, r) then 1 else 0)
  }

  predicate AllWellFormed(pairs: seq<(Interval, Interval)>) {
    forall i :: 0 <= i < |pairs| ==> WellFormed(pairs[i].0) && WellFormed(pairs[i].1)
  }

  /** Every contained pair overlaps, so `part1 <= part2 <= pairs`. */
  lemma {:induction false} ContainedAtMostOverlapping(pairs: seq<(Interval, Interval)>)
    requires AllWellFormed(pairs)
    ensures CountContained(pairs) <= CountOverlapping(pairs) <= |pairs|
    decreases |pairs|
  {
    if |pairs| > 0 {
      var (l, r) := pairs[|pairs| - 1];
      Relations(l, r);
      ContainedAtMostOverlapping(pairs[..|pairs| - 1]);
    }
  }

  /** `lower-upper`: two `u32`s; a reversed interval is an error. */
  function ParseInterval(s: string): (r: Option<Interval>)
    ensures r.Some? ==> WellFormed(r.value) && r.value.hi < U32_LIMIT
  {
    var parts := SplitN(s, 2, '-');
    if |parts| != 2 then None
    else match (ParseUnsigned(parts[0], U32_LIMIT), ParseUnsigned(parts[1], U32_LIMIT))
      case (Some(lo), Some(hi)) => if lo > hi then None else Some(Interval(lo, hi))
      case _ => None
  }

  /** `a-b,c-d`. */
  function ParsePair(line: string): (r: Option<(Interval, Interval)>)
    ensures r.Some? ==> WellFormed(r.value.0) && WellFormed(r.value.1)
  {
    var parts := SplitN(line, 2, ',');
    if |parts| != 2 then None
    else match (ParseInterval(parts[0]), ParseInterval(parts[1]))
      case (Some(a), Some(b)) => Some((a, b))
      case _ => None
  }

  function Render(a: Interval): string {
    NatToString(a.lo) + "-" + NatToString(a.hi)
  }

  /** A rendered interval parses back, and a reversed one is rejected. */
  lemma ParseIntervalRoundTrip(lo: nat, hi: nat)
    requires hi < U32_LIMIT && lo < U32_LIMIT
    ensures ParseInterval(Render(Interval(lo, hi))) == if lo <= hi then Some(Interval(lo, hi)) else None
  {
    var a := NatToString(lo);
    var b := NatToString(hi);
    assert '-' !in a;
    SplitOnceAt(a, '-', b);
    assert SplitN(Render(Interval(lo, hi)), 2, '-') == [a, b] by {
      assert Render(Interval(lo, hi)) == a + ['-'] + b;
      assert SplitN(b, 1, '-') == [b];
    }
    ParseUnsignedRoundTrip(lo, U32_LIMIT);
    ParseUnsignedRoundTrip(hi, U32_LIMIT);
  }

  /** A rendered pair parses back. */
  lemma ParsePairRoundTrip(a: Interval, b: Interval)
    requires WellFormed(a) && WellFormed(b) && a.hi < U32_LIMIT && b.hi < U32_LIMIT
    ensures ParsePair(Render(a) + "," + Render(b)) == Some((a, b))
  {
    var x := Render(a);
    var y := Render(b);
    assert ',' !in x by {
      assert x == NatToString(a.lo) + "-" + NatToString(a.hi);
      forall i | 0 <= i < |x|
        ensures x[i] != ','
      {
        if i < |NatToString(a.lo)| {
          assert x[i] == NatToString(a.lo)[i];
        } else if i > |NatToString(a.lo)| {
          assert x[i] == NatToString(a.hi)[i - |NatToString(a.lo)| - 1];
        }
      }
    }
    SplitOnceAt(x, ',', y);
    assert SplitN(x + "," + y, 2, ',') == [x, y] by {
      assert x + "," + y == x + [','] + y;
      assert SplitN(y, 1, ',') == [y];
    }
    ParseIntervalRoundTrip(a.lo, a.hi);
    ParseIntervalRoundTrip(b.lo, b.hi);
  }
}
