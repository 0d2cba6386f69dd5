/** Calorie Counting (day 1): blank-line separated groups of calorie values, the largest
    group total and the sum of the three largest. */
module Day01 {
  import opened Util
  import opened Text
  import Sorting

  /** One input line: a blank line is the separator `0`; anything else must be a
      `NonZeroU32` (`None` stands for the `unwrap` panic on `0` or on a malformed line). */
  function ParseCalorie(line: string): (r: Option<nat>)
    ensures line == "" ==> r == Some(0)
    ensures line != "" && r.Some? ==> 0 < r.value < U32_LIMIT
    ensures line != "" ==> (r.Some? <==> ParseUnsigned(line, U32_LIMIT).Some? && ParseUnsigned(line, U32_LIMIT).value != 0)
  {
    if line == "" then Some(0)
    else match ParseUnsigned(line, U32_LIMIT)
      case Some(v) => if v != 0 then Some(v) else None
      case None => None
  }

  /** Every line parsed; `None` as soon as one line fails. */
  function ParseCalories(lines: seq<string>): (r: Option<seq<nat>>)
    ensures r.Some? <==> forall i :: 0 <= i < |lines| ==> ParseCalorie(lines[i]).Some?
    ensures r.Some? ==> |r.value| == |lines| && forall i :: 0 <= i < |lines| ==> Some(r.value[i]) == ParseCalorie(lines[i])
  {
    if |lines| == 0 then Some([])
    else match (ParseCalories(lines[..|lines| - 1]), ParseCalorie(lines[|lines| - 1]))
      case (Some(init), Some(v)) => Some(init + [v])
      case _ => None
  }

  predicate NoZero(g: seq<nat>) {
    forall i :: 0 <= i < |g| ==> g[i] != 0
  }

  /** Reference grouping: the pieces between the zeros, as `split` would cut them. */
  function SplitZero(v: seq<nat>): (r: seq<seq<nat>>)
    ensures |r| == Count(v, 0) + 1
    ensures forall k :: 0 <= k < |r| ==> NoZero(r[k])
    decreases |v|
  {
    if |v| == 0 then [[]]
    else
      var p := SplitZero(v[..|v| - 1]);
      if Last(v) == 0 then p + [[]] else p[..|p| - 1] + [Last(p) + [Last(v)]]
  }

  /** The nonzero values, in order. */
  function NonZero(v: seq<nat>): (r: seq<nat>)
    ensures NoZero(r) && |r| + Count(v, 0) == |v|
  {
    if |v| == 0 then [] else NonZero(v[..|v| - 1]) + (if Last(v) == 0 then [] else [Last(v)])
  }

  lemma {:induction false} FlattenAppend(gs: seq<seq<nat>>, x: nat)
    requires 0 < |gs|
    ensures Flatten(gs[..|gs| - 1] + [Last(gs) + [x]]) == Flatten(gs) + [x]
  {
    var init := gs[..|gs| - 1];
    var g := Last(gs);
    var gs' := init + [g + [x]];
    assert gs'[..|gs'| - 1] == init;
    assert Flatten(gs') == Flatten(init) + (g + [x]);
    assert Flatten(gs) == Flatten(init) + g;
  }

  /** Concatenating the groups gives back exactly the nonzero values. */
  lemma {:induction false} FlattenSplitZero(v: seq<nat>)
    ensures Flatten(SplitZero(v)) == NonZero(v)
    decreases |v|
  {
    if |v| == 0 {
      assert Flatten<nat>([[]]) == Flatten<nat>([]) + [];
    } else {
      var p := SplitZero(v[..|v| - 1]);
      FlattenSplitZero(v[..|v| - 1]);
      if Last(v) == 0 {
        assert (p + [[]])[..|p|] == p;
      } else {
        FlattenAppend(p, Last(v));
      }
    }
  }

  /** What `input_generator` returns: the pieces, with the final one dropped when empty
      (a separator at the very end, or no input at all). */
  function Grouped(v: seq<nat>): (r: seq<seq<nat>>)
    ensures |r| == Count(v, 0) + (if Last(SplitZero(v)) == [] then 0 else 1)
    ensures Flatten(r) == NonZero(v)
  {
    var p := SplitZero(v);
    FlattenSplitZero(v);
    if Last(p) == [] then
      assert p == p[..|p| - 1] + [[]];
      p[..|p| - 1]
    else p
  }

  /** `input_generator`'s grouping loop: values accumulate in the current group, a `0`
      closes it (even when empty), and a non-empty last group is kept. */
  method Group(values: seq<nat>) returns (groups: seq<seq<nat>>)
    ensures groups == Grouped(values)
  {
    groups := [];
    var current: seq<nat> := [];
    var i := 0;
    while i < |values|
      invariant i <= |values|
      invariant groups + [current] == SplitZero(values[..i])
    {
      assert values[..i + 1][..i] == values[..i];
      if values[i] != 0 {
        current := current + [values[i]];
      } else {
        groups := groups + [current];
        current := [];
      }
      i := i + 1;
    }
    assert values[..i] == values;
    if current != [] {
      groups := groups + [current];
    } else {
      assert groups == (groups + [current])[..|groups|];
    }
  }

  /** `input_generator`: `None` when some line does not parse. */
  method InputGenerator(lines: seq<string>) returns (r: Option<seq<seq<nat>>>)
    ensures r.Some? <==> ParseCalories(lines).Some?
    ensures r.Some? ==> r.value == Grouped(ParseCalories(lines).value)
  {
    match ParseCalories(lines)
    case None => return None;
    case Some(values) =>
      var groups := Group(values);
      return Some(groups);
  }

  /** Each group's total. */
  function Totals(groups: seq<seq<nat>>): (r: seq<int>)
    ensures |r| == |groups|
    ensures forall k :: 0 <= k < |r| ==> r[k] == Sum(groups[k]) && r[k] >= 0
  {
    if |groups| == 0 then []
    else
      var g := Last(groups);
      SumNonNegative(g);
      Totals(groups[..|groups| - 1]) + [Sum(g)]
  }

  /** `part1`: the largest total; `None` for no groups (`max().unwrap()`). */
  function Part1(groups: seq<seq<nat>>): (r: Option<int>)
    ensures r.Some? <==> 0 < |groups|
    ensures r.Some? ==> exists k :: 0 <= k < |groups| && r.value == Sum(groups[k])
    ensures r.Some? ==> forall k :: 0 <= k < |groups| ==> Sum(groups[k]) <= r.value
  {
    if |groups| == 0 then None
    else
      var t := Totals(groups);
      var m := MaxOf(t);
      assert exists k :: 0 <= k < |t| && t[k] == m;
      Some(m)
  }

  /** `part2`: the three largest totals, summed (fewer when there are fewer groups). */
  function Part2(groups: seq<seq<nat>>): (r: int)
    ensures exists top, rest :: Sorting.LargestSplit(Totals(groups), 3, top, rest) && r == Sum(top)
  {
    Sorting.SumLargestSplit(Totals(groups), 3);
    Sorting.SumLargest(Totals(groups), 3)
  }

  /** The three largest totals include the largest, and no total is negative, so the
      second answer is never below the first. */
  lemma Part2AtLeastPart1(groups: seq<seq<nat>>)
    requires 0 < |groups|
    ensures Part2(groups) >= Part1(groups).value
  {
    Sorting.SumLargestAtLeastMax(Totals(groups), 3);
  }

  /** A blank line at the very end closes the last group without adding an empty one. */
  lemma TrailingSeparator(v: seq<nat>)
    ensures Grouped(v + [0]) == SplitZero(v)
  {
    assert (v + [0])[..|v|] == v;
    var p := SplitZero(v);
    assert SplitZero(v + [0]) == p + [[]];
    assert (p + [[]])[..|p|] == p;
  }

  /** Without a blank line at the end, the last piece is non-empty and is kept. */
  lemma TrailingValue(v: seq<nat>, x: nat)
    requires x != 0
    ensures Grouped(v + [x]) == SplitZero(v + [x])
    ensures |Grouped(v + [x])| == Count(v, 0) + 1
  {
    assert (v + [x])[..|v|] == v;
  }
}
