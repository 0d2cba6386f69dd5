/** Rucksack Reorganization (day 3): item priorities, the item common to both
    compartments, and the badge common to each group of three elves. */
module Day03 {
  import opened Util
  import opened Text

  /** `letter_to_number`: `a..z` are 1..26 and `A..Z` are 27..52; any other character
      panics (`None`). */
  function Priority(c: char): (r: Option<nat>)
    ensures r.Some? <==> ('a' <= c <= 'z' || 'A' <= c <= 'Z')
    ensures r.Some? ==> 1 <= r.value <= 52
    ensures r.Some? ==> ('a' <= c <= 'z' <==> r.value <= 26)
  {
    if 'a' <= c <= 'z' then Some(c as int - 'a' as int + 1)
    else if 'A' <= c <= 'Z' then Some(c as int - 'A' as int + 27)
    else None
  }

  /** The inverse: the letter with a given priority. */
  function Letter(p: nat): (c: char)
    requires 1 <= p <= 52
    ensures Priority(c) == Some(p)
  {
    if p <= 26 then ('a' as int + p - 1) as char else ('A' as int + p - 27) as char
  }

  /** Priorities identify letters: the mapping is injective and `Letter` undoes it. */
  lemma PriorityInjective(c: char, d: char)
    requires Priority(c).Some? && Priority(c) == Priority(d)
    ensures c == d && Letter(Priority(c).value) == c
  {
  }

  /** `letters_to_numbers`: the set of priorities of the characters of `s`. */
  function Priorities(s: string): (r: Option<set<nat>>)
    ensures r.Some? <==> forall i :: 0 <= i < |s| ==> Priority(s[i]).Some?
    ensures r.Some? ==> forall p :: p in r.value <==> exists i :: 0 <= i < |s| && Priority(s[i]) == Some(p)
  {
    if |s| == 0 then Some({})
    else match (Priorities(s[..|s| - 1]), Priority(Last(s)))
      case (Some(init), Some(p)) =>
        assert forall i :: 0 <= i < |s| - 1 ==> s[..|s| - 1][i] == s[i];
        Some(init + {p})
      case _ => None
  }

  /** The two compartments of a rucksack as priority sets. */
  datatype Rucksack = Rucksack(left: set<nat>, right: set<nat>)

  /** One line, trimmed, cut in the middle (`len / 2`; the right half gets the odd
      character). */
  function ParseRucksack(line: string): (r: Option<Rucksack>)
    ensures var t := Trim(line);
      r.Some? <==> forall i :: 0 <= i < |t| ==> Priority(t[i]).Some?
    ensures var t := Trim(line);
      r.Some? ==> Priorities(t[..|t| / 2]) == Some(r.value.left) && Priorities(t[|t| / 2..]) == Some(r.value.right)
  {
    var t := Trim(line);
    var h := |t| / 2;
    HalvesLetters(t, h);
    match (Priorities(t[..h]), Priorities(t[h..]))
    case (Some(l), Some(r)) => Some(Rucksack(l, r))
    case _ => None
  }

  /** Every character of `t` has a priority iff every character of both halves does. */
  lemma HalvesLetters(t: string, h: nat)
    requires h <= |t|
    ensures (forall i :: 0 <= i < |t| ==> Priority(t[i]).Some?) <==>
      (forall i :: 0 <= i < |t[..h]| ==> Priority(t[..h][i]).Some?) &&
      (forall i :: 0 <= i < |t[h..]| ==> Priority(t[h..][i]).Some?)
  {
    assert forall i :: 0 <= i < h ==> t[..h][i] == t[i];
    assert forall i :: h <= i < |t| ==> t[h..][i - h] == t[i];
  }

  /** A line that is blank or a valid rucksack. */
  predicate LineOk(line: string) {
    Trim(line) == "" || ParseRucksack(line).Some?
  }

  /** `input_generator`: blank lines (after trimming) are skipped. */
  function InputGenerator(lines: seq<string>): (r: Option<seq<Rucksack>>)
    ensures r.Some? ==> |r.value| <= |lines|
    ensures r.Some? <==> forall i :: 0 <= i < |lines| ==> LineOk(lines[i])
  {
    if |lines| == 0 then Some([])
    else
      var init := lines[..|lines| - 1];
      var line := lines[|lines| - 1];
      AllSnoc(lines, init, LineOk);
      var prev := InputGenerator(init);
      if prev.None? || !LineOk(line) then None
      else if Trim(line) == "" then prev
      else Some(prev.value + [ParseRucksack(line).value])
  }

  /** The only element of a singleton set. */
  function Only(s: set<nat>): (r: nat)
    requires |s| == 1
    ensures s == {r}
  {
    var x :| x in s;
    assert |s - {x}| == 0;
    assert s == {x} by { assert s - {x} == {}; }
    x
  }

  /** `at_most_one().unwrap().unwrap()`: the single element, or a panic (`None`) when
      there are none or several. */
  function Single(s: set<nat>): (r: Option<nat>)
    ensures r.Some? <==> |s| == 1
    ensures r.Some? ==> s == {r.value}
  {
    if |s| == 1 then Some(Only(s)) else None
  }

  /** The item found in both compartments, which must be unique. */
  function Common(r: Rucksack): (c: Option<nat>)
    ensures c.Some? ==> c.value in r.left && c.value in r.right
    ensures c.Some? ==> forall p :: p in r.left && p in r.right ==> p == c.value
    ensures c.None? <==> |r.left * r.right| != 1
  {
    var both := r.left * r.right;
    var c := Single(both);
    assert forall p :: p in r.left && p in r.right ==> p in both;
    c
  }

  /** Sum of the per-item answers; `None` as soon as one is missing. */
  function SumAll(xs: seq<Option<nat>>): (r: Option<nat>)
    ensures r.Some? <==> forall i :: 0 <= i < |xs| ==> xs[i].Some?
  {
    if |xs| == 0 then Some(0)
    else match (SumAll(xs[..|xs| - 1]), Last(xs))
      case (Some(a), Some(b)) => Some(a + b)
      case _ => None
  }

  function CommonAll(rs: seq<Rucksack>): (r: seq<Option<nat>>)
    ensures |r| == |rs| && forall i :: 0 <= i < |rs| ==> r[i] == Common(rs[i])
  {
    if |rs| == 0 then [] else CommonAll(rs[..|rs| - 1]) + [Common(Last(rs))]
  }

  /** `part1`: the sum of the common items' priorities. */
  function Part1(rs: seq<Rucksack>): (r: Option<nat>)
    ensures r.Some? <==> forall i :: 0 <= i < |rs| ==> |rs[i].left * rs[i].right| == 1
  {
    SumAll(CommonAll(rs))
  }

  /** All the items of a rucksack (`l.union(r)`). */
  function Items(r: Rucksack): set<nat> {
    r.left + r.right
  }

  /** The fold of `&` over the groups' item sets, starting from the first. */
  function IntersectAll(gs: seq<Rucksack>): (r: set<nat>)
    requires 0 < |gs|
    ensures forall p :: p in r <==> forall i :: 0 <= i < |gs| ==> p in Items(gs[i])
  {
    if |gs| == 1 then Items(gs[0])
    else
      var init := gs[..|gs| - 1];
      assert forall i :: 0 <= i < |init| ==> init[i] == gs[i];
      IntersectAll(init) * Items(Last(gs))
  }

  /** Every member of the group carries item `p`. */
  predicate Shared(g: seq<Rucksack>, p: nat) {
    forall i :: 0 <= i < |g| ==> p in Items(g[i])
  }

  /** A group's badge: the single item every member carries. */
  function Badge(g: seq<Rucksack>): (b: Option<nat>)
    requires 0 < |g|
    ensures b.Some? <==> |IntersectAll(g)| == 1
    ensures b.Some? ==> Shared(g, b.value)
    ensures b.Some? ==> forall p :: Shared(g, p) ==> p == b.value
  {
    var all := IntersectAll(g);
    assert forall p :: Shared(g, p) ==> p in all;
    Single(all)
  }

  /** `chunks(n)`: consecutive pieces of length `n`, the last one possibly shorter. */
  function Chunks<T>(s: seq<T>, n: nat): (r: seq<seq<T>>)
    requires 0 < n
    ensures forall k :: 0 <= k < |r| ==> 0 < |r[k]| <= n
    ensures forall k :: 0 <= k < |r| - 1 ==> |r[k]| == n
    decreases |s|
  {
    if |s| == 0 then []
    else if |s| <= n then [s]
    else [s[..n]] + Chunks(s[n..], n)
  }

  function Concat<T>(ss: seq<seq<T>>): seq<T> {
    if |ss| == 0 then [] else ss[0] + Concat(ss[1..])
  }

  /** Chunking loses and reorders nothing. */
  lemma {:induction false} ChunksConcat<T>(s: seq<T>, n: nat)
    requires 0 < n
    ensures Concat(Chunks(s, n)) == s
    decreases |s|
  {
    if |s| == 0 {
    } else if |s| <= n {
      assert Concat([s]) == s + Concat([]);
    } else {
      ChunksConcat(s[n..], n);
      var c := Chunks(s, n);
      assert c[1..] == Chunks(s[n..], n);
      assert s == s[..n] + s[n..];
    }
  }

  function Badges(chunks: seq<seq<Rucksack>>): (r: seq<Option<nat>>)
    requires forall k :: 0 <= k < |chunks| ==> 0 < |chunks[k]|
    ensures |r| == |chunks| && forall k :: 0 <= k < |chunks| ==> r[k] == Badge(chunks[k])
  {
    if |chunks| == 0 then [] else Badges(chunks[..|chunks| - 1]) + [Badge(Last(chunks))]
  }

  /** Each group's members share exactly one item. */
  predicate EveryGroupHasBadge(groups: seq<seq<Rucksack>>) {
    forall k :: 0 <= k < |groups| ==> 0 < |groups[k]| && |IntersectAll(groups[k])| == 1
  }

  /** `part2`: the sum of the badges of consecutive groups of three. */
  function Part2(rs: seq<Rucksack>): (r: Option<nat>)
    ensures r.Some? <==> EveryGroupHasBadge(Chunks(rs, 3))
  {
    var g := Chunks(rs, 3);
    var b := Badges(g);
    assert forall k :: 0 <= k < |g| ==> (b[k].Some? <==> |IntersectAll(g[k])| == 1);
    assert (forall k :: 0 <= k < |b| ==> b[k].Some?) <==> (forall k :: 0 <= k < |g| ==> |IntersectAll(g[k])| == 1);
    SumAll(b)
  }

  /** When every answer is present, `SumAll` is their plain sum. */
  lemma {:induction false} SumAllValue(xs: seq<nat>)
    ensures SumAll(Wrap(xs)) == Some(Sum(xs))
  {
    if |xs| > 0 {
      assert Wrap(xs)[..|xs| - 1] == Wrap(xs[..|xs| - 1]);
      SumAllValue(xs[..|xs| - 1]);
    }
  }

  function Wrap(xs: seq<nat>): (r: seq<Option<nat>>)
    ensures |r| == |xs| && forall i :: 0 <= i < |xs| ==> r[i] == Some(xs[i])
  {
    if |xs| == 0 then [] else Wrap(xs[..|xs| - 1]) + [Some(Last(xs))]
  }

  /** A rucksack whose compartments share exactly the letter `c` scores `c`'s priority. */
  lemma CommonLetter(left: string, right: string, c: char)
    requires Priorities(left).Some? && Priorities(right).Some?
    requires Priority(c).Some?
    requires forall i, j :: 0 <= i < |left| && 0 <= j < |right| && left[i] == right[j] ==> left[i] == c
    requires c in left && c in right
    ensures Common(Rucksack(Priorities(left).value, Priorities(right).value)) == Priority(c)
  {
    var l := Priorities(left).value;
    var r := Priorities(right).value;
    var p := Priority(c).value;
    forall q | q in l && q in r ensures q == p {
      var i :| 0 <= i < |left| && Priority(left[i]) == Some(q);
      var j :| 0 <= j < |right| && Priority(right[j]) == Some(q);
      PriorityInjective(left[i], right[j]);
    }
    var i :| 0 <= i < |left| && left[i] == c;
    var j :| 0 <= j < |right| && right[j] == c;
    assert p in l && p in r;
    assert l * r == {p};
  }
}
