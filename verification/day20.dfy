/** Grove Positioning System (day 20): mixing a circular list by moving every number its
    own value of places, tracked as a permutation of the original indices. */
module Day20 {
  import opened Util
  import opened Text

  /** A line the input generator accepts: blank after trimming, or an `isize`. */
  predicate LineOk(line: string) {
    Trim(line) == "" || ParseSigned(Trim(line), I64_MIN, I64_MAX).Some?
  }

  /** `input_generator`: trims every line, skips the blank ones and parses the rest as
      `isize`; `None` where `unwrap` panics on a line that does not parse. */
  function InputGenerator(lines: seq<string>): (r: Option<seq<int>>)
    ensures r.Some? <==> forall i :: 0 <= i < |lines| ==> LineOk(lines[i])
    ensures r.Some? ==> |r.value| <= |lines|
    ensures r.Some? ==> forall k :: 0 <= k < |r.value| ==> I64_MIN <= r.value[k] <= I64_MAX
  {
    if |lines| == 0 then Some([])
    else
      var t := Trim(lines[0]);
      var rest := InputGenerator(lines[1..]);
      AllCons(lines, lines[1..], LineOk);
      if t == "" then rest
      else match ParseSigned(t, I64_MIN, I64_MAX)
        case None => None
        case Some(v) => if rest.None? then None else Some([v] + rest.value)
  }

  /** One number per line. */
  function Render(values: seq<int>): (lines: seq<string>)
    ensures |lines| == |values|
  {
    seq(|values|, k requires 0 <= k < |values| => IntToString(values[k]))
  }

  /** One rendered number is a non-blank line that reads back as the number. */
  lemma LineRoundTrip(v: int)
    requires I64_MIN <= v <= I64_MAX
    ensures Trim(IntToString(v)) == IntToString(v) != ""
    ensures ParseSigned(IntToString(v), I64_MIN, I64_MAX) == Some(v)
  {
    var s := IntToString(v);
    assert !IsWhitespace(s[0]) && !IsWhitespace(s[|s| - 1]);
    TrimUnchanged(s);
    ParseSignedRoundTrip(v, I64_MIN, I64_MAX);
  }

  /** A non-blank line in front adds its number in front. */
  lemma InputGeneratorCons(lines: seq<string>, v: int, rest: seq<int>)
    requires 0 < |lines| && Trim(lines[0]) != ""
    requires ParseSigned(Trim(lines[0]), I64_MIN, I64_MAX) == Some(v)
    requires InputGenerator(lines[1..]) == Some(rest)
    ensures InputGenerator(lines) == Some([v] + rest)
  {
  }

  /** Lines that are the renderings of some numbers read back as those numbers. */
  lemma {:induction false} ReadBack(lines: seq<string>, values: seq<int>)
    requires |lines| == |values|
    requires forall k :: 0 <= k < |values| ==> I64_MIN <= values[k] <= I64_MAX
    requires forall k :: 0 <= k < |values| ==> lines[k] == IntToString(values[k])
    ensures InputGenerator(lines) == Some(values)
    decreases |values|
  {
    if 0 < |values| {
      LineRoundTrip(values[0]);
      ReadBack(lines[1..], values[1..]);
      InputGeneratorCons(lines, values[0], values[1..]);
      assert [values[0]] + values[1..] == values;
    }
  }

  /** Rendering numbers one per line and reading them back gives the numbers. */
  lemma InputGeneratorRoundTrip(values: seq<int>)
    requires forall k :: 0 <= k < |values| ==> I64_MIN <= values[k] <= I64_MAX
    ensures InputGenerator(Render(values)) == Some(values)
  {
    ReadBack(Render(values), values);
  }

  /** `0 .. n - 1` in order: the permutation `mix` starts from. */
  function Identity(n: nat): (r: seq<nat>)
    ensures |r| == n && forall k :: 0 <= k < n ==> r[k] == k
  {
    seq(n, k requires 0 <= k < n => k)
  }

  /** The multiset `{0, 1, .., n - 1}`. */
  function Indices(n: nat): (m: multiset<nat>)
    ensures |m| == n
    ensures forall k: int :: k in m <==> 0 <= k < n
  {
    if n == 0 then multiset{} else Indices(n - 1) + multiset{n - 1}
  }

  /** The identity arrangement holds each index once. */
  lemma {:induction false} IdentityIndices(n: nat)
    ensures multiset(Identity(n)) == Indices(n)
  {
    if n > 0 {
      IdentityIndices(n - 1);
      assert Identity(n) == Identity(n - 1) + [n - 1];
    }
  }

  /** `ans` holds every original index `0 .. n - 1` exactly once. */
  predicate IsPerm(ans: seq<nat>, n: nat) {
    multiset(ans) == Indices(n)
  }

  lemma PermLength(ans: seq<nat>, n: nat)
    requires IsPerm(ans, n)
    ensures |ans| == n
  {
    assert |multiset(ans)| == |ans|;
  }

  /** Every index below `n` occurs in a permutation of `0 .. n - 1`. */
  lemma PermContains(ans: seq<nat>, n: nat, i: nat)
    requires IsPerm(ans, n) && i < n
    ensures i in ans
  {
    assert i in multiset(ans);
  }

  /** `position(|&x| x == i)`: the first index holding `i`. */
  function Position(s: seq<nat>, i: nat): (p: nat)
    requires i in s
    ensures p < |s| && s[p] == i
    ensures forall k :: 0 <= k < p ==> s[k] != i
  {
    if s[0] == i then 0 else 1 + Position(s[1..], i)
  }

  /** `Vec::remove`. */
  function Remove(s: seq<nat>, p: nat): (r: seq<nat>)
    requires p < |s|
    ensures |r| == |s| - 1
    ensures multiset(r) + multiset{s[p]} == multiset(s)
  {
    assert s == s[..p] + [s[p]] + s[p + 1..];
    s[..p] + s[p + 1..]
  }

  /** `Vec::insert`. */
  function Insert(s: seq<nat>, k: nat, x: nat): (r: seq<nat>)
    requires k <= |s|
    ensures |r| == |s| + 1 && r[k] == x
    ensures multiset(r) == multiset(s) + multiset{x}
  {
    assert s == s[..k] + s[k..];
    s[..k] + [x] + s[k..]
  }

  /** Inserting at `k` and removing at `k` again restores the list. */
  lemma RemoveInsert(s: seq<nat>, k: nat, x: nat)
    requires k <= |s|
    ensures Remove(Insert(s, k, x), k) == s
  {
    var t := Insert(s, k, x);
    assert t[..k] == s[..k] && t[k + 1..] == s[k..];
    assert s == s[..k] + s[k..];
  }

  /** Where the number with original index `i` lands: `(pos + n) rem_euclid (len - 1)`.
      Dafny's `%` is Euclidean, like `rem_euclid`. */
  function NewIndex(pos: nat, n: int, len: nat): (k: nat)
    requires 1 < len
    ensures k < len - 1
  {
    (pos + n) % (len - 1)
  }

  /** Moving one number: take index `i` out where it stands and reinsert it `n` places on. */
  function MixOne(ans: seq<nat>, i: nat, n: int): (r: seq<nat>)
    requires 1 < |ans| && i in ans
    ensures |r| == |ans| && multiset(r) == multiset(ans)
    ensures r[NewIndex(Position(ans, i), n, |ans|)] == i
    ensures Remove(r, NewIndex(Position(ans, i), n, |ans|)) == Remove(ans, Position(ans, i))
  {
    var pos := Position(ans, i);
    var rest := Remove(ans, pos);
    var k := NewIndex(pos, n, |ans|);
    RemoveInsert(rest, k, i);
    assert multiset(rest) + multiset{i} == multiset(ans);
    Insert(rest, k, i)
  }

  /** One pass of `mix`'s inner loop over the original indices `i .. len - 1`. */
  function MixPass(input: seq<int>, key: int, ans: seq<nat>, i: nat): (r: seq<nat>)
    requires 1 < |input| && IsPerm(ans, |input|) && i <= |input|
    ensures IsPerm(r, |input|)
    decreases |input| - i
  {
    if i == |input| then ans
    else
      PermLength(ans, |input|);
      PermContains(ans, |input|, i);
      MixPass(input, key, MixOne(ans, i, input[i] * key), i + 1)
  }

  /** `iterations` passes, the last applied to the arrangement the others leave. */
  function MixRounds(input: seq<int>, key: int, ans: seq<nat>, iterations: nat): (r: seq<nat>)
    requires 1 < |input| && IsPerm(ans, |input|)
    ensures IsPerm(r, |input|)
    decreases iterations
  {
    if iterations == 0 then ans
    else MixPass(input, key, MixRounds(input, key, ans, iterations - 1), 0)
  }

  /** The arrangement `mix` ends with; `None` where it panics: a single number leaves an
      empty list to take the remainder by. */
  function Mixed(input: seq<int>, key: int, iterations: nat): (r: Option<seq<nat>>)
    ensures r.Some? <==> |input| != 1 || iterations == 0
    ensures r.Some? ==> IsPerm(r.value, |input|)
  {
    IdentityIndices(|input|);
    if iterations == 0 then Some(Identity(|input|))
    else if |input| == 0 then Some([])
    else if |input| == 1 then None
    else Some(MixRounds(input, key, Identity(|input|), iterations))
  }

  /** The first index of `input` holding 0. */
  function ZeroIndex(input: seq<int>): (z: Option<nat>)
    ensures z.Some? <==> 0 in input
    ensures z.Some? ==> z.value < |input| && input[z.value] == 0
    ensures z.Some? ==> forall k :: 0 <= k < z.value ==> input[k] != 0
  {
    if |input| == 0 then None
    else if input[0] == 0 then Some(0)
    else match ZeroIndex(input[1..])
      case None => None
      case Some(k) => Some(k + 1)
  }

  /** The number `steps` places after the 0, cyclically, times the key. */
  function After(input: seq<int>, key: int, ans: seq<nat>, zeroPos: nat, steps: nat): (v: int)
    requires IsPerm(ans, |input|) && 0 < |input|
  {
    PermLength(ans, |input|);
    var k := (steps + zeroPos) % |input|;
    PermElement(ans, |input|, k);
    input[ans[k]] * key
  }

  lemma PermElement(ans: seq<nat>, n: nat, k: nat)
    requires IsPerm(ans, n) && k < |ans|
    ensures ans[k] < n
  {
    assert ans[k] in multiset(ans);
  }

  /** The grove coordinates of an arrangement: the numbers 1000, 2000 and 3000 places
      after the 0, summed. */
  function Coordinates(input: seq<int>, key: int, ans: seq<nat>): int
    requires IsPerm(ans, |input|) && 0 in input
  {
    var z := ZeroIndex(input).value;
    PermContains(ans, |input|, z);
    var zeroPos := Position(ans, z);
    After(input, key, ans, zeroPos, 1000) + After(input, key, ans, zeroPos, 2000) + After(input, key, ans, zeroPos, 3000)
  }

  /** `mix`: the grove coordinates after mixing. `None` where the source panics: no 0 in
      the input (`unwrap`), or a single number. */
  function Mix(input: seq<int>, key: int, iterations: nat): (r: Option<int>)
    ensures r.Some? <==> 0 in input && (|input| != 1 || iterations == 0)
    ensures r.Some? ==> Mixed(input, key, iterations).Some? && r.value == Coordinates(input, key, Mixed(input, key, iterations).value)
  {
    match Mixed(input, key, iterations)
    case Some(ans) => if 0 in input then Some(Coordinates(input, key, ans)) else None
    case None => None
  }

  const DECRYPTION_KEY: int := 811589153

  /** `part1`: one pass with key 1. */
  function Part1(input: seq<int>): Option<int> {
    Mix(input, 1, 1)
  }

  /** `part2`: ten passes with the decryption key. */
  function Part2(input: seq<int>): Option<int> {
    Mix(input, DECRYPTION_KEY, 10)
  }

  /** One pass of `mix`'s inner loop: the original indices `0 .. len - 1` move in order,
      each by its own number times the key. */
  method MixPassLoop(input: seq<int>, key: int, start: seq<nat>) returns (ans: seq<nat>)
    requires 1 < |input| && IsPerm(start, |input|)
    ensures IsPerm(ans, |input|)
    ensures ans == MixPass(input, key, start, 0)
  {
    ans := start;
    for i := 0 to |input|
      invariant IsPerm(ans, |input|)
      invariant MixPass(input, key, ans, i) == MixPass(input, key, start, 0)
    {
      MixPassStep(input, key, ans, i);
      ans := MoveOne(ans, i, input[i] * key);
    }
    MixPassDone(input, key, ans);
  }

  lemma MixPassDone(input: seq<int>, key: int, ans: seq<nat>)
    requires 1 < |input| && IsPerm(ans, |input|)
    ensures MixPass(input, key, ans, |input|) == ans
  {
  }

  /** The body of `mix`'s inner loop: find index `i`, take it out, reinsert it `n` places on. */
  method MoveOne(ans: seq<nat>, i: nat, n: int) returns (r: seq<nat>)
    requires 1 < |ans| && i in ans
    ensures r == MixOne(ans, i, n)
  {
    var pos := Position(ans, i);
    var rest := Remove(ans, pos);
    var k := NewIndex(pos, n, |ans|);
    r := Insert(rest, k, i);
  }

  lemma MixPassStep(input: seq<int>, key: int, ans: seq<nat>, i: nat)
    requires 1 < |input| && IsPerm(ans, |input|) && i < |input|
    ensures |ans| == |input| && i in ans
    ensures IsPerm(MixOne(ans, i, input[i] * key), |input|)
    ensures MixPass(input, key, ans, i) == MixPass(input, key, MixOne(ans, i, input[i] * key), i + 1)
  {
    PermLength(ans, |input|);
    PermContains(ans, |input|, i);
  }

  /** `mix`'s loops: `iterations` passes from the identity arrangement give the functional
      arrangement. */
  method MixLoop(input: seq<int>, key: int, iterations: nat) returns (ans: seq<nat>)
    requires 1 < |input|
    ensures IsPerm(ans, |input|)
    ensures Mixed(input, key, iterations) == Some(ans)
  {
    IdentityIndices(|input|);
    ans := Identity(|input|);
    var round := 0;
    while round < iterations
      invariant round <= iterations && IsPerm(ans, |input|)
      invariant ans == MixRounds(input, key, Identity(|input|), round)
    {
      ans := MixPassLoop(input, key, ans);
      round := round + 1;
    }
  }

  /** The count starts at the 0 itself: zero places after it is the 0. */
  lemma AfterZero(input: seq<int>, key: int, ans: seq<nat>)
    requires IsPerm(ans, |input|) && 0 in input
    ensures ZeroIndex(input).Some? && ZeroIndex(input).value in ans
    ensures After(input, key, ans, Position(ans, ZeroIndex(input).value), 0) == 0
  {
    var z := ZeroIndex(input).value;
    PermContains(ans, |input|, z);
    PermLength(ans, |input|);
    var p := Position(ans, z);
    DivModUnique(p, |input|, 0, p);
  }

  /** Counting is cyclic: `len` more places lead back to the same number. */
  lemma AfterCyclic(input: seq<int>, key: int, ans: seq<nat>, zeroPos: nat, steps: nat)
    requires IsPerm(ans, |input|) && 0 < |input|
    ensures After(input, key, ans, zeroPos, steps + |input|) == After(input, key, ans, zeroPos, steps)
  {
    PermLength(ans, |input|);
    ModShift(steps + zeroPos, |input|);
  }
}
