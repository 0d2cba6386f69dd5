/** Tuning Trouble (day 6): the end of the first window of `n` pairwise distinct
    characters in the (trimmed) datastream. */
module Day06 {
  import opened Util
  import opened Text

  /** The `n` characters ending just before position `j` are pairwise distinct. */
  predicate MarkerAt(t: string, n: nat, j: nat) {
    n <= j <= |t| && AllDistinct(t[j - n..j])
  }

  /** Reference definition: the first marker end at or after `j`, scanning forwards. */
  function MarkerFrom(t: string, n: nat, j: nat): (r: Option<nat>)
    requires n <= j
    ensures r.Some? ==> j <= r.value && MarkerAt(t, n, r.value)
    ensures r.Some? ==> forall k: nat :: j <= k < r.value ==> !MarkerAt(t, n, k)
    ensures r.None? <==> forall k: nat :: j <= k <= |t| ==> !MarkerAt(t, n, k)
    decreases |t| - j
  {
    if j > |t| then None
    else if AllDistinct(t[j - n..j]) then assert MarkerAt(t, n, j); Some(j)
    else MarkerFrom(t, n, j + 1)
  }

  /** The first marker end in `t`, if any window of `n` distinct characters exists. */
  function Marker(t: string, n: nat): (r: Option<nat>)
    ensures r.Some? ==> MarkerAt(t, n, r.value) && forall k: nat :: k < r.value ==> !MarkerAt(t, n, k)
    ensures r.None? <==> forall k: nat :: k <= |t| ==> !MarkerAt(t, n, k)
  {
    MarkerFrom(t, n, n)
  }

  /** `find_first_distinct`: slide a window of width `n` over the trimmed input and
      report the end of the first window whose characters are all different. The
      `unwrap` on a stream without a marker is `None`; `windows(0)` panics, hence
      `1 <= n`. */
  method FindFirstDistinct(input: string, n: nat) returns (r: Option<nat>)
    requires 1 <= n
    ensures r == Marker(Trim(input), n)
    ensures r.Some? ==> n <= r.value <= |Trim(input)|
  {
    var t := Trim(input);
    var i := 0;
    while i + n <= |t|
      invariant i == 0 || i + n <= |t| + 1
      invariant forall k: nat :: k < i + n ==> !MarkerAt(t, n, k)
      decreases |t| - i
    {
      if AllDistinct(t[i..i + n]) {
        assert MarkerAt(t, n, i + n);
        MarkerFirst(t, n, i + n);
        return Some(i + n);
      }
      assert !MarkerAt(t, n, i + n);
      i := i + 1;
    }
    MarkerNone(t, n);
    return None;
  }

  /** A marker that is the first one is what `Marker` reports. */
  lemma MarkerFirst(t: string, n: nat, j: nat)
    requires MarkerAt(t, n, j) && forall k: nat :: k < j ==> !MarkerAt(t, n, k)
    ensures Marker(t, n) == Some(j)
  {
  }

  lemma MarkerNone(t: string, n: nat)
    requires forall k: nat :: k <= |t| ==> !MarkerAt(t, n, k)
    ensures Marker(t, n) == None
  {
  }

  /** Any part of a window of distinct characters is itself distinct. */
  lemma DistinctSuffix(t: string, n: nat, m: nat, j: nat)
    requires m <= n && MarkerAt(t, n, j)
    ensures MarkerAt(t, m, j)
  {
    var w := t[j - n..j];
    var v := t[j - m..j];
    assert forall a :: 0 <= a < m ==> v[a] == w[n - m + a];
  }

  /** A message marker (14 distinct) never ends before the packet marker (4 distinct):
      the last four characters of the message marker already form a packet marker. */
  lemma PacketBeforeMessage(t: string)
    requires Marker(t, 14).Some?
    ensures Marker(t, 4).Some? && Marker(t, 4).value <= Marker(t, 14).value
  {
    var j := Marker(t, 14).value;
    DistinctSuffix(t, 14, 4, j);
  }

  /** `part1` and `part2`. */
  method Part1(input: string) returns (r: Option<nat>)
    ensures r == Marker(Trim(input), 4)
  {
    r := FindFirstDistinct(input, 4);
  }

  method Part2(input: string) returns (r: Option<nat>)
    ensures r == Marker(Trim(input), 14)
  {
    r := FindFirstDistinct(input, 14);
  }

  const SAMPLE: string := "mjqjpqmgbljsphdztnvjfqwrcgsmlb"

  /** The first sample stream: the packet marker ends at 7. */
  lemma Sample()
    ensures Marker(SAMPLE, 4) == Some(7)
  {
    SampleWindows();
    assert forall k: nat :: k < 7 ==> !MarkerAt(SAMPLE, 4, k) by {
      forall k: nat | k < 7
        ensures !MarkerAt(SAMPLE, 4, k)
      {
        if k == 4 {} else if k == 5 {} else if k == 6 {}
      }
    }
    MarkerFirst(SAMPLE, 4, 7);
  }

  lemma SampleWindows()
    ensures MarkerAt(SAMPLE, 4, 7)
    ensures !MarkerAt(SAMPLE, 4, 4) && !MarkerAt(SAMPLE, 4, 5) && !MarkerAt(SAMPLE, 4, 6)
  {
    var t := SAMPLE;
    assert t[3] == 'j' && t[4] == 'p' && t[5] == 'q' && t[6] == 'm';
    DistinctFour(t, 7);
    assert t[1] == t[3] == 'j' && t[2] == t[5] == 'q';
    Repeated(t, 4, 4, 1, 3);
    Repeated(t, 4, 5, 1, 3);
    Repeated(t, 4, 6, 2, 5);
  }

  /** Four pairwise different characters before `j` make a packet marker ending at `j`. */
  lemma DistinctFour(t: string, j: nat)
    requires 4 <= j <= |t|
    requires t[j - 4] != t[j - 3] && t[j - 4] != t[j - 2] && t[j - 4] != t[j - 1]
    requires t[j - 3] != t[j - 2] && t[j - 3] != t[j - 1] && t[j - 2] != t[j - 1]
    ensures MarkerAt(t, 4, j)
  {
    var w := t[j - 4..j];
    assert w[0] == t[j - 4] && w[1] == t[j - 3] && w[2] == t[j - 2] && w[3] == t[j - 1];
  }

  /** A character repeated inside the window rules out a marker ending at `j`. */
  lemma Repeated(t: string, n: nat, j: nat, a: nat, b: nat)
    requires n <= j <= |t| && j - n <= a < b < j && t[a] == t[b]
    ensures !MarkerAt(t, n, j)
  {
    var w := t[j - n..j];
    assert w[a - (j - n)] == t[a] && w[b - (j - n)] == t[b];
  }
}
