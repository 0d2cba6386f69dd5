/** Proboscidea Volcanium (day 16): a tunnel network of valves, reduced to the flow-positive
    valves plus the start `AA` with all-pairs tunnel distances, then searched for the
    schedule of valve openings that releases the most pressure, alone in 30 minutes
    (`part1`) or together with an elephant in 26 minutes (`part2`). */
module Day16 {
  import opened Util
  import Bfs

  /** A valve name: two upper-case letters. */
  datatype Name = Name(hi: char, lo: char)

  /** The start valve `AA`. */
  const START: Name := Name('A', 'A')

  /** `u32::MAX`, the distance that marks an unreachable valve. */
  const INF: nat := 0xFFFF_FFFF

  /** One input line: `Valve <name> has flow rate=<flow>; tunnels lead to valves <connections>`. */
  datatype RawValve = RawValve(name: Name, flow: nat, connections: seq<Name>)

  /** A valve of the reduced network: its flow rate and the tunnel distance to every
      flow-positive valve, keyed by that valve's index. */
  datatype Valve = Valve(flow: nat, connections: map<nat, nat>)

  // ---------------------------------------------------------------------------------
  // Indexing by (descending flow, name)
  // ---------------------------------------------------------------------------------

  predicate NameLess(a: Name, b: Name) {
    a.hi < b.hi || (a.hi == b.hi && a.lo < b.lo)
  }

  /** The sort key `(Reverse(flow), name)`: larger flow first, ties broken by name. */
  predicate KeyLess(a: RawValve, b: RawValve) {
    a.flow > b.flow || (a.flow == b.flow && NameLess(a.name, b.name))
  }

  predicate DistinctNames(vs: seq<RawValve>) {
    forall i, j :: 0 <= i < j < |vs| ==> vs[i].name != vs[j].name
  }

  predicate SortedByKey(vs: seq<RawValve>) {
    forall i, j :: 0 <= i < j < |vs| ==> KeyLess(vs[i], vs[j])
  }

  function Names(vs: seq<RawValve>): set<Name> {
    set i | 0 <= i < |vs| :: vs[i].name
  }

  /** Line `v` is in `lines`, and no later line describes a valve of the same name. */
  ghost predicate IsLastOf(lines: seq<RawValve>, v: RawValve) {
    exists j :: 0 <= j < |lines| && lines[j] == v && forall k :: j < k < |lines| ==> lines[k].name != v.name
  }

  lemma NamesCons(lines: seq<RawValve>)
    requires 0 < |lines|
    ensures Names(lines) == {lines[0].name} + Names(lines[1..])
  {
    forall n | n in Names(lines)
      ensures n == lines[0].name || n in Names(lines[1..])
    {
      var i :| 0 <= i < |lines| && lines[i].name == n;
      if 0 < i {
        assert lines[1..][i - 1] == lines[i];
      }
    }
    forall n | n in Names(lines[1..])
      ensures n in Names(lines)
    {
      var i :| 0 <= i < |lines[1..]| && lines[1..][i].name == n;
      assert lines[i + 1].name == n;
    }
  }

  /** The valves that `collect` into a hash map keyed by name keeps: a later line with
      the same name replaces an earlier one. */
  function LastWins(lines: seq<RawValve>): (r: seq<RawValve>)
    ensures DistinctNames(r)
    ensures Names(r) == Names(lines)
    ensures forall i :: 0 <= i < |r| ==> IsLastOf(lines, r[i])
    decreases |lines|
  {
    if |lines| == 0 then []
    else
      var rest := LastWins(lines[1..]);
      NamesCons(lines);
      LastOfTail(lines, rest);
      if lines[0].name in Names(lines[1..]) then rest
      else
        NamesCons([lines[0]] + rest);
        assert ([lines[0]] + rest)[1..] == rest;
        assert IsLastOf(lines, lines[0]) by {
          forall k | 0 < k < |lines|
            ensures lines[k].name != lines[0].name
          {
            assert lines[1..][k - 1] == lines[k];
          }
        }
        DistinctCons(lines[0], rest);
        [lines[0]] + rest
  }

  /** Of two lines describing `AA`, the later one is kept. */
  lemma LaterLineWins()
    ensures LastWins([RawValve(START, 1, []), RawValve(START, 2, [])]) == [RawValve(START, 2, [])]
  {
    var lines := [RawValve(START, 1, []), RawValve(START, 2, [])];
    var tail := [RawValve(START, 2, [])];
    assert lines[1..] == tail && tail[1..] == [];
    assert LastWins(tail) == tail;
    assert tail[0].name == START;
  }

  /** The last line of a name in the tail of `lines` is also the last one in `lines`. */
  lemma LastOfTail(lines: seq<RawValve>, rest: seq<RawValve>)
    requires 0 < |lines| && forall i :: 0 <= i < |rest| ==> IsLastOf(lines[1..], rest[i])
    ensures forall i :: 0 <= i < |rest| ==> IsLastOf(lines, rest[i])
  {
    forall i | 0 <= i < |rest|
      ensures IsLastOf(lines, rest[i])
    {
      var j :| 0 <= j < |lines[1..]| && lines[1..][j] == rest[i]
        && forall k :: j < k < |lines[1..]| ==> lines[1..][k].name != rest[i].name;
      forall k | j + 1 < k < |lines|
        ensures lines[k].name != rest[i].name
      {
        assert lines[1..][k - 1] == lines[k];
      }
      assert lines[j + 1] == rest[i];
    }
  }

  lemma DistinctCons(h: RawValve, rest: seq<RawValve>)
    requires DistinctNames(rest) && h.name !in Names(rest)
    ensures DistinctNames([h] + rest)
  {
    var r := [h] + rest;
    forall i, j | 0 <= i < j < |r|
      ensures r[i].name != r[j].name
    {
      assert r[j] == rest[j - 1];
      if 0 < i {
        assert r[i] == rest[i - 1];
      }
    }
  }

  function InsertByKey(x: RawValve, s: seq<RawValve>): (r: seq<RawValve>)
    ensures multiset(r) == multiset(s) + multiset{x}
    ensures |r| == |s| + 1
  {
    if |s| == 0 then [x]
    else if KeyLess(x, s[0]) then [x] + s
    else
      assert s == [s[0]] + s[1..];
      [s[0]] + InsertByKey(x, s[1..])
  }

  /** Inserting a valve with a fresh name into a sorted list keeps it sorted. */
  lemma {:induction false} InsertByKeySorted(x: RawValve, s: seq<RawValve>)
    requires SortedByKey(s)
    requires forall i :: 0 <= i < |s| ==> s[i].name != x.name
    ensures SortedByKey(InsertByKey(x, s))
    decreases |s|
  {
    if |s| > 0 && !KeyLess(x, s[0]) {
      var rest := InsertByKey(x, s[1..]);
      InsertByKeySorted(x, s[1..]);
      assert KeyLess(s[0], x);
      forall k | 0 <= k < |rest|
        ensures KeyLess(s[0], rest[k])
      {
        HeadFirst(x, s, rest[k], multiset(rest));
      }
      assert InsertByKey(x, s) == [s[0]] + rest;
      ConsSorted(s[0], rest);
    }
  }

  /** A valve that sorts before every valve of a sorted list can go in front of it. */
  lemma ConsSorted(h: RawValve, rest: seq<RawValve>)
    requires SortedByKey(rest) && forall k :: 0 <= k < |rest| ==> KeyLess(h, rest[k])
    ensures SortedByKey([h] + rest)
  {
    var r := [h] + rest;
    forall i, j | 0 <= i < j < |r|
      ensures KeyLess(r[i], r[j])
    {
      assert r[j] == rest[j - 1];
      if 0 < i {
        assert r[i] == rest[i - 1];
      }
    }
  }

  /** The head of a sorted list sorts before every element of its tail and before a
      valve that sorts after it. */
  lemma HeadFirst(x: RawValve, s: seq<RawValve>, y: RawValve, m: multiset<RawValve>)
    requires 0 < |s| && SortedByKey(s) && KeyLess(s[0], x)
    requires m == multiset(s[1..]) + multiset{x} && y in m
    ensures KeyLess(s[0], y)
  {
    if y != x {
      assert y in multiset(s[1..]);
      var i :| 0 <= i < |s[1..]| && s[1..][i] == y;
      assert s[i + 1] == y;
    }
  }

  /** An element of a sequence is at some index of any sequence with the same elements. */
  lemma SameElements<T>(a: seq<T>, b: seq<T>, i: nat) returns (p: nat)
    requires multiset(a) == multiset(b) && i < |a|
    ensures p < |b| && b[p] == a[i]
  {
    assert a[i] in multiset(b);
    p :| 0 <= p < |b| && b[p] == a[i];
  }

  /** The valves in index order: `sorted_by_key(|node| (Reverse(node.flow), node.name))`. */
  function SortByKey(vs: seq<RawValve>): (r: seq<RawValve>)
    requires DistinctNames(vs)
    ensures SortedByKey(r)
    ensures multiset(r) == multiset(vs)
    ensures |r| == |vs|
  {
    if |vs| == 0 then []
    else
      var init := vs[..|vs| - 1];
      var sorted := SortByKey(init);
      FreshLast(vs, sorted);
      assert vs == init + [vs[|vs| - 1]];
      InsertByKeySorted(vs[|vs| - 1], sorted);
      InsertByKey(vs[|vs| - 1], sorted)
  }

  /** The last valve's name is not among the others, however they are arranged. */
  lemma FreshLast(vs: seq<RawValve>, others: seq<RawValve>)
    requires 0 < |vs| && DistinctNames(vs) && multiset(others) == multiset(vs[..|vs| - 1])
    ensures forall i :: 0 <= i < |others| ==> others[i].name != vs[|vs| - 1].name
  {
    forall i | 0 <= i < |others|
      ensures others[i].name != vs[|vs| - 1].name
    {
      var p := SameElements(others, vs[..|vs| - 1], i);
      assert vs[p] == others[i];
    }
  }

  /** Sorting keeps the set of names and keeps them distinct. */
  lemma SortByKeyNames(vs: seq<RawValve>)
    requires DistinctNames(vs)
    ensures Names(SortByKey(vs)) == Names(vs)
    ensures DistinctNames(SortByKey(vs))
  {
    var r := SortByKey(vs);
    forall n | n in Names(vs)
      ensures n in Names(r)
    {
      var i :| 0 <= i < |vs| && vs[i].name == n;
      var k := SameElements(vs, r, i);
      assert r[k].name == n;
    }
    forall n | n in Names(r)
      ensures n in Names(vs)
    {
      var k :| 0 <= k < |r| && r[k].name == n;
      var i := SameElements(r, vs, k);
      assert vs[i].name == n;
    }
    forall i, j | 0 <= i < j < |r|
      ensures r[i].name != r[j].name
    {
      var p := SameElements(r, vs, i);
      var q := SameElements(r, vs, j);
      assert KeyLess(r[i], r[j]);
      assert p != q;
    }
  }

  /** Index of the valve called `n`. */
  function Lookup(vs: seq<RawValve>, n: Name): (k: nat)
    requires n in Names(vs)
    ensures k < |vs| && vs[k].name == n
  {
    if vs[0].name == n then 0
    else
      assert n in Names(vs[1..]) by {
        var i :| 0 <= i < |vs| && vs[i].name == n;
        assert vs[1..][i - 1] == vs[i];
      }
      1 + Lookup(vs[1..], n)
  }

  /** The indices of the tunnels `cs` whose names some line describes, in order. */
  function Targets(vs: seq<RawValve>, cs: seq<Name>): (r: seq<nat>)
    ensures forall k :: 0 <= k < |r| ==> r[k] < |vs| && vs[r[k]].name in cs
    ensures forall j :: 0 <= j < |cs| && cs[j] in Names(vs) ==> Lookup(vs, cs[j]) in r
    decreases |cs|
  {
    if |cs| == 0 then []
    else
      var rest := Targets(vs, cs[1..]);
      assert forall j :: 0 < j < |cs| ==> cs[j] == cs[1..][j - 1];
      if cs[0] in Names(vs) then [Lookup(vs, cs[0])] + rest else rest
  }

  /** The tunnel graph over valve indices; a tunnel to a name that no line describes is
      no edge (the search that would follow it panics, see `Resolved`). */
  function TunnelGraph(vs: seq<RawValve>): (g: Bfs.Graph)
    ensures Bfs.ValidGraph(g) && |g| == |vs|
    ensures forall i, t :: 0 <= i < |vs| && t in g[i] ==> t < |vs| && vs[t].name in vs[i].connections
    ensures forall i, j :: 0 <= i < |vs| && 0 <= j < |vs[i].connections| && vs[i].connections[j] in Names(vs) ==>
      Lookup(vs, vs[i].connections[j]) in g[i]
  {
    seq(|vs|, i requires 0 <= i < |vs| => Targets(vs, vs[i].connections))
  }

  /** Every tunnel of valve `n` leads to a valve some line describes. */
  predicate Resolved(vs: seq<RawValve>, n: nat)
    requires n < |vs|
  {
    forall j :: 0 <= j < |vs[n].connections| ==> vs[n].connections[j] in Names(vs)
  }

  /** The breadth-first search over `g` from `src` reaches valve `n`. */
  ghost predicate Reaches(g: Bfs.Graph, src: nat, n: nat) {
    exists k :: 0 <= k < INF && Bfs.Within(g, src, n, k)
  }

  /** Some search `input_generator` runs reaches a valve with a tunnel to a name no line
      describes: the lookup `nodes[to]` panics. */
  ghost predicate ReachesUnknown(vs: seq<RawValve>, g: Bfs.Graph) {
    exists s, n :: 0 <= s < |vs| && 0 <= n < |vs| && Relevant(vs[s]) && Reaches(g, s, n) && !Resolved(vs, n)
  }

  /** A valve survives the reduction when it has positive flow or is the start. */
  predicate Relevant(v: RawValve) {
    v.flow > 0 || v.name == START
  }

  /** Indices `k .. |vs| - 1` of relevant valves, in index order. */
  function RelevantFrom(vs: seq<RawValve>, k: nat): (r: seq<nat>)
    requires k <= |vs|
    ensures forall i :: 0 <= i < |r| ==> k <= r[i] < |vs| && Relevant(vs[r[i]])
    ensures forall i, j :: 0 <= i < j < |r| ==> r[i] < r[j]
    decreases |vs| - k
  {
    if k == |vs| then []
    else if Relevant(vs[k]) then [k] + RelevantFrom(vs, k + 1)
    else RelevantFrom(vs, k + 1)
  }

  /** Every relevant index from `k` on is listed. */
  lemma {:induction false} RelevantFromComplete(vs: seq<RawValve>, k: nat, j: nat)
    requires k <= j < |vs| && Relevant(vs[j])
    ensures j in RelevantFrom(vs, k)
    decreases j - k
  {
    if k < j {
      RelevantFromComplete(vs, k + 1, j);
    }
  }

  /** Indices of the flow-positive valves: the keys every reduced distance map keeps. */
  function PositiveIndices(vs: seq<RawValve>): set<nat> {
    set t | 0 <= t < |vs| && vs[t].flow > 0
  }

  /** Number of leading flow-positive valves. */
  function PositiveCount(vs: seq<RawValve>): (m: nat)
    ensures m <= |vs|
    ensures forall k :: 0 <= k < m ==> vs[k].flow > 0
    ensures m < |vs| ==> vs[m].flow == 0
  {
    if |vs| == 0 || vs[0].flow == 0 then 0 else 1 + PositiveCount(vs[1..])
  }

  /** In index order the flow-positive valves come first: they hold exactly the indices
      `0 .. m - 1`. */
  lemma PositivesFirst(vs: seq<RawValve>)
    requires SortedByKey(vs)
    ensures forall k :: 0 <= k < |vs| ==> (vs[k].flow > 0 <==> k < PositiveCount(vs))
  {
    var m := PositiveCount(vs);
    forall k | m < k < |vs|
      ensures vs[k].flow == 0
    {
      assert KeyLess(vs[m], vs[k]);
    }
  }

  /** The relevant indices start with `k, k + 1, .., m - 1` when those are all positive. */
  lemma {:induction false} RelevantPrefix(vs: seq<RawValve>, k: nat, m: nat)
    requires k <= m <= |vs|
    requires forall j :: k <= j < m ==> vs[j].flow > 0
    ensures m - k <= |RelevantFrom(vs, k)|
    ensures forall i :: 0 <= i < m - k ==> RelevantFrom(vs, k)[i] == k + i
    decreases m - k
  {
    if k < m {
      RelevantPrefix(vs, k + 1, m);
      var r := RelevantFrom(vs, k);
      var rest := RelevantFrom(vs, k + 1);
      assert Relevant(vs[k]);
      assert r == [k] + rest;
      forall i | 0 <= i < m - k
        ensures r[i] == k + i
      {
        if 0 < i {
          assert r[i] == rest[i - 1];
        }
      }
    }
  }

  /** ... and continue with the relevant indices from `m` on. */
  lemma {:induction false} RelevantSuffix(vs: seq<RawValve>, k: nat, m: nat)
    requires k <= m <= |vs|
    requires forall j :: k <= j < m ==> vs[j].flow > 0
    ensures |RelevantFrom(vs, k)| == (m - k) + |RelevantFrom(vs, m)|
    decreases m - k
  {
    if k < m {
      RelevantSuffix(vs, k + 1, m);
      assert Relevant(vs[k]);
      assert |RelevantFrom(vs, k)| == 1 + |RelevantFrom(vs, k + 1)|;
    }
  }

  /** Among zero-flow valves with distinct names at most one is relevant: `AA`. */
  lemma {:induction false} RelevantZeroFlow(vs: seq<RawValve>, k: nat)
    requires k <= |vs| && DistinctNames(vs)
    requires forall j :: k <= j < |vs| ==> vs[j].flow == 0
    ensures |RelevantFrom(vs, k)| <= 1
    ensures forall j :: k <= j < |vs| && vs[j].name != START ==> j !in RelevantFrom(vs, k)
    decreases |vs| - k
  {
    if k < |vs| {
      RelevantZeroFlow(vs, k + 1);
      if vs[k].name == START {
        NoneRelevant(vs, k + 1);
      }
    }
  }

  lemma {:induction false} NoneRelevant(vs: seq<RawValve>, k: nat)
    requires k <= |vs|
    requires forall j :: k <= j < |vs| ==> vs[j].flow == 0 && vs[j].name != START
    ensures RelevantFrom(vs, k) == []
    decreases |vs| - k
  {
    if k < |vs| {
      NoneRelevant(vs, k + 1);
    }
  }

  // ---------------------------------------------------------------------------------
  // The reducer
  // ---------------------------------------------------------------------------------

  /** `v` is the reduction of valve `src`: same flow, and for every flow-positive valve the
      breadth-first tunnel distance to it (`INF` when unreachable). */
  ghost predicate ReducedFrom(vs: seq<RawValve>, g: Bfs.Graph, src: nat, v: Valve) {
    && src < |vs|
    && v.flow == vs[src].flow
    && v.connections.Keys == PositiveIndices(vs)
    && forall t :: t in v.connections ==> Bfs.IsDistance(g, src, t, v.connections[t], INF)
  }

  /** What `input_generator` produces from the valves `raw` it keeps: one reduced valve
      per relevant valve, in index order. */
  ghost predicate Reduces(raw: seq<RawValve>, valves: seq<Valve>)
    requires DistinctNames(raw)
  {
    SortByKeyNames(raw);
    var vs := SortByKey(raw);
    var rel := RelevantFrom(vs, 0);
    && |valves| == |rel|
    && forall i :: 0 <= i < |valves| ==> ReducedFrom(vs, TunnelGraph(vs), rel[i], valves[i])
  }

  /** The graph reducer `input_generator`, from already-parsed input lines. `None` when it
      panics on a tunnel to an undescribed valve. */
  method InputGenerator(lines: seq<RawValve>) returns (r: Option<seq<Valve>>)
    ensures r.None? <==> ReachesUnknown(SortByKey(LastWins(lines)), TunnelGraph(SortByKey(LastWins(lines))))
    ensures r.Some? ==> Reduces(LastWins(lines), r.value)
  {
    var raw := LastWins(lines);
    SortByKeyNames(raw);
    var vs := SortByKey(raw);
    var rel := RelevantFrom(vs, 0);
    var g := TunnelGraph(vs);
    RelevantResolved(vs, g, rel);
    r := ReduceAll(vs, g, rel);
  }

  /** The reduction of every listed source valve, in list order; `None` when one of the
      searches meets an undescribed name. */
  method ReduceAll(vs: seq<RawValve>, g: Bfs.Graph, rel: seq<nat>) returns (r: Option<seq<Valve>>)
    requires Bfs.ValidGraph(g) && |g| == |vs|
    requires forall i :: 0 <= i < |rel| ==> rel[i] < |vs|
    ensures r.None? <==> !SearchesResolved(vs, g, rel, |rel|)
    ensures r.Some? ==> |r.value| == |rel|
    ensures r.Some? ==> forall k :: 0 <= k < |rel| ==> ReducedFrom(vs, g, rel[k], r.value[k])
  {
    var valves := [];
    for i := 0 to |rel|
      invariant |valves| == i
      invariant forall k :: 0 <= k < i ==> ReducedFrom(vs, g, rel[k], valves[k])
      invariant SearchesResolved(vs, g, rel, i)
    {
      var v := ReduceValve(vs, g, rel[i]);
      if v.None? {
        return None;
      }
      valves := valves + [v.value];
    }
    r := Some(valves);
  }

  /** The search from `src` reaches only resolved valves. */
  ghost predicate ReachedResolved(vs: seq<RawValve>, g: Bfs.Graph, src: nat) {
    forall n :: 0 <= n < |vs| && Reaches(g, src, n) ==> Resolved(vs, n)
  }

  /** The searches from the first `i` listed valves reach only resolved valves. */
  ghost predicate SearchesResolved(vs: seq<RawValve>, g: Bfs.Graph, rel: seq<nat>, i: nat) {
    forall k :: 0 <= k < i && k < |rel| ==> ReachedResolved(vs, g, rel[k])
  }

  /** A search from a relevant valve reaches an undescribed name exactly when one from a
      listed relevant valve does. */
  lemma RelevantResolved(vs: seq<RawValve>, g: Bfs.Graph, rel: seq<nat>)
    requires rel == RelevantFrom(vs, 0)
    ensures ReachesUnknown(vs, g) <==> !SearchesResolved(vs, g, rel, |rel|)
  {
    if ReachesUnknown(vs, g) {
      var s, n :| 0 <= s < |vs| && 0 <= n < |vs| && Relevant(vs[s]) && Reaches(g, s, n) && !Resolved(vs, n);
      RelevantFromComplete(vs, 0, s);
      var k :| 0 <= k < |rel| && rel[k] == s;
      assert !ReachedResolved(vs, g, rel[k]);
    }
    if !SearchesResolved(vs, g, rel, |rel|) {
      var k :| 0 <= k < |rel| && !ReachedResolved(vs, g, rel[k]);
      var n :| 0 <= n < |vs| && Reaches(g, rel[k], n) && !Resolved(vs, n);
    }
  }

  /** One reduced valve: a breadth-first search from `src`, then `retain` of the
      flow-positive targets; `None` when the search meets an undescribed name. */
  method ReduceValve(vs: seq<RawValve>, g: Bfs.Graph, src: nat) returns (v: Option<Valve>)
    requires Bfs.ValidGraph(g) && |g| == |vs| && src < |vs|
    ensures v.None? <==> !ReachedResolved(vs, g, src)
    ensures v.Some? ==> ReducedFrom(vs, g, src, v.value)
  {
    var dist := Bfs.Distances(g, src, INF);
    DistanceReaches(g, src, dist);
    if exists n :: 0 <= n < |vs| && dist[n] < INF && !Resolved(vs, n) {
      return None;
    }
    var kept := map t | 0 <= t < |vs| && vs[t].flow > 0 :: dist[t];
    v := Some(Valve(vs[src].flow, kept));
  }

  /** A valve is reached exactly when its search distance is finite. */
  lemma DistanceReaches(g: Bfs.Graph, src: nat, dist: seq<nat>)
    requires |dist| == |g|
    requires forall v :: 0 <= v < |g| ==> Bfs.IsDistance(g, src, v, dist[v], INF)
    ensures forall n :: 0 <= n < |g| ==> (Reaches(g, src, n) <==> dist[n] < INF)
  {
    forall n | 0 <= n < |g|
      ensures Reaches(g, src, n) <==> dist[n] < INF
    {
      assert Bfs.IsDistance(g, src, n, dist[n], INF);
    }
  }

  /** The reduced source valve lies at distance 0 from itself when it is flow-positive. */
  lemma ReducedSelfDistance(raw: seq<RawValve>, valves: seq<Valve>, i: nat)
    requires DistinctNames(raw) && Reduces(raw, valves)
    requires i < |valves| && valves[i].flow > 0
    ensures i in valves[i].connections && valves[i].connections[i] == 0
  {
    SortByKeyNames(raw);
    var vs := SortByKey(raw);
    var rel := RelevantFrom(vs, 0);
    var m := PositiveCount(vs);
    PositivesFirst(vs);
    RelevantPrefix(vs, 0, m);
    ReducedPositives(raw, valves);
    assert rel[i] == i;
    assert Bfs.IsDistance(TunnelGraph(vs), i, i, valves[i].connections[i], INF);
    Bfs.SourceDistance(TunnelGraph(vs), i, valves[i].connections[i], INF);
  }

  /** Sorting by `(Reverse(flow), name)` puts the flow-positive valves at indices
      `0 .. m - 1` of the reduced list. */
  lemma ReducedPositives(raw: seq<RawValve>, valves: seq<Valve>)
    requires DistinctNames(raw) && Reduces(raw, valves)
    ensures PositiveCount(SortByKey(raw)) <= |valves|
    ensures forall i :: 0 <= i < |valves| ==> (valves[i].flow > 0 <==> i < PositiveCount(SortByKey(raw)))
  {
    SortByKeyNames(raw);
    var vs := SortByKey(raw);
    var rel := RelevantFrom(vs, 0);
    var m := PositiveCount(vs);
    PositivesFirst(vs);
    RelevantPrefix(vs, 0, m);
    forall i | 0 <= i < |valves|
      ensures valves[i].flow > 0 <==> i < m
    {
      assert ReducedFrom(vs, TunnelGraph(vs), rel[i], valves[i]);
      if i < m {
        assert rel[i] == i;
      } else if m > 0 {
        assert rel[m - 1] == m - 1;
      }
    }
  }

  /** After the flow-positive valves at most one reduced valve follows: the start. */
  lemma ReducedAtMostStart(raw: seq<RawValve>, valves: seq<Valve>)
    requires DistinctNames(raw) && Reduces(raw, valves)
    ensures |valves| <= PositiveCount(SortByKey(raw)) + 1
  {
    SortByKeyNames(raw);
    var vs := SortByKey(raw);
    var m := PositiveCount(vs);
    PositivesFirst(vs);
    RelevantSuffix(vs, 0, m);
    RelevantZeroFlow(vs, m);
  }

  /** A zero-flow `AA` in the input is kept, right after the flow-positive valves. */
  lemma ReducedHasStart(raw: seq<RawValve>, valves: seq<Valve>, p: nat)
    requires DistinctNames(raw) && Reduces(raw, valves)
    requires p < |raw| && raw[p].name == START && raw[p].flow == 0
    ensures |valves| == PositiveCount(SortByKey(raw)) + 1
  {
    ReducedAtMostStart(raw, valves);
    SortByKeyNames(raw);
    var vs := SortByKey(raw);
    var m := PositiveCount(vs);
    PositivesFirst(vs);
    RelevantSuffix(vs, 0, m);
    assert raw[p] in multiset(vs);
    var a :| 0 <= a < |vs| && vs[a] == raw[p];
    assert Relevant(vs[a]) && m <= a;
    RelevantFromComplete(vs, m, a);
  }

  /** The reduction is well formed: every distance map is keyed by exactly the
      flow-positive reduced valves. */
  lemma ReducedWellFormed(raw: seq<RawValve>, valves: seq<Valve>)
    requires DistinctNames(raw) && Reduces(raw, valves)
    ensures WellFormed(valves)
  {
    ReducedPositives(raw, valves);
    SortByKeyNames(raw);
    var vs := SortByKey(raw);
    PositivesFirst(vs);
    var keys := set t | 0 <= t < |valves| && valves[t].flow > 0;
    assert PositiveIndices(vs) == keys;
    forall i | 0 <= i < |valves|
      ensures valves[i].connections.Keys == keys
    {
      ReducedKeys(raw, valves, i);
    }
  }

  /** Every reduced valve's distance map is keyed by the flow-positive indices. */
  lemma ReducedKeys(raw: seq<RawValve>, valves: seq<Valve>, i: nat)
    requires DistinctNames(raw) && Reduces(raw, valves) && i < |valves|
    ensures valves[i].connections.Keys == PositiveIndices(SortByKey(raw))
  {
    SortByKeyNames(raw);
    var vs := SortByKey(raw);
    var rel := RelevantFrom(vs, 0);
    assert ReducedFrom(vs, TunnelGraph(vs), rel[i], valves[i]);
  }

  // ---------------------------------------------------------------------------------
  // Gain and the shape of a search input
  // ---------------------------------------------------------------------------------

  /** `gain`: the pressure released by walking `d` minutes, opening a valve of flow `flow`
      in the next minute, and leaving it open until the time runs out. */
  function Gain(time: nat, d: nat, flow: nat): (g: nat)
    ensures g == 0 <==> d + 1 >= time || flow == 0
    ensures 1 <= time ==> g <= flow * (time - 1)
  {
    if d + 1 >= time then 0 else flow * (time - d - 1)
  }

  /** Gain grows with the time left and shrinks with the distance. */
  lemma GainMonotone(t: nat, t': nat, d: nat, d': nat, flow: nat)
    requires t <= t' && d' <= d
    ensures Gain(t, d, flow) <= Gain(t', d', flow)
  {
    if d + 1 < t {
      assert t - d - 1 <= t' - d' - 1;
    }
  }

  /** Every distance map is keyed by exactly the flow-positive valves. */
  predicate WellFormed(valves: seq<Valve>) {
    forall i :: 0 <= i < |valves| ==>
      valves[i].connections.Keys == set t | 0 <= t < |valves| && valves[t].flow > 0
  }

  /** Every key of every distance map is a valve index. */
  predicate Closed(valves: seq<Valve>) {
    forall i, n :: 0 <= i < |valves| && n in valves[i].connections ==> n < |valves|
  }

  lemma WellFormedClosed(valves: seq<Valve>)
    requires WellFormed(valves)
    ensures Closed(valves)
  {
    forall i, n | 0 <= i < |valves| && n in valves[i].connections
      ensures n < |valves|
    {
      assert n in valves[i].connections.Keys;
    }
  }

  // ---------------------------------------------------------------------------------
  // Single agent (part 1)
  // ---------------------------------------------------------------------------------

  /** A search state: minutes left, pressure already secured, position and opened valves
      (the bits of the `u64` mask). */
  datatype State1 = State1(time: nat, pressure: nat, pos: nat, open: set<nat>)

  function Start1(valves: seq<Valve>): State1
    requires 0 < |valves|
  {
    State1(30, 0, |valves| - 1, {})
  }

  /** Valve `n` can be reached and opened in time and is still closed. */
  predicate CanMove1(valves: seq<Valve>, s: State1, n: nat) {
    && s.pos < |valves| && n < |valves|
    && n in valves[s.pos].connections
    && valves[s.pos].connections[n] + 1 < s.time
    && n !in s.open
  }

  /** Walk to `n` and open it. */
  function Move1(valves: seq<Valve>, s: State1, n: nat): State1
    requires CanMove1(valves, s, n)
  {
    var d := valves[s.pos].connections[n];
    State1(s.time - (d + 1), s.pressure + Gain(s.time, d, valves[n].flow), n, s.open + {n})
  }

  ghost predicate Step1(valves: seq<Valve>, s: State1, t: State1) {
    exists n :: CanMove1(valves, s, n) && t == Move1(valves, s, n)
  }

  /** A move spends its walking time plus one minute, leaving at least one minute; it adds
      exactly the target's bit to the mask and exactly its gain to the pressure. */
  lemma Step1Effect(valves: seq<Valve>, s: State1, t: State1)
    requires Step1(valves, s, t)
    ensures 1 <= t.time < s.time
    ensures t.pos < |valves| && t.pos !in s.open && t.open == s.open + {t.pos}
    ensures t.pressure == s.pressure + Gain(s.time, s.time - t.time - 1, valves[t.pos].flow)
    ensures s.pressure <= t.pressure
  {
  }

  /** Moves to the valves `k .. |valves| - 1`, in index order. */
  function Moves1From(valves: seq<Valve>, s: State1, k: nat): (r: seq<State1>)
    requires k <= |valves|
    ensures forall t :: t in r <==> exists n :: k <= n && CanMove1(valves, s, n) && t == Move1(valves, s, n)
    ensures forall i :: 0 <= i < |r| ==> r[i].time < s.time
    decreases |valves| - k
  {
    if k == |valves| then []
    else if CanMove1(valves, s, k) then [Move1(valves, s, k)] + Moves1From(valves, s, k + 1)
    else Moves1From(valves, s, k + 1)
  }

  /** The states pushed after `s` is expanded. */
  function Successors1(valves: seq<Valve>, s: State1): (r: seq<State1>)
    ensures forall t :: t in r <==> Step1(valves, s, t)
    ensures forall i :: 0 <= i < |r| ==> r[i].time < s.time
  {
    Moves1From(valves, s, 0)
  }

  /** The pruning bound: the sum of the gains of every closed valve from here. */
  function Bound1From(valves: seq<Valve>, s: State1, k: nat): (b: nat)
    requires s.pos < |valves| && k <= |valves|
    decreases |valves| - k
  {
    if k == |valves| then 0
    else
      var c := valves[s.pos].connections;
      var here := if k in c && k !in s.open then Gain(s.time, c[k], valves[k].flow) else 0;
      here + Bound1From(valves, s, k + 1)
  }

  function Bound1(valves: seq<Valve>, s: State1): nat
    requires s.pos < |valves|
  {
    Bound1From(valves, s, 0)
  }

  /** The pruning bound is at least the gain of any single move. */
  lemma {:induction false} Bound1FromCovers(valves: seq<Valve>, s: State1, k: nat, n: nat)
    requires s.pos < |valves| && k <= n && CanMove1(valves, s, n)
    ensures Gain(s.time, valves[s.pos].connections[n], valves[n].flow) <= Bound1From(valves, s, k)
    decreases |valves| - k
  {
    if k < n {
      Bound1FromCovers(valves, s, k + 1, n);
    }
  }

  lemma Bound1Covers(valves: seq<Valve>, s: State1, t: State1)
    requires Step1(valves, s, t)
    ensures t.pressure <= s.pressure + Bound1(valves, s)
  {
    var n :| CanMove1(valves, s, n) && t == Move1(valves, s, n);
    Bound1FromCovers(valves, s, 0, n);
  }

  /** A run of the single-agent search: a path of moves from the start. */
  ghost predicate IsRun1(valves: seq<Valve>, p: seq<State1>) {
    && 0 < |valves| && 0 < |p| && p[0] == Start1(valves)
    && forall i :: 0 <= i < |p| - 1 ==> Step1(valves, p[i], p[i + 1])
  }

  /** Along a run time strictly drops, pressure never drops, and after `j` moves exactly `j`
      valves are open, each opened set containing all earlier ones. */
  lemma {:induction false} Run1Monotone(valves: seq<Valve>, p: seq<State1>)
    requires IsRun1(valves, p)
    ensures forall i, j :: 0 <= i < j < |p| ==> p[j].time < p[i].time && p[i].pressure <= p[j].pressure && p[i].open < p[j].open
    ensures forall j :: 0 <= j < |p| ==> |p[j].open| == j && p[j].time <= 30
    decreases |p|
  {
    if |p| > 1 {
      var p' := p[..|p| - 1];
      Run1Prefix(valves, p);
      Run1Monotone(valves, p');
      var last := |p| - 1;
      assert Step1(valves, p[last - 1], p[last]);
      Step1Effect(valves, p[last - 1], p[last]);
      assert p[last].open == p[last - 1].open + {p[last].pos} && p[last].pos !in p[last - 1].open;
      assert |p[last].open| == |p[last - 1].open| + 1;
      assert p[last - 1] == p'[last - 1];
      forall i, j | 0 <= i < j < |p|
        ensures p[j].time < p[i].time && p[i].pressure <= p[j].pressure && p[i].open < p[j].open
      {
        assert p[i] == p'[i];
        if j < last {
          assert p[j] == p'[j];
        }
      }
      forall j | 0 <= j < |p|
        ensures |p[j].open| == j
      {
        if j < last {
          assert p[j] == p'[j];
        }
      }
    }
  }

  lemma Run1Prefix(valves: seq<Valve>, p: seq<State1>)
    requires IsRun1(valves, p) && 1 < |p|
    ensures IsRun1(valves, p[..|p| - 1])
  {
    var p' := p[..|p| - 1];
    forall i | 0 <= i < |p'| - 1
      ensures Step1(valves, p'[i], p'[i + 1])
    {
      assert p'[i] == p[i] && p'[i + 1] == p[i + 1];
    }
  }


  lemma Run1Extend(valves: seq<Valve>, p: seq<State1>, t: State1)
    requires IsRun1(valves, p) && Step1(valves, p[|p| - 1], t)
    ensures IsRun1(valves, p + [t])
  {
    var p' := p + [t];
    forall i | 0 <= i < |p'| - 1
      ensures Step1(valves, p'[i], p'[i + 1])
    {
      if i < |p| - 1 {
        assert p'[i] == p[i] && p'[i + 1] == p[i + 1];
      }
    }
  }

  /** Size of the search tree below `s`: the termination measure of the queue loop. */
  ghost function Tree1(valves: seq<Valve>, s: State1): nat
    decreases s.time, 1, 0
  {
    1 + Forest1(valves, Successors1(valves, s), s.time)
  }

  ghost function Forest1(valves: seq<Valve>, ss: seq<State1>, bound: nat): nat
    requires forall i :: 0 <= i < |ss| ==> ss[i].time < bound
    decreases bound, 0, |ss|
  {
    if |ss| == 0 then 0 else Forest1(valves, ss[..|ss| - 1], bound) + Tree1(valves, ss[|ss| - 1])
  }

  lemma {:induction false} Forest1Append(valves: seq<Valve>, a: seq<State1>, b: seq<State1>, bound: nat)
    requires forall i :: 0 <= i < |a| ==> a[i].time < bound
    requires forall i :: 0 <= i < |b| ==> b[i].time < bound
    ensures Forest1(valves, a + b, bound) == Forest1(valves, a, bound) + Forest1(valves, b, bound)
    decreases |b|
  {
    if |b| == 0 {
      assert a + b == a;
    } else {
      assert (a + b)[..|a + b| - 1] == a + b[..|b| - 1];
      Forest1Append(valves, a, b[..|b| - 1], bound);
    }
  }

  lemma {:induction false} Forest1Bound(valves: seq<Valve>, ss: seq<State1>, bound: nat, bound': nat)
    requires forall i :: 0 <= i < |ss| ==> ss[i].time < bound && ss[i].time < bound'
    ensures Forest1(valves, ss, bound) == Forest1(valves, ss, bound')
    decreases |ss|
  {
    if |ss| > 0 {
      Forest1Bound(valves, ss[..|ss| - 1], bound, bound');
    }
  }

  /** Popping `s` and pushing its successors shrinks the measure by one. */
  lemma Forest1Step(valves: seq<Valve>, q: seq<State1>, bound: nat)
    requires 0 < |q| && forall i :: 0 <= i < |q| ==> q[i].time < bound
    ensures Forest1(valves, q, bound) == Tree1(valves, q[0]) + Forest1(valves, q[1..], bound)
    ensures Forest1(valves, q[1..] + Successors1(valves, q[0]), bound) + 1 == Forest1(valves, q, bound)
  {
    assert q == [q[0]] + q[1..];
    Forest1Append(valves, [q[0]], q[1..], bound);
    assert [q[0]][..0] == [];
    var succ := Successors1(valves, q[0]);
    Forest1Append(valves, q[1..], succ, bound);
    Forest1Bound(valves, succ, bound, q[0].time);
  }

  /** The queue of the search: each state comes with the run that reached it. */
  ghost predicate Queue1Ok(valves: seq<Valve>, q: seq<State1>, paths: seq<seq<State1>>) {
    && |paths| == |q|
    && forall i :: 0 <= i < |q| ==> IsRun1(valves, paths[i]) && Last(paths[i]) == q[i] && q[i].time <= 30 && q[i].pos < |valves|
  }

  ghost function Extend1(path: seq<State1>, succ: seq<State1>): (r: seq<seq<State1>>)
    ensures |r| == |succ|
  {
    seq(|succ|, j requires 0 <= j < |succ| => path + [succ[j]])
  }

  /** Dropping the head of the queue, and then pushing its successors, keeps every queued
      state paired with a run that reaches it. */
  lemma Queue1Next(valves: seq<Valve>, q: seq<State1>, paths: seq<seq<State1>>)
    requires Queue1Ok(valves, q, paths) && 0 < |q|
    ensures Queue1Ok(valves, q[1..], paths[1..])
    ensures Queue1Ok(valves, q[1..] + Successors1(valves, q[0]), paths[1..] + Extend1(paths[0], Successors1(valves, q[0])))
  {
    var s := q[0];
    var path := paths[0];
    var succ := Successors1(valves, s);
    var ext := Extend1(path, succ);
    forall j | 0 <= j < |succ|
      ensures IsRun1(valves, ext[j]) && Last(ext[j]) == succ[j]
    {
      assert Step1(valves, s, succ[j]);
      Run1Extend(valves, path, succ[j]);
    }
    forall j | 0 <= j < |succ|
      ensures var i := j; var q := succ; q[i].time <= 30 && q[i].pos < |valves|
    {
      assert Step1(valves, s, succ[j]);
      Step1Effect(valves, s, succ[j]);
    }
    var q' := q[1..] + succ;
    var paths' := paths[1..] + ext;
    forall i | 0 <= i < |q'|
      ensures IsRun1(valves, paths'[i]) && Last(paths'[i]) == q'[i]
      ensures var q := q'; q[i].time <= 30 && q[i].pos < |valves|
    {
      if i < |q| - 1 {
        assert q'[i] == q[i + 1] && paths'[i] == paths[i + 1];
      } else {
        assert q'[i] == succ[i - (|q| - 1)] && paths'[i] == ext[i - (|q| - 1)];
      }
    }
  }

  /** `t` is the last state of one of the recorded runs. */
  ghost predicate Dequeued1(runs: seq<seq<State1>>, t: State1) {
    exists j :: 0 <= j < |runs| && 0 < |runs[j]| && Last(runs[j]) == t
  }

  /** Every successor of `s` is still queued or already dequeued. */
  ghost predicate Covered1(valves: seq<Valve>, runs: seq<seq<State1>>, q: seq<State1>, s: State1) {
    forall t :: t in Successors1(valves, s) ==> t in q || Dequeued1(runs, t)
  }

  /** The search so far: every dequeued state ends a run on the map, and was either pruned,
      its pressure plus its bound being at most `max`, or has all its successors queued or
      dequeued. */
  ghost predicate Expanded1(valves: seq<Valve>, runs: seq<seq<State1>>, q: seq<State1>, max: nat) {
    forall i :: 0 <= i < |runs| ==>
      && 0 < |runs[i]| && Last(runs[i]).pos < |valves|
      && (Last(runs[i]).pressure + Bound1(valves, Last(runs[i])) <= max || Covered1(valves, runs, q, Last(runs[i])))
  }

  /** Dequeuing the head of the queue, possibly pushing states, and raising `max` keeps
      the search expanded, provided the head is pruned or its successors are pushed. */
  lemma Expanded1Step(valves: seq<Valve>, runs: seq<seq<State1>>, q: seq<State1>, max: nat,
                      path: seq<State1>, succ: seq<State1>, max': nat)
    requires Expanded1(valves, runs, q, max) && max <= max'
    requires 0 < |q| && 0 < |path| && Last(path) == q[0] && q[0].pos < |valves|
    requires q[0].pressure + Bound1(valves, q[0]) <= max' || forall t :: t in Successors1(valves, q[0]) ==> t in succ
    ensures Expanded1(valves, runs + [path], q[1..] + succ, max')
  {
    var runs', q' := runs + [path], q[1..] + succ;
    forall i | 0 <= i < |runs'|
      ensures 0 < |runs'[i]| && Last(runs'[i]).pos < |valves|
      ensures Last(runs'[i]).pressure + Bound1(valves, Last(runs'[i])) <= max' || Covered1(valves, runs', q', Last(runs'[i]))
    {
      if i < |runs| {
        assert runs'[i] == runs[i];
        if !(Last(runs[i]).pressure + Bound1(valves, Last(runs[i])) <= max') {
          Covered1Step(valves, runs, q, path, succ, Last(runs[i]));
        }
      } else {
        assert runs'[i] == path;
        if !(q[0].pressure + Bound1(valves, q[0]) <= max') {
          Covered1Head(valves, runs, q, path, succ);
        }
      }
    }
  }

  /** A state whose successors were queued or dequeued stays so once the head of the queue
      is dequeued along `path` and `succ` is pushed. */
  lemma Covered1Step(valves: seq<Valve>, runs: seq<seq<State1>>, q: seq<State1>,
                     path: seq<State1>, succ: seq<State1>, u: State1)
    requires 0 < |q| && 0 < |path| && Last(path) == q[0]
    requires Covered1(valves, runs, q, u)
    ensures Covered1(valves, runs + [path], q[1..] + succ, u)
  {
    var runs', q' := runs + [path], q[1..] + succ;
    forall t | t in Successors1(valves, u)
      ensures t in q' || Dequeued1(runs', t)
    {
      if t == q[0] {
        assert runs'[|runs|] == path;
      } else if t in q {
        var k :| 0 <= k < |q| && q[k] == t;
        assert q'[k - 1] == t;
      } else {
        var j :| 0 <= j < |runs| && 0 < |runs[j]| && Last(runs[j]) == t;
        assert runs'[j] == runs[j];
      }
    }
  }

  /** The dequeued head is covered once all its successors are pushed. */
  lemma Covered1Head(valves: seq<Valve>, runs: seq<seq<State1>>, q: seq<State1>,
                     path: seq<State1>, succ: seq<State1>)
    requires 0 < |q|
    requires forall t :: t in Successors1(valves, q[0]) ==> t in succ
    ensures Covered1(valves, runs + [path], q[1..] + succ, q[0])
  {
  }


  /** Every dequeued state ends a run on the map and has at most the best pressure. */
  ghost predicate Record1(valves: seq<Valve>, runs: seq<seq<State1>>, max: nat) {
    forall i :: 0 <= i < |runs| ==> IsRun1(valves, runs[i]) && Last(runs[i]).pressure <= max
  }

  /** Recording one more run, whose pressure is at most the raised best, keeps the record. */
  lemma Record1Push(valves: seq<Valve>, runs: seq<seq<State1>>, path: seq<State1>, max: nat, max': nat)
    requires Record1(valves, runs, max) && max <= max'
    requires IsRun1(valves, path) && Last(path).pressure <= max'
    ensures Record1(valves, runs + [path], max')
  {
    var runs' := runs + [path];
    forall i | 0 <= i < |runs'|
      ensures IsRun1(valves, runs'[i]) && Last(runs'[i]).pressure <= max'
    {
      if i < |runs| {
        assert runs'[i] == runs[i];
      }
    }
  }

  /** `part1`: the breadth-first branch-and-bound search; `None` where the size assertion
      fails. Besides the maximum it returns, as ghost evidence, the run that led to every
      dequeued state: the maximum is the pressure of one of them, and every dequeued state
      whose pressure plus bound exceeds the maximum had all its successors dequeued too. */
  method Part1(valves: seq<Valve>) returns (r: Option<nat>, ghost runs: seq<seq<State1>>)
    requires Closed(valves)
    ensures r.Some? <==> 1 <= |valves| <= 63
    ensures r.Some? ==> exists run :: IsRun1(valves, run) && Last(run).pressure == r.value
    ensures r.Some? ==> 0 < |runs| && runs[0] == [Start1(valves)]
    ensures r.Some? ==> forall i :: 0 <= i < |runs| ==> IsRun1(valves, runs[i]) && Last(runs[i]).pressure <= r.value
    ensures r.Some? ==> exists i :: 0 <= i < |runs| && 0 < |runs[i]| && Last(runs[i]).pressure == r.value
    ensures r.Some? ==> Expanded1(valves, runs, [], r.value)
  {
    if !(1 <= |valves| <= 63) {
      return None, [];
    }
    var start := Start1(valves);
    var max := 0;
    var q := [start];
    ghost var paths := [[start]];
    runs := [];
    ghost var best: nat := 0;
    while |q| > 0
      invariant Queue1Ok(valves, q, paths)
      invariant |runs| == 0 ==> max == 0 && q == [start] && paths == [[start]]
      invariant 0 < |runs| ==> runs[0] == [start] && best < |runs| && IsRun1(valves, runs[best]) && Last(runs[best]).pressure == max
      invariant Record1(valves, runs, max)
      invariant Expanded1(valves, runs, q, max)
      decreases Forest1(valves, q, 31)
    {
      var s := q[0];
      ghost var path := paths[0];
      ghost var q0, runs0, max0 := q, runs, max;
      Forest1Step(valves, q, 31);
      Queue1Next(valves, q, paths);
      q, paths := q[1..], paths[1..];
      if s.pressure > max {
        max := s.pressure;
        best := |runs|;
      } else if |runs| == 0 {
        best := 0;
      }
      Record1Push(valves, runs, path, max0, max);
      runs := runs + [path];
      if best == |runs0| {
        assert runs[best] == path;
      } else {
        assert runs[best] == runs0[best];
      }
      assert runs[0] == if |runs0| == 0 then path else runs0[0];
      if s.time > 1 && s.pressure + Bound1(valves, s) <= max {
        Expanded1Step(valves, runs0, q0, max0, path, [], max);
        assert q0[1..] + [] == q;
        continue;
      }
      var succ := Successors1(valves, s);
      Expanded1Step(valves, runs0, q0, max0, path, succ, max);
      q := q + succ;
      paths := paths + Extend1(path, succ);
    }
    assert IsRun1(valves, runs[best]) && Last(runs[best]).pressure == max;
    r := Some(max);
  }


  // ---------------------------------------------------------------------------------
  // Two agents sharing the mask (part 2)
  // ---------------------------------------------------------------------------------

  datatype State2 = State2(time1: nat, time2: nat, pressure: nat, pos1: nat, pos2: nat, open: set<nat>)

  function Start2(valves: seq<Valve>): State2
    requires 0 < |valves|
  {
    State2(26, 26, 0, |valves| - 1, |valves| - 1, {})
  }

  /** The first agent may take `n`: reachable and openable in its time, still closed, and
      no farther from it than from the second agent. */
  predicate CanMove2a(valves: seq<Valve>, s: State2, n: nat) {
    && s.pos1 < |valves| && s.pos2 < |valves| && n < |valves|
    && n in valves[s.pos1].connections && n in valves[s.pos2].connections
    && valves[s.pos1].connections[n] + 1 < s.time1
    && n !in s.open
    && valves[s.pos1].connections[n] <= valves[s.pos2].connections[n]
  }

  /** The second agent may take `n`: the mirror image, and only while the agents stand on
      different valves. */
  predicate CanMove2b(valves: seq<Valve>, s: State2, n: nat) {
    && s.pos1 < |valves| && s.pos2 < |valves| && n < |valves|
    && s.pos1 != s.pos2
    && n in valves[s.pos1].connections && n in valves[s.pos2].connections
    && valves[s.pos2].connections[n] + 1 < s.time2
    && n !in s.open
    && valves[s.pos2].connections[n] <= valves[s.pos1].connections[n]
  }

  function Move2a(valves: seq<Valve>, s: State2, n: nat): State2
    requires CanMove2a(valves, s, n)
  {
    var d := valves[s.pos1].connections[n];
    s.(time1 := s.time1 - (d + 1), pressure := s.pressure + Gain(s.time1, d, valves[n].flow),
       pos1 := n, open := s.open + {n})
  }

  function Move2b(valves: seq<Valve>, s: State2, n: nat): State2
    requires CanMove2b(valves, s, n)
  {
    var d := valves[s.pos2].connections[n];
    s.(time2 := s.time2 - (d + 1), pressure := s.pressure + Gain(s.time2, d, valves[n].flow),
       pos2 := n, open := s.open + {n})
  }

  ghost predicate Step2(valves: seq<Valve>, s: State2, t: State2) {
    || (exists n :: CanMove2a(valves, s, n) && t == Move2a(valves, s, n))
    || (exists n :: CanMove2b(valves, s, n) && t == Move2b(valves, s, n))
  }

  /** One agent moves: its clock drops by at least one minute and stays positive, the other
      agent is untouched, and the shared mask gains exactly the new valve's bit. */
  lemma Step2Effect(valves: seq<Valve>, s: State2, t: State2)
    requires Step2(valves, s, t)
    ensures t.time1 + t.time2 < s.time1 + s.time2
    ensures t.time1 <= s.time1 && t.time2 <= s.time2
    ensures t.pos1 < |valves| && t.pos2 < |valves|
    ensures Opened(s, t) !in s.open && t.open == s.open + {Opened(s, t)}
    ensures s.pressure <= t.pressure
  {
  }

  /** The valve opened by a move: the new position of whichever agent's clock dropped. */
  function Opened(s: State2, t: State2): nat {
    if t.time1 < s.time1 then t.pos1 else t.pos2
  }

  /** Exactly one agent moves: its clock drops and stays positive while the other agent
      keeps its clock and position; the second agent moves only from a different valve. */
  lemma Step2OneAgent(valves: seq<Valve>, s: State2, t: State2)
    requires Step2(valves, s, t)
    ensures (t.time1 < s.time1 && 1 <= t.time1 && t.time2 == s.time2 && t.pos2 == s.pos2)
         || (t.time2 < s.time2 && 1 <= t.time2 && t.time1 == s.time1 && t.pos1 == s.pos1 && s.pos1 != s.pos2)
  {
  }

  function Moves2aFrom(valves: seq<Valve>, s: State2, k: nat): (r: seq<State2>)
    requires k <= |valves|
    ensures forall t :: t in r <==> exists n :: k <= n && CanMove2a(valves, s, n) && t == Move2a(valves, s, n)
    ensures forall i :: 0 <= i < |r| ==> r[i].time1 < s.time1 && r[i].time2 == s.time2
    decreases |valves| - k
  {
    if k == |valves| then []
    else if CanMove2a(valves, s, k) then [Move2a(valves, s, k)] + Moves2aFrom(valves, s, k + 1)
    else Moves2aFrom(valves, s, k + 1)
  }

  function Moves2bFrom(valves: seq<Valve>, s: State2, k: nat): (r: seq<State2>)
    requires k <= |valves|
    ensures forall t :: t in r <==> exists n :: k <= n && CanMove2b(valves, s, n) && t == Move2b(valves, s, n)
    ensures forall i :: 0 <= i < |r| ==> r[i].time2 < s.time2 && r[i].time1 == s.time1
    decreases |valves| - k
  {
    if k == |valves| then []
    else if CanMove2b(valves, s, k) then [Move2b(valves, s, k)] + Moves2bFrom(valves, s, k + 1)
    else Moves2bFrom(valves, s, k + 1)
  }

  /** The first agent's moves are pushed before the second agent's. */
  function Successors2(valves: seq<Valve>, s: State2): (r: seq<State2>)
    ensures forall t :: t in r <==> Step2(valves, s, t)
    ensures forall i :: 0 <= i < |r| ==> r[i].time1 + r[i].time2 < s.time1 + s.time2
  {
    Moves2aFrom(valves, s, 0) + Moves2bFrom(valves, s, 0)
  }

  /** Clock for the `idx`-th closed positive valve in the pruning bound. */
  function BoundClock(idx: nat, time: nat): nat {
    if idx < time then time - (idx - 1) else 0
  }

  /** The index-based pruning bound of `part2`: the `idx`-th closed flow-positive valve is
      credited the better of the two agents' gains with `idx - 1` minutes already gone. */
  function Bound2From(valves: seq<Valve>, s: State2, k: nat, idx: nat): nat
    requires WellFormed(valves) && s.pos1 < |valves| && s.pos2 < |valves| && k <= |valves|
    decreases |valves| - k
  {
    if k == |valves| then 0
    else if valves[k].flow > 0 && k !in s.open then
      assert k in valves[s.pos1].connections.Keys && k in valves[s.pos2].connections.Keys;
      var d1 := valves[s.pos1].connections[k];
      var d2 := valves[s.pos2].connections[k];
      Max(Gain(BoundClock(idx + 1, s.time1), d1, valves[k].flow),
          Gain(BoundClock(idx + 1, s.time2), d2, valves[k].flow))
        + Bound2From(valves, s, k + 1, idx + 1)
    else Bound2From(valves, s, k + 1, idx)
  }

  function Bound2(valves: seq<Valve>, s: State2): nat
    requires WellFormed(valves) && s.pos1 < |valves| && s.pos2 < |valves|
  {
    Bound2From(valves, s, 0, 0)
  }

  /** The pruning bound vanishes once every flow-positive valve is open. */
  lemma {:induction false} Bound2FromAllOpen(valves: seq<Valve>, s: State2, k: nat, idx: nat)
    requires WellFormed(valves) && s.pos1 < |valves| && s.pos2 < |valves| && k <= |valves|
    requires forall n :: k <= n < |valves| && valves[n].flow > 0 ==> n in s.open
    ensures Bound2From(valves, s, k, idx) == 0
    decreases |valves| - k
  {
    if k < |valves| {
      Bound2FromAllOpen(valves, s, k + 1, idx);
    }
  }

  ghost predicate IsRun2(valves: seq<Valve>, p: seq<State2>) {
    && 0 < |valves| && 0 < |p| && p[0] == Start2(valves)
    && forall i :: 0 <= i < |p| - 1 ==> Step2(valves, p[i], p[i + 1])
  }

  /** One dual state lies later in a run than another: the total clock is strictly lower,
      pressure is no lower and strictly more valves are open. */
  predicate Advances2(a: State2, b: State2) {
    b.time1 + b.time2 < a.time1 + a.time2 && a.pressure <= b.pressure && a.open < b.open
  }

  lemma Advances2Trans(a: State2, b: State2, c: State2)
    requires Advances2(a, b) && Advances2(b, c)
    ensures Advances2(a, c)
  {
  }

  /** Along a dual run the total clock strictly drops, pressure never drops, and after `j`
      moves exactly `j` valves are open. */
  lemma {:induction false} Run2Monotone(valves: seq<Valve>, p: seq<State2>)
    requires IsRun2(valves, p)
    ensures forall i, j :: 0 <= i < j < |p| ==> Advances2(p[i], p[j])
    ensures forall j :: 0 <= j < |p| ==> |p[j].open| == j && p[j].time1 <= 26 && p[j].time2 <= 26
    decreases |p|
  {
    if |p| > 1 {
      var p' := p[..|p| - 1];
      Run2Prefix(valves, p);
      Run2Monotone(valves, p');
      Run2LastStep(valves, p);
      assert forall i :: 0 <= i < |p'| ==> p'[i] == p[i];
      Run2Grows(p);
    }
  }

  /** The facts of `Run2Monotone` extend from a run's prefix to the run when its last move
      advances it by one valve without raising either clock. */
  lemma Run2Grows(p: seq<State2>)
    requires 1 < |p|
    requires forall i, j :: 0 <= i < j < |p| - 1 ==> Advances2(p[i], p[j])
    requires forall j :: 0 <= j < |p| - 1 ==> |p[j].open| == j && p[j].time1 <= 26 && p[j].time2 <= 26
    requires var a, b := p[|p| - 2], p[|p| - 1];
      && Advances2(a, b) && b.time1 <= a.time1 && b.time2 <= a.time2 && |b.open| == |a.open| + 1
    ensures forall i, j :: 0 <= i < j < |p| ==> Advances2(p[i], p[j])
    ensures forall j :: 0 <= j < |p| ==> |p[j].open| == j && p[j].time1 <= 26 && p[j].time2 <= 26
  {
    var last := |p| - 1;
    forall i, j | 0 <= i < j < |p|
      ensures Advances2(p[i], p[j])
    {
      if j == last && i < last - 1 {
        Advances2Trans(p[i], p[last - 1], p[last]);
      }
    }
  }

  /** The last move of a dual run advances it, opening exactly one more valve. */
  lemma Run2LastStep(valves: seq<Valve>, p: seq<State2>)
    requires IsRun2(valves, p) && 1 < |p|
    ensures var a, b := p[|p| - 2], p[|p| - 1];
      && Advances2(a, b) && b.time1 <= a.time1 && b.time2 <= a.time2 && |b.open| == |a.open| + 1
  {
    var a, b := p[|p| - 2], p[|p| - 1];
    assert Step2(valves, a, b);
    Step2Effect(valves, a, b);
    var x := Opened(a, b);
    assert b.open == a.open + {x} && x !in a.open;
  }

  lemma Run2Prefix(valves: seq<Valve>, p: seq<State2>)
    requires IsRun2(valves, p) && 1 < |p|
    ensures IsRun2(valves, p[..|p| - 1])
  {
    var p' := p[..|p| - 1];
    forall i | 0 <= i < |p'| - 1
      ensures Step2(valves, p'[i], p'[i + 1])
    {
      assert p'[i] == p[i] && p'[i + 1] == p[i + 1];
    }
  }


  lemma Run2Extend(valves: seq<Valve>, p: seq<State2>, t: State2)
    requires IsRun2(valves, p) && Step2(valves, p[|p| - 1], t)
    ensures IsRun2(valves, p + [t])
  {
    var p' := p + [t];
    forall i | 0 <= i < |p'| - 1
      ensures Step2(valves, p'[i], p'[i + 1])
    {
      if i < |p| - 1 {
        assert p'[i] == p[i] && p'[i + 1] == p[i + 1];
      }
    }
  }

  ghost function Tree2(valves: seq<Valve>, s: State2): nat
    decreases s.time1 + s.time2, 1, 0
  {
    1 + Forest2(valves, Successors2(valves, s), s.time1 + s.time2)
  }

  ghost function Forest2(valves: seq<Valve>, ss: seq<State2>, bound: nat): nat
    requires forall i :: 0 <= i < |ss| ==> ss[i].time1 + ss[i].time2 < bound
    decreases bound, 0, |ss|
  {
    if |ss| == 0 then 0 else Forest2(valves, ss[..|ss| - 1], bound) + Tree2(valves, ss[|ss| - 1])
  }

  lemma {:induction false} Forest2Append(valves: seq<Valve>, a: seq<State2>, b: seq<State2>, bound: nat)
    requires forall i :: 0 <= i < |a| ==> a[i].time1 + a[i].time2 < bound
    requires forall i :: 0 <= i < |b| ==> b[i].time1 + b[i].time2 < bound
    ensures Forest2(valves, a + b, bound) == Forest2(valves, a, bound) + Forest2(valves, b, bound)
    decreases |b|
  {
    if |b| == 0 {
      assert a + b == a;
    } else {
      assert (a + b)[..|a + b| - 1] == a + b[..|b| - 1];
      Forest2Append(valves, a, b[..|b| - 1], bound);
    }
  }

  lemma {:induction false} Forest2Bound(valves: seq<Valve>, ss: seq<State2>, bound: nat, bound': nat)
    requires forall i :: 0 <= i < |ss| ==> ss[i].time1 + ss[i].time2 < bound && ss[i].time1 + ss[i].time2 < bound'
    ensures Forest2(valves, ss, bound) == Forest2(valves, ss, bound')
    decreases |ss|
  {
    if |ss| > 0 {
      Forest2Bound(valves, ss[..|ss| - 1], bound, bound');
    }
  }

  lemma Forest2Step(valves: seq<Valve>, q: seq<State2>, bound: nat)
    requires 0 < |q| && forall i :: 0 <= i < |q| ==> q[i].time1 + q[i].time2 < bound
    ensures Forest2(valves, q, bound) == Tree2(valves, q[0]) + Forest2(valves, q[1..], bound)
    ensures Forest2(valves, q[1..] + Successors2(valves, q[0]), bound) + 1 == Forest2(valves, q, bound)
  {
    assert q == [q[0]] + q[1..];
    Forest2Append(valves, [q[0]], q[1..], bound);
    assert [q[0]][..0] == [];
    var succ := Successors2(valves, q[0]);
    Forest2Append(valves, q[1..], succ, bound);
    Forest2Bound(valves, succ, bound, q[0].time1 + q[0].time2);
  }

  /** The queue of the search: each state comes with the run that reached it. */
  ghost predicate Queue2Ok(valves: seq<Valve>, q: seq<State2>, paths: seq<seq<State2>>) {
    && |paths| == |q|
    && forall i :: 0 <= i < |q| ==> IsRun2(valves, paths[i]) && Last(paths[i]) == q[i] && q[i].time1 <= 26 && q[i].time2 <= 26 && q[i].pos1 < |valves| && q[i].pos2 < |valves|
  }

  ghost function Extend2(path: seq<State2>, succ: seq<State2>): (r: seq<seq<State2>>)
    ensures |r| == |succ|
  {
    seq(|succ|, j requires 0 <= j < |succ| => path + [succ[j]])
  }

  /** Dropping the head of the queue, and then pushing its successors, keeps every queued
      state paired with a run that reaches it. */
  lemma Queue2Next(valves: seq<Valve>, q: seq<State2>, paths: seq<seq<State2>>)
    requires Queue2Ok(valves, q, paths) && 0 < |q|
    ensures Queue2Ok(valves, q[1..], paths[1..])
    ensures Queue2Ok(valves, q[1..] + Successors2(valves, q[0]), paths[1..] + Extend2(paths[0], Successors2(valves, q[0])))
  {
    var s := q[0];
    var path := paths[0];
    var succ := Successors2(valves, s);
    var ext := Extend2(path, succ);
    forall j | 0 <= j < |succ|
      ensures IsRun2(valves, ext[j]) && Last(ext[j]) == succ[j]
    {
      assert Step2(valves, s, succ[j]);
      Run2Extend(valves, path, succ[j]);
    }
    forall j | 0 <= j < |succ|
      ensures var i := j; var q := succ; q[i].time1 <= 26 && q[i].time2 <= 26 && q[i].pos1 < |valves| && q[i].pos2 < |valves|
    {
      assert Step2(valves, s, succ[j]);
      Step2Effect(valves, s, succ[j]);
    }
    var q' := q[1..] + succ;
    var paths' := paths[1..] + ext;
    forall i | 0 <= i < |q'|
      ensures IsRun2(valves, paths'[i]) && Last(paths'[i]) == q'[i]
      ensures var q := q'; q[i].time1 <= 26 && q[i].time2 <= 26 && q[i].pos1 < |valves| && q[i].pos2 < |valves|
    {
      if i < |q| - 1 {
        assert q'[i] == q[i + 1] && paths'[i] == paths[i + 1];
      } else {
        assert q'[i] == succ[i - (|q| - 1)] && paths'[i] == ext[i - (|q| - 1)];
      }
    }
  }

  /** With both clocks down to one minute no agent can move. */
  lemma {:induction false} NoMoves2From(valves: seq<Valve>, s: State2, k: nat)
    requires k <= |valves| && s.time1 <= 1 && s.time2 <= 1
    ensures Moves2aFrom(valves, s, k) == [] && Moves2bFrom(valves, s, k) == []
    decreases |valves| - k
  {
    if k < |valves| {
      NoMoves2From(valves, s, k + 1);
    }
  }

  ghost predicate Dequeued2(runs: seq<seq<State2>>, t: State2) {
    exists j :: 0 <= j < |runs| && 0 < |runs[j]| && Last(runs[j]) == t
  }

  ghost predicate Covered2(valves: seq<Valve>, runs: seq<seq<State2>>, q: seq<State2>, s: State2) {
    forall t :: t in Successors2(valves, s) ==> t in q || Dequeued2(runs, t)
  }

  /** As `Expanded1`, with the index-based bound of `part2`. */
  ghost predicate Expanded2(valves: seq<Valve>, runs: seq<seq<State2>>, q: seq<State2>, max: nat)
    requires WellFormed(valves)
  {
    forall i :: 0 <= i < |runs| ==>
      && 0 < |runs[i]| && Last(runs[i]).pos1 < |valves| && Last(runs[i]).pos2 < |valves|
      && (Last(runs[i]).pressure + Bound2(valves, Last(runs[i])) <= max || Covered2(valves, runs, q, Last(runs[i])))
  }

  lemma Expanded2Step(valves: seq<Valve>, runs: seq<seq<State2>>, q: seq<State2>, max: nat,
                      path: seq<State2>, succ: seq<State2>, max': nat)
    requires WellFormed(valves) && Expanded2(valves, runs, q, max) && max <= max'
    requires 0 < |q| && 0 < |path| && Last(path) == q[0] && q[0].pos1 < |valves| && q[0].pos2 < |valves|
    requires q[0].pressure + Bound2(valves, q[0]) <= max' || forall t :: t in Successors2(valves, q[0]) ==> t in succ
    ensures Expanded2(valves, runs + [path], q[1..] + succ, max')
  {
    var runs', q' := runs + [path], q[1..] + succ;
    forall i | 0 <= i < |runs'|
      ensures 0 < |runs'[i]| && Last(runs'[i]).pos1 < |valves| && Last(runs'[i]).pos2 < |valves|
      ensures Last(runs'[i]).pressure + Bound2(valves, Last(runs'[i])) <= max' || Covered2(valves, runs', q', Last(runs'[i]))
    {
      if i < |runs| {
        assert runs'[i] == runs[i];
        if !(Last(runs[i]).pressure + Bound2(valves, Last(runs[i])) <= max') {
          Covered2Step(valves, runs, q, path, succ, Last(runs[i]));
        }
      } else {
        assert runs'[i] == path;
        if !(q[0].pressure + Bound2(valves, q[0]) <= max') {
          Covered2Head(valves, runs, q, path, succ);
        }
      }
    }
  }

  /** A state whose successors were queued or dequeued stays so once the head of the queue
      is dequeued along `path` and `succ` is pushed. */
  lemma Covered2Step(valves: seq<Valve>, runs: seq<seq<State2>>, q: seq<State2>,
                     path: seq<State2>, succ: seq<State2>, u: State2)
    requires 0 < |q| && 0 < |path| && Last(path) == q[0]
    requires Covered2(valves, runs, q, u)
    ensures Covered2(valves, runs + [path], q[1..] + succ, u)
  {
    var runs', q' := runs + [path], q[1..] + succ;
    forall t | t in Successors2(valves, u)
      ensures t in q' || Dequeued2(runs', t)
    {
      if t == q[0] {
        assert runs'[|runs|] == path;
      } else if t in q {
        var k :| 0 <= k < |q| && q[k] == t;
        assert q'[k - 1] == t;
      } else {
        var j :| 0 <= j < |runs| && 0 < |runs[j]| && Last(runs[j]) == t;
        assert runs'[j] == runs[j];
      }
    }
  }

  /** The dequeued head is covered once all its successors are pushed. */
  lemma Covered2Head(valves: seq<Valve>, runs: seq<seq<State2>>, q: seq<State2>,
                     path: seq<State2>, succ: seq<State2>)
    requires 0 < |q|
    requires forall t :: t in Successors2(valves, q[0]) ==> t in succ
    ensures Covered2(valves, runs + [path], q[1..] + succ, q[0])
  {
  }


  /** Every dequeued state ends a run on the map and has at most the best pressure. */
  ghost predicate Record2(valves: seq<Valve>, runs: seq<seq<State2>>, max: nat) {
    forall i :: 0 <= i < |runs| ==> IsRun2(valves, runs[i]) && Last(runs[i]).pressure <= max
  }

  /** Recording one more run, whose pressure is at most the raised best, keeps the record. */
  lemma Record2Push(valves: seq<Valve>, runs: seq<seq<State2>>, path: seq<State2>, max: nat, max': nat)
    requires Record2(valves, runs, max) && max <= max'
    requires IsRun2(valves, path) && Last(path).pressure <= max'
    ensures Record2(valves, runs + [path], max')
  {
    var runs' := runs + [path];
    forall i | 0 <= i < |runs'|
      ensures IsRun2(valves, runs'[i]) && Last(runs'[i]).pressure <= max'
    {
      if i < |runs| {
        assert runs'[i] == runs[i];
      }
    }
  }

  /** `part2`: the dual-agent branch-and-bound search, with the same ghost evidence and
      the same guarantees as `Part1`. A state where both clocks are down to one minute is
      not expanded; it has no successors. */
  method Part2(valves: seq<Valve>) returns (r: Option<nat>, ghost runs: seq<seq<State2>>)
    requires WellFormed(valves)
    ensures r.Some? <==> 1 <= |valves| <= 63
    ensures r.Some? ==> exists run :: IsRun2(valves, run) && Last(run).pressure == r.value
    ensures r.Some? ==> 0 < |runs| && runs[0] == [Start2(valves)]
    ensures r.Some? ==> forall i :: 0 <= i < |runs| ==> IsRun2(valves, runs[i]) && Last(runs[i]).pressure <= r.value
    ensures r.Some? ==> exists i :: 0 <= i < |runs| && 0 < |runs[i]| && Last(runs[i]).pressure == r.value
    ensures r.Some? ==> Expanded2(valves, runs, [], r.value)
  {
    if !(1 <= |valves| <= 63) {
      return None, [];
    }
    WellFormedClosed(valves);
    var start := Start2(valves);
    var max := 0;
    var q := [start];
    ghost var paths := [[start]];
    runs := [];
    ghost var best: nat := 0;
    while |q| > 0
      invariant Queue2Ok(valves, q, paths)
      invariant |runs| == 0 ==> max == 0 && q == [start] && paths == [[start]]
      invariant 0 < |runs| ==> runs[0] == [start] && best < |runs| && IsRun2(valves, runs[best]) && Last(runs[best]).pressure == max
      invariant Record2(valves, runs, max)
      invariant Expanded2(valves, runs, q, max)
      decreases Forest2(valves, q, 53)
    {
      var s := q[0];
      ghost var path := paths[0];
      ghost var q0, runs0, max0 := q, runs, max;
      Forest2Step(valves, q, 53);
      Queue2Next(valves, q, paths);
      q, paths := q[1..], paths[1..];
      if s.pressure > max {
        max := s.pressure;
        best := |runs|;
      } else if |runs| == 0 {
        best := 0;
      }
      Record2Push(valves, runs, path, max0, max);
      runs := runs + [path];
      if best == |runs0| {
        assert runs[best] == path;
      } else {
        assert runs[best] == runs0[best];
      }
      assert runs[0] == if |runs0| == 0 then path else runs0[0];
      if s.time1 <= 1 && s.time2 <= 1 {
        NoMoves2From(valves, s, 0);
        Expanded2Step(valves, runs0, q0, max0, path, [], max);
        assert q0[1..] + [] == q;
        continue;
      }
      if s.pressure + Bound2(valves, s) <= max {
        Expanded2Step(valves, runs0, q0, max0, path, [], max);
        assert q0[1..] + [] == q;
        continue;
      }
      var succ := Successors2(valves, s);
      Expanded2Step(valves, runs0, q0, max0, path, succ, max);
      q := q + succ;
      paths := paths + Extend2(path, succ);
    }
    assert IsRun2(valves, runs[best]) && Last(runs[best]).pressure == max;
    r := Some(max);
  }


  // ---------------------------------------------------------------------------------
  // The example network
  // ---------------------------------------------------------------------------------

  /** The reduced example network: HH, JJ, DD, BB, EE, CC (flows 22, 21, 20, 13, 3, 2),
      then AA. */
  const SAMPLE: seq<Valve> := [
    Valve(22, map[0 := 0, 1 := 7, 2 := 4, 3 := 6, 4 := 3, 5 := 5]),
    Valve(21, map[0 := 7, 1 := 0, 2 := 3, 3 := 3, 4 := 4, 5 := 4]),
    Valve(20, map[0 := 4, 1 := 3, 2 := 0, 3 := 2, 4 := 1, 5 := 1]),
    Valve(13, map[0 := 6, 1 := 3, 2 := 2, 3 := 0, 4 := 3, 5 := 1]),
    Valve(3, map[0 := 3, 1 := 4, 2 := 1, 3 := 3, 4 := 0, 5 := 2]),
    Valve(2, map[0 := 5, 1 := 4, 2 := 1, 3 := 1, 4 := 2, 5 := 0]),
    Valve(0, map[0 := 5, 1 := 2, 2 := 1, 3 := 1, 4 := 2, 5 := 2])
  ]

  lemma SampleWellFormed()
    ensures WellFormed(SAMPLE)
  {
    var pos := set t | 0 <= t < |SAMPLE| && SAMPLE[t].flow > 0;
    assert pos == {0, 1, 2, 3, 4, 5} by {
      assert SAMPLE[6].flow == 0;
    }
  }

  lemma Step1By(valves: seq<Valve>, s: State1, n: nat, t: State1)
    requires CanMove1(valves, s, n) && t == Move1(valves, s, n)
    ensures Step1(valves, s, t)
  {
  }

  lemma Step2aBy(valves: seq<Valve>, s: State2, n: nat, t: State2)
    requires CanMove2a(valves, s, n) && t == Move2a(valves, s, n)
    ensures Step2(valves, s, t)
  {
  }

  lemma Step2bBy(valves: seq<Valve>, s: State2, n: nat, t: State2)
    requires CanMove2b(valves, s, n) && t == Move2b(valves, s, n)
    ensures Step2(valves, s, t)
  {
  }

  /** A single-agent run on the example releasing 1651: DD, BB, JJ, HH, EE, CC. */
  const RUN1: seq<State1> := [
    State1(30, 0, 6, {}),
    State1(28, 560, 2, {2}),
    State1(25, 885, 3, {2, 3}),
    State1(21, 1326, 1, {1, 2, 3}),
    State1(13, 1612, 0, {0, 1, 2, 3}),
    State1(9, 1639, 4, {0, 1, 2, 3, 4}),
    State1(6, 1651, 5, {0, 1, 2, 3, 4, 5})
  ]

  lemma Run1Step0()
    ensures Step1(SAMPLE, RUN1[0], RUN1[1])
  {
    Step1By(SAMPLE, RUN1[0], 2, RUN1[1]);
  }

  lemma Run1Step1()
    ensures Step1(SAMPLE, RUN1[1], RUN1[2])
  {
    Step1By(SAMPLE, RUN1[1], 3, RUN1[2]);
  }

  lemma Run1Step2()
    ensures Step1(SAMPLE, RUN1[2], RUN1[3])
  {
    Step1By(SAMPLE, RUN1[2], 1, RUN1[3]);
  }

  lemma Run1Step3()
    ensures Step1(SAMPLE, RUN1[3], RUN1[4])
  {
    Step1By(SAMPLE, RUN1[3], 0, RUN1[4]);
  }

  lemma Run1Step4()
    ensures Step1(SAMPLE, RUN1[4], RUN1[5])
  {
    Step1By(SAMPLE, RUN1[4], 4, RUN1[5]);
  }

  lemma Run1Step5()
    ensures Step1(SAMPLE, RUN1[5], RUN1[6])
  {
    Step1By(SAMPLE, RUN1[5], 5, RUN1[6]);
  }

  lemma SampleRun1()
    ensures exists p: seq<State1> :: IsRun1(SAMPLE, p) && Last(p).pressure == 1651
  {
    Run1Step0(); Run1Step1(); Run1Step2(); Run1Step3(); Run1Step4(); Run1Step5();
    assert IsRun1(SAMPLE, RUN1);
  }

  /** A dual run on the example releasing 1707: one agent opens JJ, BB, CC, the other DD,
      HH, EE. */
  const RUN2: seq<State2> := [
    State2(26, 26, 0, 6, 6, {}),
    State2(23, 26, 483, 1, 6, {1}),
    State2(23, 24, 963, 1, 2, {1, 2}),
    State2(23, 19, 1381, 1, 0, {0, 1, 2}),
    State2(19, 19, 1628, 3, 0, {0, 1, 2, 3}),
    State2(19, 15, 1673, 3, 4, {0, 1, 2, 3, 4}),
    State2(17, 15, 1707, 5, 4, {0, 1, 2, 3, 4, 5})
  ]

  lemma Run2Step0()
    ensures Step2(SAMPLE, RUN2[0], RUN2[1])
  {
    Step2aBy(SAMPLE, RUN2[0], 1, RUN2[1]);
  }

  lemma Run2Step1()
    ensures Step2(SAMPLE, RUN2[1], RUN2[2])
  {
    Step2bBy(SAMPLE, RUN2[1], 2, RUN2[2]);
  }

  lemma Run2Step2()
    ensures Step2(SAMPLE, RUN2[2], RUN2[3])
  {
    Step2bBy(SAMPLE, RUN2[2], 0, RUN2[3]);
  }

  lemma Run2Step3()
    ensures Step2(SAMPLE, RUN2[3], RUN2[4])
  {
    Step2aBy(SAMPLE, RUN2[3], 3, RUN2[4]);
  }

  lemma Run2Step4()
    ensures Step2(SAMPLE, RUN2[4], RUN2[5])
  {
    Step2bBy(SAMPLE, RUN2[4], 4, RUN2[5]);
  }

  lemma Run2Step5()
    ensures Step2(SAMPLE, RUN2[5], RUN2[6])
  {
    Step2aBy(SAMPLE, RUN2[5], 5, RUN2[6]);
  }

  lemma SampleRun2()
    ensures exists p: seq<State2> :: IsRun2(SAMPLE, p) && Last(p).pressure == 1707
  {
    Run2Step0(); Run2Step1(); Run2Step2(); Run2Step3(); Run2Step4(); Run2Step5();
    assert IsRun2(SAMPLE, RUN2);
  }
}
