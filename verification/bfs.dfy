/** Breadth-first search by relaxation, as written in the valve reducer and the
    hill-climbing grid: a FIFO queue, every distance starting at a sentinel `inf`, the
    source at 0, and a neighbour re-queued whenever `from + 1` beats its distance. */
module Bfs {

  /** Adjacency lists over node indices `0 .. |g| - 1`. */
  type Graph = seq<seq<nat>>

  predicate ValidGraph(g: Graph) {
    forall u, k :: 0 <= u < |g| && 0 <= k < |g[u]| ==> g[u][k] < |g|
  }

  /** `v` is reachable from `src` along at most `k` edges. */
  ghost predicate Within(g: Graph, src: nat, v: nat, k: nat)
    decreases k
  {
    if k == 0 then v == src
    else Within(g, src, v, k - 1) || exists u :: 0 <= u < |g| && v in g[u] && Within(g, src, u, k - 1)
  }

  /** `d` is the edge count of a shortest path from `src` to `v`, or `inf` when no path
      shorter than `inf` edges exists. */
  ghost predicate IsDistance(g: Graph, src: nat, v: nat, d: nat, inf: nat) {
    if d < inf then Within(g, src, v, d) && (d == 0 || !Within(g, src, v, d - 1))
    else d == inf && forall k :: 0 <= k < inf ==> !Within(g, src, v, k)
  }

  /** Every out-edge of `u` has been relaxed. */
  ghost predicate Relaxed(g: Graph, dist: seq<nat>, u: nat)
    requires ValidGraph(g) && |dist| == |g| && u < |g|
  {
    forall k :: 0 <= k < |g[u]| ==> dist[g[u][k]] <= dist[u] + 1
  }

  function SumNat(s: seq<nat>): nat {
    if |s| == 0 then 0 else SumNat(s[..|s| - 1]) + s[|s| - 1]
  }

  lemma {:induction false} SumNatUpdate(s: seq<nat>, i: nat, v: nat)
    requires i < |s|
    ensures SumNat(s[i := v]) == SumNat(s) - s[i] + v
    decreases |s|
  {
    if i < |s| - 1 {
      assert s[i := v][..|s| - 1] == s[..|s| - 1][i := v];
      SumNatUpdate(s[..|s| - 1], i, v);
    } else {
      assert s[i := v][..|s| - 1] == s[..|s| - 1];
    }
  }

  /** The invariant of the BFS queue loop: the source stays at 0, every finite distance
      is witnessed by a path of that length, every queued node is finite, and every finite
      node that is not queued has all of its out-edges relaxed. */
  ghost predicate QueueInvariant(g: Graph, src: nat, inf: nat, dist: seq<nat>, q: seq<nat>)
    requires ValidGraph(g)
  {
    && |dist| == |g| && src < |g|
    && dist[src] == 0
    && (forall v :: 0 <= v < |g| ==> dist[v] <= inf)
    && (forall i :: 0 <= i < |q| ==> q[i] < |dist| && dist[q[i]] < inf)
    && (forall v :: 0 <= v < |g| && dist[v] < inf ==> Within(g, src, v, dist[v]))
    && (forall u :: 0 <= u < |g| && dist[u] < inf && u !in q ==> Relaxed(g, dist, u))
  }

  /** The distances computed by the relaxation BFS from `src` (`bfs` in the valve reducer,
      `bfs_impl` on the grid): `dist[src] == 0`, and every node holds its shortest-path
      edge count, or the sentinel `inf` when it is unreachable. */
  method Distances(g: Graph, src: nat, inf: nat) returns (dist: seq<nat>)
    requires ValidGraph(g) && src < |g| && 0 < inf
    ensures |dist| == |g|
    ensures dist[src] == 0
    ensures forall v :: 0 <= v < |g| ==> dist[v] <= inf
    ensures forall v :: 0 <= v < |g| ==> IsDistance(g, src, v, dist[v], inf)
  {
    dist := seq(|g|, i => if i == src then 0 else inf);
    var q: seq<nat> := [src];
    while |q| > 0
      invariant QueueInvariant(g, src, inf, dist, q)
      decreases SumNat(dist), |q|
    {
      var n := q[0];
      var q' := q[1..];
      dist, q := Expand(g, src, inf, dist, q', n);
    }
    RelaxedDistances(g, src, inf, dist);
  }

  /** What holds while the out-edges `g[n][..j]` of the dequeued node `n` are being
      relaxed, starting from the distances `dist0` and the remaining queue `q0`. */
  ghost predicate EdgeInvariant(g: Graph, src: nat, inf: nat, dist0: seq<nat>, q0: seq<nat>, n: nat,
                                j: nat, dist: seq<nat>, q: seq<nat>)
    requires ValidGraph(g) && |dist0| == |g| && n < |g|
  {
    && j <= |g[n]|
    && |dist| == |g| && src < |g|
    && dist[src] == 0
    && dist[n] == dist0[n] < inf
    && (forall v :: 0 <= v < |g| ==> dist[v] <= dist0[v] && dist[v] <= inf)
    && (forall i :: 0 <= i < |q| ==> q[i] < |dist| && dist[q[i]] < inf)
    && |q0| <= |q| && q[..|q0|] == q0
    && (forall v :: 0 <= v < |g| && dist[v] != dist0[v] ==> v in q[|q0|..])
    && (forall v :: 0 <= v < |g| && dist[v] < inf ==> Within(g, src, v, dist[v]))
    && (forall k :: 0 <= k < j ==> dist[g[n][k]] <= dist0[n] + 1)
    && SumNat(dist) + (|q| - |q0|) <= SumNat(dist0)
    && (|q| == |q0| ==> dist == dist0 && q == q0)
  }

  /** One iteration of the BFS loop: relaxes every out-edge of the dequeued node `n`,
      re-queueing each neighbour whose distance improves. */
  method Expand(g: Graph, src: nat, inf: nat, dist0: seq<nat>, q0: seq<nat>, n: nat)
    returns (dist: seq<nat>, q: seq<nat>)
    requires ValidGraph(g)
    requires QueueInvariant(g, src, inf, dist0, [n] + q0)
    ensures QueueInvariant(g, src, inf, dist, q)
    ensures SumNat(dist) < SumNat(dist0) || (dist == dist0 && q == q0)
  {
    assert ([n] + q0)[0] == n;
    assert forall i :: 0 <= i < |q0| ==> q0[i] == ([n] + q0)[i + 1];
    dist, q := dist0, q0;
    var j := 0;
    while j < |g[n]|
      invariant EdgeInvariant(g, src, inf, dist0, q0, n, j, dist, q)
      decreases |g[n]| - j
    {
      dist, q := RelaxEdge(g, src, inf, dist0, q0, n, j, dist, q);
      j := j + 1;
    }
    ExpandDone(g, src, inf, dist0, q0, n, dist, q);
  }

  /** Relaxes the single edge `n -> g[n][j]`. */
  method RelaxEdge(g: Graph, src: nat, inf: nat, dist0: seq<nat>, q0: seq<nat>, n: nat,
                   j: nat, dist: seq<nat>, q: seq<nat>)
    returns (dist': seq<nat>, q': seq<nat>)
    requires ValidGraph(g) && |dist0| == |g| && n < |g| && j < |g[n]|
    requires EdgeInvariant(g, src, inf, dist0, q0, n, j, dist, q)
    ensures EdgeInvariant(g, src, inf, dist0, q0, n, j + 1, dist', q')
  {
    var to := g[n][j];
    var newDist := dist[n] + 1;
    if newDist < dist[to] {
      SumNatUpdate(dist, to, newDist);
      WithinStep(g, src, n, j, dist[n]);
      dist' := dist[to := newDist];
      assert (q + [to])[|q0|..] == q[|q0|..] + [to];
      q' := q + [to];
      assert q'[..|q0|] == q[..|q0|];
      forall i | 0 <= i < |q'|
        ensures q'[i] < |dist'| && dist'[q'[i]] < inf
      {
        if i < |q| {
          assert q'[i] == q[i];
          assert dist'[q[i]] <= dist[q[i]];
        } else {
          assert q'[i] == to;
        }
      }
      forall v | 0 <= v < |g| && dist'[v] < inf
        ensures Within(g, src, v, dist'[v])
      {
        if v != to {
          assert dist'[v] == dist[v];
        }
      }
      forall k | 0 <= k < j + 1
        ensures dist'[g[n][k]] <= dist0[n] + 1
      {
        if k < j {
          assert dist[g[n][k]] <= dist0[n] + 1;
        }
      }
    } else {
      dist', q' := dist, q;
    }
  }

  /** After the last edge, the queue invariant is restored. */
  lemma ExpandDone(g: Graph, src: nat, inf: nat, dist0: seq<nat>, q0: seq<nat>, n: nat,
                   dist: seq<nat>, q: seq<nat>)
    requires ValidGraph(g) && QueueInvariant(g, src, inf, dist0, [n] + q0)
    requires n < |g| && EdgeInvariant(g, src, inf, dist0, q0, n, |g[n]|, dist, q)
    ensures QueueInvariant(g, src, inf, dist, q)
    ensures SumNat(dist) < SumNat(dist0) || (dist == dist0 && q == q0)
  {
    forall u | 0 <= u < |g| && dist[u] < inf && u !in q
      ensures Relaxed(g, dist, u)
    {
      if u != n {
        assert q == q0 + q[|q0|..];
        assert u !in [n] + q0;
        assert dist[u] == dist0[u];
        assert Relaxed(g, dist0, u);
      }
    }
  }

  /** One more edge extends a path by one step. */
  lemma WithinStep(g: Graph, src: nat, u: nat, k: nat, d: nat)
    requires ValidGraph(g) && u < |g| && k < |g[u]| && Within(g, src, u, d)
    ensures Within(g, src, g[u][k], d + 1)
  {
    assert g[u][k] in g[u];
  }

  /** The source is within every number of steps of itself. */
  lemma {:induction false} WithinSource(g: Graph, src: nat, k: nat)
    ensures Within(g, src, src, k)
    decreases k
  {
    if k > 0 {
      WithinSource(g, src, k - 1);
    }
  }

  /** The distance from the source to itself is 0. */
  lemma SourceDistance(g: Graph, src: nat, d: nat, inf: nat)
    requires 0 < inf && IsDistance(g, src, src, d, inf)
    ensures d == 0
  {
    if d < inf {
      if d > 0 {
        WithinSource(g, src, d - 1);
      }
    } else {
      WithinSource(g, src, 0);
    }
  }

  /** With the queue empty, the relaxed distances are exactly the shortest-path counts. */
  lemma RelaxedDistances(g: Graph, src: nat, inf: nat, dist: seq<nat>)
    requires ValidGraph(g)
    requires QueueInvariant(g, src, inf, dist, [])
    ensures forall v :: 0 <= v < |g| ==> IsDistance(g, src, v, dist[v], inf)
  {
    forall v | 0 <= v < |g|
      ensures IsDistance(g, src, v, dist[v], inf)
    {
      if dist[v] < inf {
        if dist[v] > 0 && Within(g, src, v, dist[v] - 1) {
          WithinBound(g, src, dist, inf, v, dist[v] - 1);
        }
      } else {
        forall k | 0 <= k < inf
          ensures !Within(g, src, v, k)
        {
          if Within(g, src, v, k) {
            WithinBound(g, src, dist, inf, v, k);
          }
        }
      }
    }
  }

  /** Once every finite node is relaxed, nothing reachable in `k` steps is further than `k`. */
  lemma {:induction false} WithinBound(g: Graph, src: nat, dist: seq<nat>, inf: nat, v: nat, k: nat)
    requires ValidGraph(g) && |dist| == |g| && src < |g| && dist[src] == 0
    requires forall u :: 0 <= u < |g| ==> dist[u] <= inf
    requires forall u :: 0 <= u < |g| && dist[u] < inf ==> Relaxed(g, dist, u)
    requires v < |g| && k < inf && Within(g, src, v, k)
    ensures dist[v] <= k
    decreases k
  {
    if k > 0 {
      if Within(g, src, v, k - 1) {
        WithinBound(g, src, dist, inf, v, k - 1);
      } else {
        var u :| 0 <= u < |g| && v in g[u] && Within(g, src, u, k - 1);
        WithinBound(g, src, dist, inf, u, k - 1);
        var i :| 0 <= i < |g[u]| && g[u][i] == v;
        assert dist[g[u][i]] <= dist[u] + 1;
      }
    }
  }

  /** Reachability within `j` steps implies reachability within any larger budget. */
  lemma {:induction false} WithinMono(g: Graph, src: nat, v: nat, j: nat, k: nat)
    requires j <= k && Within(g, src, v, j)
    ensures Within(g, src, v, k)
    decreases k - j
  {
    if j < k {
      WithinMono(g, src, v, j, k - 1);
    }
  }

  /** Shortest distances respect every edge: a neighbour is at most one further. */
  lemma DistanceStep(g: Graph, src: nat, inf: nat, dist: seq<nat>, u: nat, k: nat)
    requires ValidGraph(g) && |dist| == |g| && u < |g| && k < |g[u]|
    requires forall v :: 0 <= v < |g| ==> IsDistance(g, src, v, dist[v], inf)
    ensures dist[g[u][k]] <= dist[u] + 1
  {
    var v := g[u][k];
    assert IsDistance(g, src, v, dist[v], inf);
    if dist[u] < inf {
      assert IsDistance(g, src, u, dist[u], inf);
      WithinStep(g, src, u, k, dist[u]);
      if dist[u] + 1 < dist[v] {
        if dist[v] < inf {
          WithinMono(g, src, v, dist[u] + 1, dist[v] - 1);
        }
      }
    }
  }

  /** A node has one distance: `IsDistance` pins `d` down. */
  lemma DistanceUnique(g: Graph, src: nat, v: nat, d1: nat, d2: nat, inf: nat)
    requires IsDistance(g, src, v, d1, inf) && IsDistance(g, src, v, d2, inf)
    ensures d1 == d2
  {
    if d1 < d2 {
      if d2 < inf {
        WithinMono(g, src, v, d1, d2 - 1);
      }
    } else if d2 < d1 {
      if d1 < inf {
        WithinMono(g, src, v, d2, d1 - 1);
      }
    }
  }

  /** `h` is `g` with every edge turned around. */
  ghost predicate Transposed(g: Graph, h: Graph) {
    |g| == |h| && forall a, b :: 0 <= a < |g| && 0 <= b < |g| ==> (b in g[a] <==> a in h[b])
  }

  lemma TransposedSymmetric(g: Graph, h: Graph)
    requires Transposed(g, h)
    ensures Transposed(h, g)
  {
  }

  /** A path can also be extended at its front: an edge `s -> u` followed by a path from
      `u` is a path from `s` one edge longer. */
  lemma {:induction false} WithinFront(g: Graph, s: nat, u: nat, v: nat, k: nat)
    requires s < |g| && u in g[s] && Within(g, u, v, k)
    ensures Within(g, s, v, k + 1)
    decreases k
  {
    if k == 0 {
      assert Within(g, s, s, 0);
    } else if Within(g, u, v, k - 1) {
      WithinFront(g, s, u, v, k - 1);
      WithinMono(g, s, v, k, k + 1);
    } else {
      var w :| 0 <= w < |g| && v in g[w] && Within(g, u, w, k - 1);
      WithinFront(g, s, u, w, k - 1);
    }
  }

  /** Reversing every edge reverses every path. */
  lemma {:induction false} WithinTranspose(g: Graph, h: Graph, s: nat, v: nat, k: nat)
    requires ValidGraph(g) && Transposed(g, h) && Within(g, s, v, k)
    ensures Within(h, v, s, k)
    decreases k
  {
    if k > 0 {
      if Within(g, s, v, k - 1) {
        WithinTranspose(g, h, s, v, k - 1);
        WithinMono(h, v, s, k - 1, k);
      } else {
        var u :| 0 <= u < |g| && v in g[u] && Within(g, s, u, k - 1);
        WithinTranspose(g, h, s, u, k - 1);
        var i :| 0 <= i < |g[u]| && g[u][i] == v;
        assert u in h[v];
        WithinFront(h, v, u, s, k - 1);
      }
    }
  }

  /** Distances in the transposed graph are the distances of the reversed pairs. */
  lemma DistanceTranspose(g: Graph, h: Graph, s: nat, v: nat, d: nat, inf: nat)
    requires ValidGraph(g) && ValidGraph(h) && Transposed(g, h)
    ensures IsDistance(g, s, v, d, inf) <==> IsDistance(h, v, s, d, inf)
  {
    TransposedSymmetric(g, h);
    forall k | Within(g, s, v, k)
      ensures Within(h, v, s, k)
    {
      WithinTranspose(g, h, s, v, k);
    }
    forall k | Within(h, v, s, k)
      ensures Within(g, s, v, k)
    {
      WithinTranspose(h, g, v, s, k);
    }
  }
}
