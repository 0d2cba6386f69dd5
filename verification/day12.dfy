/** Hill Climbing Algorithm (day 12): a height map stored row-major, the climbing rule
    (at most one step up, any step down) and breadth-first distances over it. */
module Day12 {
  import opened Util
  import Bfs

  /** `usize::MAX`, the distance of a cell the search never reaches. */
  const USIZE_MAX: nat := 0xFFFF_FFFF_FFFF_FFFF

  /** `Grid`: heights as character codes, row-major; `start` and `end` index the cells
      that held `S` and `E`. */
  datatype Grid = Grid(cells: seq<int>, width: nat, height: nat, start: nat, end: nat)

  predicate Valid(g: Grid) {
    && 0 < g.width
    && |g.cells| == g.width * g.height
    && g.start < |g.cells| && g.end < |g.cells|
  }

  /** Index of the first cell equal to `c` (`find_position`). */
  function FindFirst(cells: seq<int>, c: int): (r: Option<nat>)
    ensures r.Some? ==> r.value < |cells| && cells[r.value] == c
    ensures r.Some? ==> forall i :: 0 <= i < r.value ==> cells[i] != c
    ensures r.None? <==> c !in cells
  {
    if |cells| == 0 then None
    else if cells[0] == c then Some(0)
    else match FindFirst(cells[1..], c)
      case None => None
      case Some(i) => Some(i + 1)
  }

  /** `Grid::new`: the height is `len / width` and must fill the grid exactly; the first
      `S` becomes `a` and is the start, then the first `E` becomes `z` and is the end.
      A zero width, a ragged length or a missing `S` or `E` panics (`None`). */
  function NewGrid(cells: seq<int>, width: nat): (r: Option<Grid>)
    ensures r.Some? <==> 0 < width && |cells| % width == 0 && ('S' as int) in cells && ('E' as int) in cells
    ensures r.Some? ==> Valid(r.value) && r.value.width == width
    ensures r.Some? ==> r.value.cells[r.value.start] == 'a' as int && r.value.cells[r.value.end] == 'z' as int
    ensures r.Some? ==> |r.value.cells| == |cells| && cells[r.value.start] == 'S' as int && cells[r.value.end] == 'E' as int
    ensures r.Some? ==> forall i :: 0 <= i < |cells| && i != r.value.start && i != r.value.end ==> r.value.cells[i] == cells[i]
  {
    if width == 0 then None
    else
      var height := |cells| / width;
      if |cells| % width != 0 then None
      else match FindFirst(cells, 'S' as int)
        case None => None
        case Some(s) =>
          var cells' := cells[s := 'a' as int];
          assert 'E' as int in cells <==> 'E' as int in cells' by {
            assert forall i :: 0 <= i < |cells| && i != s ==> cells'[i] == cells[i];
          }
          match FindFirst(cells', 'E' as int)
          case None => None
          case Some(e) =>
            DivExact(|cells|, width);
            Some(Grid(cells'[e := 'z' as int], width, height, s, e))
  }

  /** A length the width divides is exactly `width * (len / width)` cells, so the
      `len != width * height` test and `len % width != 0` agree. */
  lemma DivExact(n: nat, w: nat)
    requires 0 < w
    ensures n % w == 0 <==> n == w * (n / w)
  {
  }

  /** `to_idx`. */
  function ToIdx(g: Grid, x: nat, y: nat): nat {
    x + y * g.width
  }

  /** `to_coords`. */
  function ToCoords(g: Grid, i: nat): (nat, nat)
    requires 0 < g.width
  {
    (i % g.width, i / g.width)
  }

  /** Coordinates and indices are inverse: `to_coords(to_idx(x, y)) == (x, y)` for
      `x < width`, and `to_idx(to_coords(i)) == i`. */
  lemma CoordsRoundTrip(g: Grid, x: nat, y: nat, i: nat)
    requires 0 < g.width && x < g.width
    ensures ToCoords(g, ToIdx(g, x, y)) == (x, y)
    ensures ToIdx(g, ToCoords(g, i).0, ToCoords(g, i).1) == i
  {
    DivModUnique(x + y * g.width, g.width, y, x);
  }

  /** `bfs`'s step rule: climb at most one, descend any amount. */
  predicate CanStepUp(from: int, to: int) {
    to <= from + 1
  }

  /** `bfs_reverse`'s step rule. */
  predicate CanStepDown(from: int, to: int) {
    from <= to + 1
  }

  /** The reverse rule is the forward rule with the two cells swapped. */
  lemma StepTranspose(a: int, b: int)
    ensures CanStepDown(a, b) <==> CanStepUp(b, a)
  {
  }

  predicate CanStep(reverse: bool, from: int, to: int) {
    if reverse then CanStepDown(from, to) else CanStepUp(from, to)
  }

  /** The cell at signed coordinates, when they lie inside the grid. */
  function At(g: Grid, x: int, y: int): (r: Option<nat>)
    requires Valid(g)
    ensures r.Some? <==> 0 <= x < g.width && 0 <= y < g.height
    ensures r.Some? ==> r.value == ToIdx(g, x, y) && r.value < |g.cells|
  {
    if 0 <= x < g.width && 0 <= y < g.height then
      InGrid(g, x, y);
      Some(ToIdx(g, x, y))
    else None
  }

  /** From a cell of height `v`, the step to `(x, y)` stays inside and obeys the rule. */
  predicate Allowed(g: Grid, reverse: bool, v: int, x: int, y: int)
    requires Valid(g)
  {
    At(g, x, y).Some? && CanStep(reverse, v, g.cells[At(g, x, y).value])
  }

  /** One queued neighbour, or none. */
  function Candidate(g: Grid, reverse: bool, v: int, x: int, y: int): (r: seq<nat>)
    requires Valid(g)
    ensures Allowed(g, reverse, v, x, y) ==> r == [At(g, x, y).value]
    ensures !Allowed(g, reverse, v, x, y) ==> r == []
  {
    if Allowed(g, reverse, v, x, y) then [At(g, x, y).value] else []
  }

  /** The neighbours `bfs_impl` queues from cell `n`: left, right, up, down, each only
      when inside the grid and allowed by the step rule. */
  function Neighbors(g: Grid, n: nat, reverse: bool): (r: seq<nat>)
    requires Valid(g) && n < |g.cells|
    ensures forall k :: 0 <= k < |r| ==> r[k] < |g.cells|
  {
    var (x, y) := ToCoords(g, n);
    var v := g.cells[n];
    Candidate(g, reverse, v, x - 1, y) + Candidate(g, reverse, v, x + 1, y)
      + Candidate(g, reverse, v, x, y - 1) + Candidate(g, reverse, v, x, y + 1)
  }

  /** The queued neighbours are exactly the cells `Queued` describes. */
  lemma NeighborsMembers(g: Grid, n: nat, reverse: bool, m: nat)
    requires Valid(g) && n < |g.cells|
    ensures m in Neighbors(g, n, reverse) <==> Queued(g, reverse, n, m)
  {
    var (x, y) := ToCoords(g, n);
    var v := g.cells[n];
    var c1, c2 := Candidate(g, reverse, v, x - 1, y), Candidate(g, reverse, v, x + 1, y);
    var c3, c4 := Candidate(g, reverse, v, x, y - 1), Candidate(g, reverse, v, x, y + 1);
    assert Neighbors(g, n, reverse) == c1 + c2 + c3 + c4;
    assert m in c1 + c2 + c3 + c4 <==> m in c1 || m in c2 || m in c3 || m in c4;
  }

  /** `m` is one of the four cells around `n` and the rule allows the step. */
  predicate Queued(g: Grid, reverse: bool, n: nat, m: nat)
    requires Valid(g) && n < |g.cells|
  {
    var (x, y) := ToCoords(g, n);
    var v := g.cells[n];
    || (Allowed(g, reverse, v, x - 1, y) && At(g, x - 1, y).value == m)
    || (Allowed(g, reverse, v, x + 1, y) && At(g, x + 1, y).value == m)
    || (Allowed(g, reverse, v, x, y - 1) && At(g, x, y - 1).value == m)
    || (Allowed(g, reverse, v, x, y + 1) && At(g, x, y + 1).value == m)
  }

  /** The coordinates of a cell lie inside the grid. */
  lemma CoordsInGrid(g: Grid, n: nat)
    requires Valid(g) && n < |g.cells|
    ensures ToCoords(g, n).0 < g.width && ToCoords(g, n).1 < g.height
  {
    if n / g.width >= g.height {
      MulLe(g.height, n / g.width, g.width);
    }
  }

  /** If `b` sits at offset `(dx, dy)` from `a`, then `a` sits at `(-dx, -dy)` from `b`. */
  lemma Mirror(g: Grid, a: nat, b: nat, dx: int, dy: int)
    requires Valid(g) && a < |g.cells|
    requires At(g, ToCoords(g, a).0 + dx, ToCoords(g, a).1 + dy) == Some(b)
    ensures At(g, ToCoords(g, b).0 - dx, ToCoords(g, b).1 - dy) == Some(a)
  {
    var (x, y) := ToCoords(g, a);
    CoordsInGrid(g, a);
    CoordsRoundTrip(g, 0, 0, a);
    CoordsRoundTrip(g, x + dx, y + dy, 0);
    assert At(g, x, y) == Some(a);
  }

  /** A queued cell obeys the step rule from the cell it was queued from. */
  lemma QueuedStep(g: Grid, reverse: bool, a: nat, b: nat)
    requires Valid(g) && a < |g.cells| && Queued(g, reverse, a, b)
    ensures b < |g.cells| && CanStep(reverse, g.cells[a], g.cells[b])
  {
  }

  /** A cell at a unit offset, reached by the step rule, is queued. */
  lemma QueuedAt(g: Grid, reverse: bool, a: nat, b: nat, dx: int, dy: int)
    requires Valid(g) && a < |g.cells| && b < |g.cells|
    requires (dx, dy) in {(-1, 0), (1, 0), (0, -1), (0, 1)}
    requires At(g, ToCoords(g, a).0 + dx, ToCoords(g, a).1 + dy) == Some(b)
    requires CanStep(reverse, g.cells[a], g.cells[b])
    ensures Queued(g, reverse, a, b)
  {
    var (x, y) := ToCoords(g, a);
    var v := g.cells[a];
    if (dx, dy) == (-1, 0) {
      assert Allowed(g, reverse, v, x - 1, y);
    } else if (dx, dy) == (1, 0) {
      assert Allowed(g, reverse, v, x + 1, y);
    } else if (dx, dy) == (0, -1) {
      assert Allowed(g, reverse, v, x, y - 1);
    } else {
      assert Allowed(g, reverse, v, x, y + 1);
    }
  }

  /** The offset at which a queued cell sits. */
  lemma QueuedOffset(g: Grid, reverse: bool, a: nat, b: nat) returns (dx: int, dy: int)
    requires Valid(g) && a < |g.cells| && Queued(g, reverse, a, b)
    ensures (dx, dy) in {(-1, 0), (1, 0), (0, -1), (0, 1)}
    ensures At(g, ToCoords(g, a).0 + dx, ToCoords(g, a).1 + dy) == Some(b)
  {
    var (x, y) := ToCoords(g, a);
    if At(g, x - 1, y) == Some(b) && Allowed(g, reverse, g.cells[a], x - 1, y) {
      dx, dy := -1, 0;
    } else if At(g, x + 1, y) == Some(b) && Allowed(g, reverse, g.cells[a], x + 1, y) {
      dx, dy := 1, 0;
    } else if At(g, x, y - 1) == Some(b) && Allowed(g, reverse, g.cells[a], x, y - 1) {
      dx, dy := 0, -1;
    } else {
      dx, dy := 0, 1;
    }
  }

  /** One direction of `EdgeReverse`: a step allowed going up is allowed backwards going down. */
  lemma EdgeUpDown(g: Grid, a: nat, b: nat)
    requires Valid(g) && a < |g.cells| && b < |g.cells| && Queued(g, false, a, b)
    ensures Queued(g, true, b, a)
  {
    QueuedStep(g, false, a, b);
    StepTranspose(g.cells[b], g.cells[a]);
    var dx, dy := QueuedOffset(g, false, a, b);
    Mirror(g, a, b, dx, dy);
    QueuedAt(g, true, b, a, -dx, -dy);
  }

  /** The other direction: a step allowed going down is allowed backwards going up. */
  lemma EdgeDownUp(g: Grid, a: nat, b: nat)
    requires Valid(g) && a < |g.cells| && b < |g.cells| && Queued(g, true, b, a)
    ensures Queued(g, false, a, b)
  {
    QueuedStep(g, true, b, a);
    StepTranspose(g.cells[b], g.cells[a]);
    var dx, dy := QueuedOffset(g, true, b, a);
    Mirror(g, b, a, dx, dy);
    QueuedAt(g, false, a, b, -dx, -dy);
  }

  /** The reverse search walks exactly the forward edges backwards: `b` is queued from
      `a` going up exactly when `a` is queued from `b` going down. */
  lemma EdgeReverse(g: Grid, a: nat, b: nat)
    requires Valid(g) && a < |g.cells| && b < |g.cells|
    ensures b in Neighbors(g, a, false) <==> a in Neighbors(g, b, true)
  {
    NeighborsMembers(g, a, false, b);
    NeighborsMembers(g, b, true, a);
    if Queued(g, false, a, b) {
      EdgeUpDown(g, a, b);
    }
    if Queued(g, true, b, a) {
      EdgeDownUp(g, a, b);
    }
  }

  /** Every queued neighbour of the cell it was queued from. */
  lemma NeighborsAdjacent(g: Grid, n: nat, reverse: bool, k: nat)
    requires Valid(g) && n < |g.cells| && k < |Neighbors(g, n, reverse)|
    ensures Adjacent(g, n, Neighbors(g, n, reverse)[k])
  {
    var (x, y) := ToCoords(g, n);
    CoordsRoundTrip(g, 0, 0, n);
    AdjacentCells(g, x, y);
  }

  lemma InGrid(g: Grid, x: nat, y: nat)
    requires Valid(g) && x < g.width && y < g.height
    ensures ToIdx(g, x, y) < |g.cells|
  {
    MulLe(y + 1, g.height, g.width);
  }

  /** Two cells are 4-neighbours. */
  predicate Adjacent(g: Grid, a: nat, b: nat)
    requires 0 < g.width
  {
    var (xa, ya) := ToCoords(g, a);
    var (xb, yb) := ToCoords(g, b);
    Abs(xa - xb) + Abs(ya - yb) == 1
  }

  lemma AdjacentCells(g: Grid, x: nat, y: nat)
    requires 0 < g.width && x < g.width
    ensures x > 0 ==> Adjacent(g, ToIdx(g, x, y), ToIdx(g, x - 1, y))
    ensures x + 1 < g.width ==> Adjacent(g, ToIdx(g, x, y), ToIdx(g, x + 1, y))
    ensures y > 0 ==> Adjacent(g, ToIdx(g, x, y), ToIdx(g, x, y - 1))
    ensures Adjacent(g, ToIdx(g, x, y), ToIdx(g, x, y + 1))
  {
    CoordsRoundTrip(g, x, y, 0);
    if x > 0 {
      CoordsRoundTrip(g, x - 1, y, 0);
    }
    if x + 1 < g.width {
      CoordsRoundTrip(g, x + 1, y, 0);
    }
    if y > 0 {
      CoordsRoundTrip(g, x, y - 1, 0);
    }
    CoordsRoundTrip(g, x, y + 1, 0);
  }

  /** The graph `bfs_impl` explores: one adjacency list per cell. */
  function StepGraph(g: Grid, reverse: bool): (graph: Bfs.Graph)
    requires Valid(g)
    ensures |graph| == |g.cells| && Bfs.ValidGraph(graph)
    ensures forall n :: 0 <= n < |g.cells| ==> graph[n] == Neighbors(g, n, reverse)
  {
    seq(|g.cells|, n requires 0 <= n < |g.cells| => Neighbors(g, n, reverse))
  }

  /** `bfs_impl`: shortest step counts from `source`; unreached cells keep `usize::MAX`. */
  method BfsImpl(g: Grid, source: nat, reverse: bool) returns (dist: seq<nat>)
    requires Valid(g) && source < |g.cells|
    ensures |dist| == |g.cells| && dist[source] == 0
    ensures forall v :: 0 <= v < |g.cells| ==> dist[v] <= USIZE_MAX
    ensures forall v :: 0 <= v < |g.cells| ==> Bfs.IsDistance(StepGraph(g, reverse), source, v, dist[v], USIZE_MAX)
    ensures forall n, k :: 0 <= n < |g.cells| && 0 <= k < |StepGraph(g, reverse)[n]| ==>
      dist[StepGraph(g, reverse)[n][k]] <= dist[n] + 1
  {
    var graph := StepGraph(g, reverse);
    dist := Bfs.Distances(graph, source, USIZE_MAX);
    forall n, k | 0 <= n < |g.cells| && 0 <= k < |graph[n]|
      ensures dist[graph[n][k]] <= dist[n] + 1
    {
      Bfs.DistanceStep(graph, source, USIZE_MAX, dist, n, k);
    }
  }

  /** `bfs`: forward from the start. */
  method Forward(g: Grid) returns (dist: seq<nat>)
    requires Valid(g)
    ensures |dist| == |g.cells| && dist[g.start] == 0
    ensures forall v :: 0 <= v < |g.cells| ==> Bfs.IsDistance(StepGraph(g, false), g.start, v, dist[v], USIZE_MAX)
  {
    dist := BfsImpl(g, g.start, false);
  }

  /** `bfs_reverse`: backwards from the end. */
  method Backward(g: Grid) returns (dist: seq<nat>)
    requires Valid(g)
    ensures |dist| == |g.cells| && dist[g.end] == 0
    ensures forall v :: 0 <= v < |g.cells| ==> Bfs.IsDistance(StepGraph(g, true), g.end, v, dist[v], USIZE_MAX)
  {
    dist := BfsImpl(g, g.end, true);
  }

  /** `part1`: the distance from the start to the end. */
  method Part1(g: Grid) returns (d: nat)
    requires Valid(g)
    ensures Bfs.IsDistance(StepGraph(g, false), g.start, g.end, d, USIZE_MAX)
  {
    var dist := Forward(g);
    d := dist[g.end];
  }

  /** The smallest `dist[i]` over cells of height `a` among the first `n` cells. */
  function MinOverA(cells: seq<int>, dist: seq<nat>, n: nat): (r: Option<nat>)
    requires n <= |cells| == |dist|
    ensures r.None? <==> forall i :: 0 <= i < n ==> cells[i] != 'a' as int
    ensures r.Some? ==> exists i :: 0 <= i < n && cells[i] == 'a' as int && dist[i] == r.value
    ensures r.Some? ==> forall i :: 0 <= i < n && cells[i] == 'a' as int ==> r.value <= dist[i]
  {
    if n == 0 then None
    else
      var prev := MinOverA(cells, dist, n - 1);
      if cells[n - 1] != 'a' as int then prev
      else if prev.None? || dist[n - 1] < prev.value then Some(dist[n - 1])
      else prev
  }

  /** `part2`: the fewest steps from any cell of height `a` to the end, read off the
      reverse search (`min_by_key(...).unwrap()`; `None` when no cell has height `a`). */
  method Part2(g: Grid) returns (r: Option<nat>)
    requires Valid(g)
    ensures r.Some? <==> ('a' as int) in g.cells
    ensures r.Some? ==> (exists i :: 0 <= i < |g.cells| && g.cells[i] == 'a' as int &&
                                     Bfs.IsDistance(StepGraph(g, true), g.end, i, r.value, USIZE_MAX))
    ensures r.Some? ==> forall i, d ::
      (0 <= i < |g.cells| && g.cells[i] == 'a' as int && Bfs.IsDistance(StepGraph(g, true), g.end, i, d, USIZE_MAX))
      ==> r.value <= d
  {
    var dist := Backward(g);
    r := MinOverA(g.cells, dist, |g.cells|);
    if r.Some? {
      var i :| 0 <= i < |g.cells| && g.cells[i] == 'a' as int && dist[i] == r.value;
      forall j, d | 0 <= j < |g.cells| && g.cells[j] == 'a' as int &&
                    Bfs.IsDistance(StepGraph(g, true), g.end, j, d, USIZE_MAX)
        ensures r.value <= d
      {
        Bfs.DistanceUnique(StepGraph(g, true), g.end, j, d, dist[j], USIZE_MAX);
      }
    } else {
      assert forall i :: 0 <= i < |g.cells| ==> g.cells[i] != 'a' as int;
    }
  }

  /** The grid's text: lines of equal length, the width read from the first line (the
      first newline). A single line has no newline and panics (`None`). */
  function InputGenerator(lines: seq<string>): (r: Option<Grid>)
    ensures r.Some? ==> 2 <= |lines| && r.value.width == |lines[0]|
  {
    if |lines| < 2 then None else NewGrid(Codes(Concat(lines)), |lines[0]|)
  }

  function Concat(lines: seq<string>): string {
    if |lines| == 0 then [] else lines[0] + Concat(lines[1..])
  }

  function Codes(s: string): (r: seq<int>)
    ensures |r| == |s| && forall i :: 0 <= i < |s| ==> r[i] == s[i] as int
  {
    if |s| == 0 then [] else Codes(s[..|s| - 1]) + [Last(s) as int]
  }

  /** The reverse step graph is the forward one with every edge turned around. */
  lemma StepGraphTransposed(g: Grid)
    requires Valid(g)
    ensures Bfs.Transposed(StepGraph(g, false), StepGraph(g, true))
  {
    forall a, b | 0 <= a < |g.cells| && 0 <= b < |g.cells|
      ensures b in StepGraph(g, false)[a] <==> a in StepGraph(g, true)[b]
    {
      EdgeReverse(g, a, b);
    }
  }

  /** The distance from the start to the end is the distance the reverse search finds
      from the end back to the start. */
  lemma ForwardReverse(g: Grid, d: nat)
    requires Valid(g)
    ensures Bfs.IsDistance(StepGraph(g, false), g.start, g.end, d, USIZE_MAX)
        <==> Bfs.IsDistance(StepGraph(g, true), g.end, g.start, d, USIZE_MAX)
  {
    StepGraphTransposed(g);
    Bfs.DistanceTranspose(StepGraph(g, false), StepGraph(g, true), g.start, g.end, d, USIZE_MAX);
  }

  /** The start itself has height `a`, so the best hike from any `a` is never longer than
      the hike from the start. */
  method BothParts(g: Grid) returns (p1: nat, p2: Option<nat>)
    requires Valid(g) && g.cells[g.start] == 'a' as int
    ensures Bfs.IsDistance(StepGraph(g, false), g.start, g.end, p1, USIZE_MAX)
    ensures p2.Some? && p2.value <= p1
  {
    p1 := Part1(g);
    p2 := Part2(g);
    ForwardReverse(g, p1);
  }
}
