/** Boiling Boulders (day 18): unit cubes on an integer lattice, their exposed faces, and
    the flood fill of the outside air through a box one larger than the droplet. */
module Day18 {
  import opened Util
  import opened Text

  datatype Cube = Cube(x: int, y: int, z: int)

  /** `NEIGHBORS`: the six unit offsets, in the source's order. */
  const OFFSETS: seq<Cube> := [Cube(1, 0, 0), Cube(-1, 0, 0), Cube(0, 1, 0), Cube(0, -1, 0), Cube(0, 0, 1), Cube(0, 0, -1)]

  function Add(a: Cube, b: Cube): Cube {
    Cube(a.x + b.x, a.y + b.y, a.z + b.z)
  }

  /** Two cubes share a face. */
  predicate FaceAdjacent(a: Cube, b: Cube) {
    Abs(a.x - b.x) + Abs(a.y - b.y) + Abs(a.z - b.z) == 1
  }

  /** `Cube::neighbors`: exactly the six face-adjacent cubes, each once. */
  function Neighbors(c: Cube): (r: seq<Cube>)
    ensures |r| == 6 && AllDistinct(r)
    ensures forall d :: d in r <==> FaceAdjacent(c, d)
  {
    [Add(c, OFFSETS[0]), Add(c, OFFSETS[1]), Add(c, OFFSETS[2]), Add(c, OFFSETS[3]), Add(c, OFFSETS[4]), Add(c, OFFSETS[5])]
  }

  /** Face adjacency is symmetric, and no cube is its own neighbour. */
  lemma AdjacentSymmetric(a: Cube, b: Cube)
    ensures FaceAdjacent(a, b) <==> FaceAdjacent(b, a)
    ensures !FaceAdjacent(a, a)
  {
  }

  /** One coordinate: an `i32`. */
  function Coord(s: string): Option<int> {
    ParseSigned(s, I32_MIN, I32_MAX)
  }

  /** `Cube::from_str`: `splitn(3, ',')` must give exactly three pieces, each an `i32`. */
  function ParseCube(s: string): (r: Result<Cube>)
    ensures r.Ok? <==> var parts := SplitN(s, 3, ',');
      |parts| == 3 && Coord(parts[0]).Some? && Coord(parts[1]).Some? && Coord(parts[2]).Some?
    ensures r.Ok? ==> var parts := SplitN(s, 3, ',');
      r.value == Cube(Coord(parts[0]).value, Coord(parts[1]).value, Coord(parts[2]).value)
  {
    var parts := SplitN(s, 3, ',');
    if |parts| != 3 then Err
    else
      var x, y, z := Coord(parts[0]), Coord(parts[1]), Coord(parts[2]);
      if x.Some? && y.Some? && z.Some? then Ok(Cube(x.value, y.value, z.value)) else Err
  }

  function Render(c: Cube): string {
    IntToString(c.x) + "," + IntToString(c.y) + "," + IntToString(c.z)
  }

  lemma NoComma(v: int)
    ensures ',' !in IntToString(v)
  {
  }

  /** Three comma-free pieces joined by commas split back into those pieces. */
  lemma SplitThree(a: string, b: string, d: string)
    requires ',' !in a && ',' !in b
    ensures SplitN(a + [','] + b + [','] + d, 3, ',') == [a, b, d]
  {
    var tail := b + [','] + d;
    assert a + [','] + b + [','] + d == a + [','] + tail;
    SplitOnceAt(a, ',', tail);
    SplitOnceAt(b, ',', d);
    assert SplitN(d, 1, ',') == [d];
    assert SplitN(tail, 2, ',') == [b, d];
  }

  /** A rendered cube with `i32` coordinates parses back. */
  lemma ParseCubeRoundTrip(c: Cube)
    requires I32_MIN <= c.x <= I32_MAX && I32_MIN <= c.y <= I32_MAX && I32_MIN <= c.z <= I32_MAX
    ensures ParseCube(Render(c)) == Ok(c)
  {
    var a, b, d := IntToString(c.x), IntToString(c.y), IntToString(c.z);
    NoComma(c.x);
    NoComma(c.y);
    assert Render(c) == a + [','] + b + [','] + d;
    SplitThree(a, b, d);
    ParseSignedRoundTrip(c.x, I32_MIN, I32_MAX);
    ParseSignedRoundTrip(c.y, I32_MIN, I32_MAX);
    ParseSignedRoundTrip(c.z, I32_MIN, I32_MAX);
  }

  /** One input line: blank after trimming (`Ok(None)`), a cube, or an error. */
  function ReadLine(line: string): Result<Option<Cube>> {
    var t := Trim(line);
    if t == "" then Ok(None)
    else match ParseCube(t)
      case Err => Err
      case Ok(c) => Ok(Some(c))
  }

  /** A line the generator accepts: blank after trimming, or a cube. */
  predicate LineOk(line: string) {
    ReadLine(line).Ok?
  }

  /** Line `line` describes cube `c`. */
  predicate Describes(line: string, c: Cube) {
    ReadLine(line) == Ok(Some(c))
  }

  /** The cubes of the read lines, in order; an error as soon as one line is bad. */
  function Collect(rs: seq<Result<Option<Cube>>>): (r: Result<seq<Cube>>)
    ensures r.Ok? <==> forall i :: 0 <= i < |rs| ==> rs[i].Ok?
    ensures r.Ok? ==> forall c :: c in r.value <==> exists i :: 0 <= i < |rs| && rs[i] == Ok(Some(c))
  {
    if |rs| == 0 then Ok([])
    else
      var init := rs[..|rs| - 1];
      assert forall i :: 0 <= i < |init| ==> init[i] == rs[i];
      match (Collect(init), Last(rs))
      case (Ok(cubes), Ok(None)) => Ok(cubes)
      case (Ok(cubes), Ok(Some(c))) => Ok(cubes + [c])
      case _ => Err
  }

  function ReadLines(lines: seq<string>): (r: seq<Result<Option<Cube>>>)
    ensures |r| == |lines| && forall i :: 0 <= i < |lines| ==> r[i] == ReadLine(lines[i])
  {
    seq(|lines|, i requires 0 <= i < |lines| => ReadLine(lines[i]))
  }

  /** Collecting into a set: each element once, first occurrence kept. */
  function Dedup(cubes: seq<Cube>): (r: seq<Cube>)
    ensures AllDistinct(r)
    ensures forall c :: c in r <==> c in cubes
  {
    if |cubes| == 0 then []
    else
      var prev := Dedup(cubes[..|cubes| - 1]);
      assert forall c :: c in cubes <==> c in cubes[..|cubes| - 1] || c == Last(cubes);
      if Last(cubes) in prev then prev else prev + [Last(cubes)]
  }

  /** `input_generator`: trimmed non-empty lines, each a cube, collected into a set (here a
      sequence holding each cube once, in first-seen order). A bad line is an error. */
  function InputGenerator(lines: seq<string>): (r: Result<seq<Cube>>)
    ensures r.Ok? <==> forall i :: 0 <= i < |lines| ==> LineOk(lines[i])
    ensures r.Ok? ==> AllDistinct(r.value)
    ensures r.Ok? ==> forall c :: c in r.value <==> exists i :: 0 <= i < |lines| && Describes(lines[i], c)
  {
    var rs := ReadLines(lines);
    match Collect(rs)
    case Err => Err
    case Ok(cubes) => Ok(Dedup(cubes))
  }

  /** How many of `ns` lie in `s`. */
  function CountIn(ns: seq<Cube>, s: set<Cube>): (k: nat)
    ensures k <= |ns|
  {
    if |ns| == 0 then 0 else CountIn(ns[..|ns| - 1], s) + (if Last(ns) in s then 1 else 0)
  }

  /** How many of `ns` lie outside `s`. */
  function CountOut(ns: seq<Cube>, s: set<Cube>): (k: nat)
    ensures k <= |ns|
  {
    if |ns| == 0 then 0 else CountOut(ns[..|ns| - 1], s) + (if Last(ns) in s then 0 else 1)
  }

  /** Every element is counted on exactly one side. */
  lemma {:induction false} CountSplit(ns: seq<Cube>, s: set<Cube>)
    ensures CountIn(ns, s) + CountOut(ns, s) == |ns|
    decreases |ns|
  {
    if |ns| > 0 {
      CountSplit(ns[..|ns| - 1], s);
    }
  }

  /** A set disjoint from `cs` catches no more of `ns` than lie outside `cs`. */
  lemma {:induction false} CountDisjoint(ns: seq<Cube>, s: set<Cube>, cs: set<Cube>)
    requires forall c :: c in s ==> c !in cs
    ensures CountIn(ns, s) <= CountOut(ns, cs)
    decreases |ns|
  {
    if |ns| > 0 {
      CountDisjoint(ns[..|ns| - 1], s, cs);
    }
  }

  /** When none of `ns` is in `s`, all of them count as outside. */
  lemma {:induction false} CountOutAll(ns: seq<Cube>, s: set<Cube>)
    requires forall i :: 0 <= i < |ns| ==> ns[i] !in s
    ensures CountOut(ns, s) == |ns|
    decreases |ns|
  {
    if |ns| > 0 {
      CountOutAll(ns[..|ns| - 1], s);
    }
  }

  function SetOf(cubes: seq<Cube>): (s: set<Cube>)
    ensures forall c :: c in s <==> c in cubes
  {
    set c | c in cubes
  }

  /** For every cube, how many of its faces touch a cell of `s`. */
  function FacesTouching(cubes: seq<Cube>, s: set<Cube>): nat {
    if |cubes| == 0 then 0 else FacesTouching(cubes[..|cubes| - 1], s) + CountIn(Neighbors(Last(cubes)), s)
  }

  /** For every cube, how many of its faces do not touch a cell of `s`. */
  function FacesNotTouching(cubes: seq<Cube>, s: set<Cube>): nat {
    if |cubes| == 0 then 0 else FacesNotTouching(cubes[..|cubes| - 1], s) + CountOut(Neighbors(Last(cubes)), s)
  }

  /** `part1`: the faces not covered by another cube. */
  function Part1(cubes: seq<Cube>): nat {
    FacesNotTouching(cubes, SetOf(cubes))
  }

  /** Every face is either exposed or shared: the exposed count is six per cube minus the
      faces that touch another cube. */
  lemma {:induction false} Part1Faces(cubes: seq<Cube>)
    ensures Part1(cubes) + FacesTouching(cubes, SetOf(cubes)) == 6 * |cubes|
  {
    FacesSplit(cubes, SetOf(cubes));
  }

  lemma {:induction false} FacesSplit(cubes: seq<Cube>, s: set<Cube>)
    ensures FacesNotTouching(cubes, s) + FacesTouching(cubes, s) == 6 * |cubes|
    decreases |cubes|
  {
    if |cubes| > 0 {
      FacesSplit(cubes[..|cubes| - 1], s);
      CountSplit(Neighbors(Last(cubes)), s);
    }
  }

  /** A lone cube shows all six faces. */
  lemma LoneCube(c: Cube)
    ensures Part1([c]) == 6
  {
    var ns := Neighbors(c);
    var s := SetOf([c]);
    forall i | 0 <= i < 6
      ensures ns[i] !in s
    {
      assert FaceAdjacent(c, ns[i]);
    }
    CountOutAll(ns, s);
    assert [c][..0] == [] && Last([c]) == c;
    assert FacesNotTouching([c], s) == FacesNotTouching([], s) + CountOut(ns, s);
  }

  /** Faces counted against a set disjoint from the droplet are among its exposed faces. */
  lemma {:induction false} FacesDisjoint(cubes: seq<Cube>, s: set<Cube>, cs: set<Cube>)
    requires forall c :: c in s ==> c !in cs
    ensures FacesTouching(cubes, s) <= FacesNotTouching(cubes, cs)
    decreases |cubes|
  {
    if |cubes| > 0 {
      FacesDisjoint(cubes[..|cubes| - 1], s, cs);
      CountDisjoint(Neighbors(Last(cubes)), s, cs);
    }
  }

  /** The search box: from `lo` to `hi` on every axis, inclusive. */
  datatype Box = Box(lo: Cube, hi: Cube)

  predicate InBox(b: Box, c: Cube) {
    b.lo.x <= c.x <= b.hi.x && b.lo.y <= c.y <= b.hi.y && b.lo.z <= c.z <= b.hi.z
  }

  function BoxCells(b: Box): (r: set<Cube>)
    ensures forall c :: c in r <==> InBox(b, c)
  {
    var r := set x <- Range(b.lo.x, b.hi.x), y <- Range(b.lo.y, b.hi.y), z <- Range(b.lo.z, b.hi.z) :: Cube(x, y, z);
    assert forall c :: InBox(b, c) ==> c in r by {
      forall c | InBox(b, c)
        ensures c in r
      {
        assert c.x in Range(b.lo.x, b.hi.x) && c.y in Range(b.lo.y, b.hi.y) && c.z in Range(b.lo.z, b.hi.z);
      }
    }
    r
  }

  function Xs(cubes: seq<Cube>): (r: seq<int>)
    ensures |r| == |cubes| && forall i :: 0 <= i < |cubes| ==> r[i] == cubes[i].x
  {
    seq(|cubes|, i requires 0 <= i < |cubes| => cubes[i].x)
  }

  function Ys(cubes: seq<Cube>): (r: seq<int>)
    ensures |r| == |cubes| && forall i :: 0 <= i < |cubes| ==> r[i] == cubes[i].y
  {
    seq(|cubes|, i requires 0 <= i < |cubes| => cubes[i].y)
  }

  function Zs(cubes: seq<Cube>): (r: seq<int>)
    ensures |r| == |cubes| && forall i :: 0 <= i < |cubes| ==> r[i] == cubes[i].z
  {
    seq(|cubes|, i requires 0 <= i < |cubes| => cubes[i].z)
  }

  /** The bounding box of the droplet grown by one on every side. */
  function BoundingBox(cubes: seq<Cube>): (b: Box)
    requires 0 < |cubes|
    ensures forall i :: 0 <= i < |cubes| ==>
      b.lo.x < cubes[i].x < b.hi.x && b.lo.y < cubes[i].y < b.hi.y && b.lo.z < cubes[i].z < b.hi.z
    ensures InBox(b, b.lo)
  {
    Box(Cube(MinOf(Xs(cubes)) - 1, MinOf(Ys(cubes)) - 1, MinOf(Zs(cubes)) - 1),
        Cube(MaxOf(Xs(cubes)) + 1, MaxOf(Ys(cubes)) + 1, MaxOf(Zs(cubes)) + 1))
  }

  /** A cell the flood may enter: inside the box and not part of the droplet. */
  predicate Air(cs: set<Cube>, b: Box, c: Cube) {
    InBox(b, c) && c !in cs
  }

  /** A walk of face-adjacent air cells. */
  ghost predicate IsWalk(cs: set<Cube>, b: Box, p: seq<Cube>) {
    && 0 < |p|
    && (forall i :: 0 <= i < |p| ==> Air(cs, b, p[i]))
    && (forall i :: 0 <= i < |p| - 1 ==> FaceAdjacent(p[i], p[i + 1]))
  }

  /** `c` can be reached from `start` through air. */
  ghost predicate Reaches(cs: set<Cube>, b: Box, start: Cube, c: Cube) {
    exists p :: IsWalk(cs, b, p) && p[0] == start && Last(p) == c
  }

  lemma ReachesStep(cs: set<Cube>, b: Box, start: Cube, c: Cube, n: Cube)
    requires Reaches(cs, b, start, c) && FaceAdjacent(c, n) && Air(cs, b, n)
    ensures Reaches(cs, b, start, n)
  {
    var p :| IsWalk(cs, b, p) && p[0] == start && Last(p) == c;
    var q := p + [n];
    assert q[|q| - 2] == c;
    assert IsWalk(cs, b, q);
  }

  /** The neighbours of `c` the flood queues: inside the box and not cubes, in order. */
  function AirNeighbors(cs: set<Cube>, b: Box, ns: seq<Cube>): (r: seq<Cube>)
    ensures forall n :: n in r <==> n in ns && Air(cs, b, n)
  {
    if |ns| == 0 then [] else AirNeighbors(cs, b, ns[..|ns| - 1]) + (if Air(cs, b, Last(ns)) then [Last(ns)] else [])
  }

  /** No air cell next to the visited region is left out of it or the queue. */
  ghost predicate ClosedUpTo(cs: set<Cube>, b: Box, visited: set<Cube>, q: seq<Cube>) {
    forall c, n :: c in visited && n in Neighbors(c) && Air(cs, b, n) ==> n in visited || n in q
  }

  ghost predicate FloodInvariant(cs: set<Cube>, b: Box, start: Cube, visited: set<Cube>, q: seq<Cube>) {
    && (forall i :: 0 <= i < |q| ==> Air(cs, b, q[i]) && Reaches(cs, b, start, q[i]))
    && (forall c :: c in visited ==> Air(cs, b, c) && Reaches(cs, b, start, c))
    && (start in visited || start in q)
    && ClosedUpTo(cs, b, visited, q)
  }

  /** Taking a visited cell off the queue keeps the invariant. */
  lemma FloodSkip(cs: set<Cube>, b: Box, start: Cube, visited: set<Cube>, q: seq<Cube>)
    requires 0 < |q| && q[0] in visited && FloodInvariant(cs, b, start, visited, q)
    ensures FloodInvariant(cs, b, start, visited, q[1..])
  {
    SkipQueue(cs, b, start, q);
    SkipClosed(cs, b, visited, q);
  }

  /** Dropping the head keeps every queued cell reachable air. */
  lemma SkipQueue(cs: set<Cube>, b: Box, start: Cube, q: seq<Cube>)
    requires 0 < |q|
    requires forall i :: 0 <= i < |q| ==> Air(cs, b, q[i]) && Reaches(cs, b, start, q[i])
    ensures forall i :: 0 <= i < |q| - 1 ==> Air(cs, b, q[1..][i]) && Reaches(cs, b, start, q[1..][i])
  {
    assert forall i :: 0 <= i < |q| - 1 ==> q[1..][i] == q[i + 1];
  }

  /** Dropping an already visited head keeps the visited set closed up to the queue. */
  lemma SkipClosed(cs: set<Cube>, b: Box, visited: set<Cube>, q: seq<Cube>)
    requires 0 < |q| && q[0] in visited && ClosedUpTo(cs, b, visited, q)
    ensures ClosedUpTo(cs, b, visited, q[1..])
  {
    var rest := q[1..];
    forall c, n | c in visited && n in Neighbors(c) && Air(cs, b, n)
      ensures n in visited || n in rest
    {
      if n !in visited {
        var i :| 0 <= i < |q| && q[i] == n;
        assert i != 0;
        assert rest[i - 1] == n;
      }
    }
  }

  /** Expanding a new cell: it joins the visited set and its air neighbours join the queue. */
  lemma FloodExpand(cs: set<Cube>, b: Box, start: Cube, visited: set<Cube>, q: seq<Cube>)
    requires 0 < |q| && q[0] !in visited && FloodInvariant(cs, b, start, visited, q)
    ensures FloodInvariant(cs, b, start, visited + {q[0]}, q[1..] + AirNeighbors(cs, b, Neighbors(q[0])))
  {
    ExpandQueue(cs, b, start, q);
    ExpandClosed(cs, b, visited, q);
  }

  /** After expansion every queued cell is still reachable air. */
  lemma ExpandQueue(cs: set<Cube>, b: Box, start: Cube, q: seq<Cube>)
    requires 0 < |q|
    requires forall i :: 0 <= i < |q| ==> Air(cs, b, q[i]) && Reaches(cs, b, start, q[i])
    ensures var q' := q[1..] + AirNeighbors(cs, b, Neighbors(q[0]));
      forall i :: 0 <= i < |q'| ==> Air(cs, b, q'[i]) && Reaches(cs, b, start, q'[i])
  {
    var c := q[0];
    var next := AirNeighbors(cs, b, Neighbors(c));
    var q' := q[1..] + next;
    forall i | 0 <= i < |q'|
      ensures Air(cs, b, q'[i]) && Reaches(cs, b, start, q'[i])
    {
      if i < |q| - 1 {
        assert q'[i] == q[i + 1];
      } else {
        assert q'[i] in next;
        ReachesStep(cs, b, start, c, q'[i]);
      }
    }
  }

  /** After expansion the visited set is still closed up to the queue. */
  lemma ExpandClosed(cs: set<Cube>, b: Box, visited: set<Cube>, q: seq<Cube>)
    requires 0 < |q| && ClosedUpTo(cs, b, visited, q)
    ensures ClosedUpTo(cs, b, visited + {q[0]}, q[1..] + AirNeighbors(cs, b, Neighbors(q[0])))
  {
    var c := q[0];
    var next := AirNeighbors(cs, b, Neighbors(c));
    var q' := q[1..] + next;
    var v' := visited + {c};
    forall d, n | d in v' && n in Neighbors(d) && Air(cs, b, n)
      ensures n in v' || n in q'
    {
      if d == c {
        assert n in next;
      } else if n !in visited && n != c {
        var i :| 0 <= i < |q| && q[i] == n;
        assert q'[i - 1] == n;
      }
    }
  }

  /** `part2`'s flood fill: a FIFO queue from `start`, a cell is expanded the first time it
      is taken off the queue, and only air cells inside the box are queued. The result is
      exactly the air reachable from `start`: it contains `start`, holds only reachable air,
      and is closed under stepping to adjacent air. */
  method FloodFill(cs: set<Cube>, b: Box, start: Cube) returns (outside: set<Cube>)
    requires Air(cs, b, start)
    ensures start in outside
    ensures forall c :: c in outside ==> Air(cs, b, c) && Reaches(cs, b, start, c)
    ensures forall c, n :: c in outside && FaceAdjacent(c, n) && Air(cs, b, n) ==> n in outside
  {
    outside := {};
    var q := [start];
    assert IsWalk(cs, b, [start]);
    while |q| > 0
      invariant FloodInvariant(cs, b, start, outside, q)
      decreases BoxCells(b) - outside, |q|
    {
      var c := q[0];
      if c in outside {
        FloodSkip(cs, b, start, outside, q);
        q := q[1..];
      } else {
        FloodExpand(cs, b, start, outside, q);
        assert c in BoxCells(b);
        outside := outside + {c};
        q := q[1..] + AirNeighbors(cs, b, Neighbors(c));
      }
    }
    FloodDone(cs, b, outside);
  }

  /** With the queue empty, a visited set closed up to it is closed under adjacent air. */
  lemma FloodDone(cs: set<Cube>, b: Box, visited: set<Cube>)
    requires ClosedUpTo(cs, b, visited, [])
    ensures forall c, n :: c in visited && FaceAdjacent(c, n) && Air(cs, b, n) ==> n in visited
  {
    forall c, n | c in visited && FaceAdjacent(c, n) && Air(cs, b, n)
      ensures n in visited
    {
      assert n in Neighbors(c);
    }
  }

  /** `part2`: the faces touching outside air. `None` for an empty droplet (the bounding
      box's `min().unwrap()`). */
  method Part2(cubes: seq<Cube>) returns (r: Option<nat>, outside: set<Cube>)
    ensures r.Some? <==> 0 < |cubes|
    ensures r.Some? ==> r.value == FacesTouching(cubes, outside)
    ensures r.Some? ==> forall c :: c in outside ==> c !in cubes
    ensures r.Some? ==> var b := BoundingBox(cubes);
      && b.lo in outside
      && (forall c :: c in outside ==> InBox(b, c) && Reaches(SetOf(cubes), b, b.lo, c))
      && (forall c, n :: c in outside && FaceAdjacent(c, n) && Air(SetOf(cubes), b, n) ==> n in outside)
    ensures r.Some? ==> r.value <= Part1(cubes)
  {
    if |cubes| == 0 {
      return None, {};
    }
    var b := BoundingBox(cubes);
    var cs := SetOf(cubes);
    assert b.lo !in cs;
    outside := FloodFill(cs, b, b.lo);
    FacesDisjoint(cubes, outside, cs);
    r := Some(FacesTouching(cubes, outside));
  }
}
