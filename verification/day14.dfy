/** Regolith Reservoir (day 14): rock paths made of horizontal and vertical segments, and
    grains of sand falling from (500, 0) until they rest or fall past the lowest rock. */
module Day14 {
  import opened Util
  import opened Text

  /** A position; `y` grows downwards. */
  datatype Pos = Pos(x: nat, y: nat)

  /** `Obstacle`: a horizontal rock segment, a vertical rock segment or a resting grain. */
  datatype Obstacle =
    | LineX(y: nat, xStart: nat, xEnd: nat)
    | LineY(x: nat, yStart: nat, yEnd: nat)
    | Sand(p: Pos)

  /** `Obstacle::contains`: inclusive range membership along the segment's axis, or
      equality for a grain. */
  predicate Contains(o: Obstacle, p: Pos) {
    match o
    case LineX(y, xStart, xEnd) => y == p.y && xStart <= p.x <= xEnd
    case LineY(x, yStart, yEnd) => x == p.x && yStart <= p.y <= yEnd
    case Sand(q) => q == p
  }

  /** `Obstacle::max_y`: the lowest row the obstacle covers. */
  function MaxY(o: Obstacle): (m: nat)
    ensures forall p :: Contains(o, p) ==> p.y <= m
  {
    match o
    case LineX(y, _, _) => y
    case LineY(_, _, yEnd) => yEnd
    case Sand(q) => q.y
  }

  /** A rock segment as written lies between its start and end (`start <= end`). */
  predicate WellFormed(o: Obstacle) {
    match o
    case LineX(_, xStart, xEnd) => xStart <= xEnd
    case LineY(_, yStart, yEnd) => yStart <= yEnd
    case Sand(_) => true
  }

  /** A well-formed obstacle covers a position in its lowest row. */
  lemma MaxYReached(o: Obstacle)
    requires WellFormed(o)
    ensures exists p :: Contains(o, p) && p.y == MaxY(o)
  {
    match o
    case LineX(y, xStart, _) => assert Contains(o, Pos(xStart, y));
    case LineY(x, _, yEnd) => assert Contains(o, Pos(x, yEnd));
    case Sand(q) => assert Contains(o, q);
  }

  /** `FromStr for Pos`: `x,y` with two `u32`s; anything else is an error. */
  function ParsePos(s: string): (r: Option<Pos>)
    ensures r.Some? ==> ',' in s
    ensures r.Some? ==> r.value.x < U32_LIMIT && r.value.y < U32_LIMIT
  {
    match SplitOnce(s, ',')
    case None => None
    case Some((a, b)) =>
      match ParseUnsigned(a, U32_LIMIT)
      case None => None
      case Some(x) =>
        match ParseUnsigned(b, U32_LIMIT)
        case None => None
        case Some(y) => Some(Pos(x, y))
  }

  /** `x,y` in decimal. */
  function RenderPos(p: Pos): string {
    NatToString(p.x) + "," + NatToString(p.y)
  }

  /** Parsing the rendering of a position that fits in `u32` gives it back. */
  lemma ParseRenderPos(p: Pos)
    requires p.x < U32_LIMIT && p.y < U32_LIMIT
    ensures ParsePos(RenderPos(p)) == Some(p)
  {
    var a := NatToString(p.x);
    assert forall k :: 0 <= k < |a| ==> a[k] != ',';
    SplitOnceAt(a, ',', NatToString(p.y));
    ParseUnsignedRoundTrip(p.x, U32_LIMIT);
    ParseUnsignedRoundTrip(p.y, U32_LIMIT);
  }

  /** The positions on the closed axis-aligned segment from `a` to `b`. */
  predicate OnSegment(a: Pos, b: Pos, p: Pos) {
    Min(a.x, b.x) <= p.x <= Max(a.x, b.x) && Min(a.y, b.y) <= p.y <= Max(a.y, b.y)
  }

  /** One window of a path: a horizontal pair becomes `LineX`, a vertical one `LineY`, both
      running from the smaller to the larger coordinate; a diagonal pair panics. */
  function Segment(a: Pos, b: Pos): (r: Option<Obstacle>)
    ensures r.Some? <==> a.y == b.y || a.x == b.x
    ensures r.Some? ==> WellFormed(r.value) && !r.value.Sand?
    ensures r.Some? ==> forall p :: Contains(r.value, p) <==> OnSegment(a, b, p)
  {
    if a.y == b.y then Some(LineX(a.y, Min(a.x, b.x), Max(a.x, b.x)))
    else if a.x == b.x then Some(LineY(a.x, Min(a.y, b.y), Max(a.y, b.y)))
    else None
  }

  /** The segment covers both of its end points. */
  lemma SegmentEnds(a: Pos, b: Pos)
    requires a.y == b.y || a.x == b.x
    ensures Contains(Segment(a, b).value, a) && Contains(Segment(a, b).value, b)
  {
  }

  /** The segments of one path, one per window of two consecutive points. */
  function PathSegments(path: seq<Pos>): (r: Option<seq<Obstacle>>)
    ensures r.Some? <==> forall k :: 0 <= k < |path| - 1 ==> path[k].y == path[k + 1].y || path[k].x == path[k + 1].x
    ensures r.Some? ==> |r.value| == Max(|path| - 1, 0)
    ensures r.Some? ==> forall k :: 0 <= k < |r.value| ==> Segment(path[k], path[k + 1]) == Some(r.value[k])
    decreases |path|
  {
    if |path| < 2 then Some([])
    else match Segment(path[0], path[1])
      case None => None
      case Some(o) =>
        match PathSegments(path[1..])
        case None => None
        case Some(rest) => Some([o] + rest)
  }

  /** The segment-building loop of `input_generator`, over every path in turn. */
  function BuildObstacles(paths: seq<seq<Pos>>): (r: Option<seq<Obstacle>>)
    ensures r.Some? <==> forall j :: 0 <= j < |paths| ==> PathSegments(paths[j]).Some?
    ensures r.Some? ==> forall k :: 0 <= k < |r.value| ==> WellFormed(r.value[k]) && !r.value[k].Sand?
    decreases |paths|
  {
    if |paths| == 0 then Some([])
    else match PathSegments(paths[0])
      case None => None
      case Some(first) =>
        match BuildObstacles(paths[1..])
        case None => None
        case Some(rest) =>
          forall k | 0 <= k < |first|
            ensures WellFormed(first[k]) && !first[k].Sand?
          {
            assert Segment(paths[0][k], paths[0][k + 1]) == Some(first[k]);
          }
          Some(first + rest)
  }

  /** Rock positions: every position on some segment of some path. */
  lemma {:induction false} BuildObstaclesCover(paths: seq<seq<Pos>>, p: Pos)
    requires BuildObstacles(paths).Some?
    ensures Blocked(BuildObstacles(paths).value, p) <==>
              exists j, k :: 0 <= j < |paths| && 0 <= k < |paths[j]| - 1 && OnSegment(paths[j][k], paths[j][k + 1], p)
    decreases |paths|
  {
    if 0 < |paths| {
      var first := PathSegments(paths[0]).value;
      var rest := BuildObstacles(paths[1..]).value;
      BuildObstaclesCover(paths[1..], p);
      BlockedAppend(first, rest, p);
      PathSegmentsCover(paths[0], p);
      OnPathsCons(paths, p);
    }
  }

  /** `p` lies on a segment between two consecutive points of `path`. */
  predicate OnPath(path: seq<Pos>, p: Pos) {
    exists k :: 0 <= k < |path| - 1 && OnSegment(path[k], path[k + 1], p)
  }

  /** The segments of one path cover exactly the positions on the path. */
  lemma PathSegmentsCover(path: seq<Pos>, p: Pos)
    requires PathSegments(path).Some?
    ensures Blocked(PathSegments(path).value, p) <==> OnPath(path, p)
  {
    var segs := PathSegments(path).value;
    if Blocked(segs, p) {
      var i :| 0 <= i < |segs| && Contains(segs[i], p);
      assert OnSegment(path[i], path[i + 1], p);
    }
    if OnPath(path, p) {
      var k :| 0 <= k < |path| - 1 && OnSegment(path[k], path[k + 1], p);
      assert Contains(segs[k], p);
    }
  }

  /** A position lies on some path exactly when it lies on the first or on one of the rest. */
  lemma OnPathsCons(paths: seq<seq<Pos>>, p: Pos)
    requires 0 < |paths|
    ensures (exists j, k :: 0 <= j < |paths| && 0 <= k < |paths[j]| - 1 && OnSegment(paths[j][k], paths[j][k + 1], p)) <==>
              OnPath(paths[0], p) ||
              exists j, k :: 0 <= j < |paths[1..]| && 0 <= k < |paths[1..][j]| - 1 && OnSegment(paths[1..][j][k], paths[1..][j][k + 1], p)
  {
    if exists j, k :: 0 <= j < |paths| && 0 <= k < |paths[j]| - 1 && OnSegment(paths[j][k], paths[j][k + 1], p) {
      var j, k :| 0 <= j < |paths| && 0 <= k < |paths[j]| - 1 && OnSegment(paths[j][k], paths[j][k + 1], p);
      if 0 < j {
        assert paths[1..][j - 1] == paths[j];
      }
    }
    if exists j, k :: 0 <= j < |paths| - 1 && 0 <= k < |paths[1..][j]| - 1 && OnSegment(paths[1..][j][k], paths[1..][j][k + 1], p) {
      var j, k :| 0 <= j < |paths| - 1 && 0 <= k < |paths[1..][j]| - 1 && OnSegment(paths[1..][j][k], paths[1..][j][k + 1], p);
      assert paths[1..][j] == paths[j + 1];
    }
  }

  /** `obstacles.iter().any(|o| o.contains(p))`. */
  predicate Blocked(obs: seq<Obstacle>, p: Pos) {
    exists i :: 0 <= i < |obs| && Contains(obs[i], p)
  }

  lemma BlockedAppend(a: seq<Obstacle>, b: seq<Obstacle>, p: Pos)
    ensures Blocked(a + b, p) <==> Blocked(a, p) || Blocked(b, p)
  {
    if Blocked(a + b, p) {
      var i :| 0 <= i < |a + b| && Contains((a + b)[i], p);
      if i >= |a| {
        assert b[i - |a|] == (a + b)[i];
      }
    }
    if Blocked(b, p) {
      var i :| 0 <= i < |b| && Contains(b[i], p);
      assert (a + b)[|a| + i] == b[i];
    }
    if Blocked(a, p) {
      var i :| 0 <= i < |a| && Contains(a[i], p);
      assert (a + b)[i] == a[i];
    }
  }

  /** A resting grain blocks exactly one more position. */
  lemma BlockedAddSand(obs: seq<Obstacle>, s: Pos, p: Pos)
    ensures Blocked(obs + [Sand(s)], p) <==> Blocked(obs, p) || p == s
  {
    BlockedAppend(obs, [Sand(s)], p);
    if p == s {
      assert Contains([Sand(s)][0], p);
    }
  }

  /** The lowest row any obstacle covers; `None` for no obstacles (`max().unwrap()`). */
  function LowestRow(obs: seq<Obstacle>): (r: Option<nat>)
    ensures r.Some? <==> 0 < |obs|
    ensures r.Some? ==> forall p :: Blocked(obs, p) ==> p.y <= r.value
    ensures r.Some? ==> exists i :: 0 <= i < |obs| && MaxY(obs[i]) == r.value
  {
    if |obs| == 0 then None
    else match LowestRow(obs[..|obs| - 1])
      case None => Some(MaxY(obs[0]))
      case Some(m) =>
        var last := MaxY(obs[|obs| - 1]);
        forall p | Blocked(obs, p)
          ensures p.y <= Max(m, last)
        {
          var i :| 0 <= i < |obs| && Contains(obs[i], p);
          if i < |obs| - 1 {
            assert obs[..|obs| - 1][i] == obs[i];
          }
        }
        if m < last then Some(last)
        else
          var i :| 0 <= i < |obs| - 1 && MaxY(obs[..|obs| - 1][i]) == m;
          assert obs[i] == obs[..|obs| - 1][i];
          Some(m)
  }

  const SPAWN: Pos := Pos(500, 0)

  /** The three places a grain at `s` tries, in order: down, down-left, down-right. */
  function Candidates(s: Pos): (c: seq<Pos>)
    requires 0 < s.x
    ensures |c| == 3 && forall k :: 0 <= k < 3 ==> c[k].y == s.y + 1
  {
    [Pos(s.x, s.y + 1), Pos(s.x - 1, s.y + 1), Pos(s.x + 1, s.y + 1)]
  }

  /** The columns a grain can reach from the spawn: at most one sideways per row. */
  predicate InCone(p: Pos) {
    Abs(p.x - 500) <= p.y
  }

  /** Positions of the cone down to row `h`. */
  function Cone(h: nat): (r: set<Pos>)
    ensures forall p :: p in r <==> p.y <= h && InCone(p)
  {
    var r := set x <- Range(500 - h, 500 + h), y <- Range(0, h) | 0 <= x && 0 <= y && Abs(x - 500) <= y :: Pos(x, y);
    forall p: Pos | p.y <= h && InCone(p)
      ensures p in r
    {
      assert p.x in Range(500 - h, 500 + h) && p.y in Range(0, h);
    }
    r
  }

  /** `p` is a cone position down to row `h` that no obstacle covers. */
  predicate Vacant(obs: seq<Obstacle>, h: nat, p: Pos) {
    p.y <= h && InCone(p) && !Blocked(obs, p)
  }

  /** The cone positions no obstacle covers: the room left for sand. */
  function Free(obs: seq<Obstacle>, h: nat): set<Pos> {
    set p | p in Cone(h) && !Blocked(obs, p)
  }

  /** `Free` holds exactly the vacant positions. */
  lemma FreeMembers(obs: seq<Obstacle>, h: nat)
    ensures forall p :: p in Free(obs, h) <==> Vacant(obs, h, p)
  {
  }

  /** A grain resting at a free cone position uses up exactly that position. */
  lemma FreeShrinks(obs: seq<Obstacle>, h: nat, s: Pos)
    requires Vacant(obs, h, s)
    ensures Free(obs + [Sand(s)], h) == Free(obs, h) - {s}
    ensures |Free(obs + [Sand(s)], h)| < |Free(obs, h)|
  {
    FreeMembers(obs, h);
    FreeMembers(obs + [Sand(s)], h);
    forall p
      ensures p in Free(obs + [Sand(s)], h) <==> p in Free(obs, h) - {s}
    {
      BlockedAddSand(obs, s, p);
    }
  }

  /** Each grain at rest leaves fewer free cone positions, so the pouring loops end. */
  lemma FreeDecreases(obs: seq<Obstacle>, h: nat, s: Pos)
    requires Vacant(obs, h, s)
    ensures |Free(obs + [Sand(s)], h)| < |Free(obs, h)|
  {
    FreeShrinks(obs, h, s);
  }

  /** Every candidate of a grain is blocked: it comes to rest. */
  predicate Settled(obs: seq<Obstacle>, s: Pos)
    requires 0 < s.x
  {
    forall k :: 0 <= k < 3 ==> Blocked(obs, Candidates(s)[k])
  }

  /** Where a grain ends up in the first part. */
  datatype Fate = Rest(at: Pos) | Abyss | Panic

  /** The first part's inner loop from a free position `s`: take the first free candidate;
      a grain already below the lowest rock that still finds a free candidate falls for
      ever; a grain with no free candidate rests. `sand.x - 1` panics at column 0. */
  function Fall1(obs: seq<Obstacle>, lowest: nat, s: Pos): (r: Fate)
    requires s.y <= lowest + 1 && InCone(s) && !Blocked(obs, s)
    ensures r.Rest? ==> Vacant(obs, lowest + 1, r.at) && 0 < r.at.x && Settled(obs, r.at)
    decreases lowest + 1 - s.y
  {
    if s.x == 0 then Panic
    else
      var c := Candidates(s);
      if !Blocked(obs, c[0]) then (if s.y > lowest then Abyss else Fall1(obs, lowest, c[0]))
      else if !Blocked(obs, c[1]) then (if s.y > lowest then Abyss else Fall1(obs, lowest, c[1]))
      else if !Blocked(obs, c[2]) then (if s.y > lowest then Abyss else Fall1(obs, lowest, c[2]))
      else Rest(s)
  }

  /** A grain only falls into the abyss from below the lowest rock, where it is never
      blocked by rock. */
  lemma {:induction false} Fall1Abyss(obs: seq<Obstacle>, lowest: nat, s: Pos)
    requires s.y <= lowest + 1 && InCone(s) && !Blocked(obs, s)
    requires Fall1(obs, lowest, s).Abyss?
    ensures exists q: Pos :: q.y == lowest + 1 && !Blocked(obs, q) && 0 < q.x &&
                        exists k :: 0 <= k < 3 && !Blocked(obs, Candidates(q)[k])
    decreases lowest + 1 - s.y
  {
    var c := Candidates(s);
    if s.y > lowest {
      assert exists k :: 0 <= k < 3 && !Blocked(obs, Candidates(s)[k]);
    } else if !Blocked(obs, c[0]) {
      Fall1Abyss(obs, lowest, c[0]);
    } else if !Blocked(obs, c[1]) {
      Fall1Abyss(obs, lowest, c[1]);
    } else {
      Fall1Abyss(obs, lowest, c[2]);
    }
  }

  /** How a simulation ends: the grains that came to rest and the obstacles then. */
  datatype Outcome = Outcome(count: nat, obstacles: seq<Obstacle>)

  /** `out` holds the obstacles `obs` followed by exactly `out.count` grains. */
  predicate AddsSand(obs: seq<Obstacle>, out: Outcome) {
    |out.obstacles| == |obs| + out.count && out.obstacles[..|obs|] == obs &&
    forall k :: |obs| <= k < |out.obstacles| ==> out.obstacles[k].Sand?
  }

  /** One grain more at the front of the run is one more grain in the count. */
  lemma AddsSandStep(obs: seq<Obstacle>, s: Pos, out: Outcome)
    requires AddsSand(obs + [Sand(s)], out)
    ensures AddsSand(obs, Outcome(out.count + 1, out.obstacles))
  {
    assert out.obstacles[..|obs|] == out.obstacles[..|obs| + 1][..|obs|];
  }

  /** A run that placed grains ended with a grain on the spawn. */
  predicate EndsOnSpawn(out: Outcome) {
    out.count > 0 ==> 0 < |out.obstacles| && out.obstacles[|out.obstacles| - 1] == Sand(SPAWN)
  }

  /** When the spawn was still free, the run's last grain came to rest on it. */
  lemma LastGrain(obs: seq<Obstacle>, s: Pos, out: Outcome)
    requires AddsSand(obs + [Sand(s)], out) && !Blocked(obs, SPAWN)
    requires Blocked(out.obstacles, SPAWN)
    requires EndsOnSpawn(out)
    ensures out.obstacles[|out.obstacles| - 1] == Sand(SPAWN)
  {
    if out.count == 0 {
      assert out.obstacles == obs + [Sand(s)];
      BlockedAddSand(obs, s, SPAWN);
    }
  }

  /** A run that ends with the spawn covered, after one grain more at its front, still ends
      with the spawn covered by its last grain. */
  lemma CoveringGrain(obs: seq<Obstacle>, s: Pos, out: Outcome)
    requires AddsSand(obs + [Sand(s)], out) && !Blocked(obs, SPAWN)
    requires Blocked(out.obstacles, SPAWN)
    requires EndsOnSpawn(out)
    ensures AddsSand(obs, Outcome(out.count + 1, out.obstacles))
    ensures EndsOnSpawn(Outcome(out.count + 1, out.obstacles))
  {
    AddsSandStep(obs, s, out);
    LastGrain(obs, s, out);
  }

  /** Every grain `out` adds to `obs` lies where the first part's fall from the free spawn
      left it, given the grains before it, and a grain dropped after the last one falls into
      the abyss. */
  predicate Replays1(obs: seq<Obstacle>, lowest: nat, out: Outcome) {
    AddsSand(obs, out) &&
    (forall k :: |obs| <= k < |out.obstacles| ==>
       !Blocked(out.obstacles[..k], SPAWN) && Fall1(out.obstacles[..k], lowest, SPAWN).Rest? &&
       out.obstacles[k] == Sand(Fall1(out.obstacles[..k], lowest, SPAWN).at)) &&
    !Blocked(out.obstacles, SPAWN) && Fall1(out.obstacles, lowest, SPAWN).Abyss?
  }

  /** A replay after one grain is a replay from before it, with one grain more. */
  lemma Replays1Step(obs: seq<Obstacle>, lowest: nat, s: Pos, out: Outcome)
    requires !Blocked(obs, SPAWN) && Fall1(obs, lowest, SPAWN) == Rest(s)
    requires Replays1(obs + [Sand(s)], lowest, out)
    ensures Replays1(obs, lowest, Outcome(out.count + 1, out.obstacles))
  {
    AddsSandStep(obs, s, out);
    assert out.obstacles[..|obs| + 1] == obs + [Sand(s)];
    assert out.obstacles[..|obs|] == obs;
  }

  /** A replay adds grains exactly when the first grain comes to rest. */
  lemma Replays1Starts(obs: seq<Obstacle>, lowest: nat, out: Outcome)
    requires Replays1(obs, lowest, out)
    ensures !Blocked(obs, SPAWN)
    ensures out.count > 0 <==> Fall1(obs, lowest, SPAWN).Rest?
    ensures out.count > 0 ==> out.obstacles[|obs|] == Sand(Fall1(obs, lowest, SPAWN).at)
  {
    if out.count > 0 {
      assert out.obstacles[..|obs|] == obs;
    } else {
      assert out.obstacles == out.obstacles[..|obs|];
    }
  }

  /** The first part's pouring is deterministic: two replays from the same obstacles agree. */
  lemma {:induction false} Replays1Unique(obs: seq<Obstacle>, lowest: nat, a: Outcome, b: Outcome)
    requires Replays1(obs, lowest, a) && Replays1(obs, lowest, b)
    ensures a == b
    decreases a.count
  {
    Replays1Starts(obs, lowest, a);
    Replays1Starts(obs, lowest, b);
    if a.count == 0 {
      assert a.obstacles == a.obstacles[..|obs|] == obs;
      assert b.obstacles == b.obstacles[..|obs|] == obs;
    } else {
      var g := a.obstacles[|obs|];
      var a', b' := Outcome(a.count - 1, a.obstacles), Outcome(b.count - 1, b.obstacles);
      ReplaysShift1(obs, lowest, a);
      ReplaysShift1(obs, lowest, b);
      Replays1Unique(obs + [g], lowest, a', b');
    }
  }

  /** The grains after the first one replay from the obstacles with the first grain added. */
  lemma ReplaysShift1(obs: seq<Obstacle>, lowest: nat, out: Outcome)
    requires Replays1(obs, lowest, out) && out.count > 0
    ensures Replays1(obs + [out.obstacles[|obs|]], lowest, Outcome(out.count - 1, out.obstacles))
  {
    var obs' := obs + [out.obstacles[|obs|]];
    assert out.obstacles[..|obs'|] == obs';
  }

  /** Some replay of the first part exists: pouring ends without a panic. */
  ghost predicate HasReplay1(obs: seq<Obstacle>, lowest: nat) {
    exists out :: Replays1(obs, lowest, out)
  }

  /** Whenever a replay exists, the first part's pouring finds one. */
  lemma {:induction false} Pour1Total(obs: seq<Obstacle>, lowest: nat, out: Outcome)
    requires Replays1(obs, lowest, out)
    ensures Pour1(obs, lowest).Some?
    decreases out.count
  {
    Replays1Starts(obs, lowest, out);
    if out.count > 0 {
      var s := Fall1(obs, lowest, SPAWN).at;
      ReplaysShift1(obs, lowest, out);
      Pour1Total(obs + [Sand(s)], lowest, Outcome(out.count - 1, out.obstacles));
    } else {
      assert out.obstacles == out.obstacles[..|obs|] == obs;
    }
  }

  /** The first part's outer loop: drop grains from the spawn until one falls into the
      abyss. A blocked spawn panics. */
  function Pour1(obs: seq<Obstacle>, lowest: nat): (r: Option<Outcome>)
    ensures r.Some? ==> Replays1(obs, lowest, r.value)
    decreases |Free(obs, lowest + 1)|
  {
    if Blocked(obs, SPAWN) then None
    else match Fall1(obs, lowest, SPAWN)
      case Panic => None
      case Abyss => Some(Outcome(0, obs))
      case Rest(s) =>
        FreeDecreases(obs, lowest + 1, s);
        match Pour1(obs + [Sand(s)], lowest)
        case None => None
        case Some(out) =>
          Replays1Step(obs, lowest, s, out);
          Some(Outcome(out.count + 1, out.obstacles))
  }

  /** A spawn that is free at the end was free at the start. */
  lemma SpawnFreeBefore(obs: seq<Obstacle>, out: Outcome)
    requires AddsSand(obs, out) && !Blocked(out.obstacles, SPAWN)
    ensures !Blocked(obs, SPAWN)
  {
    BlockedAppend(obs, out.obstacles[|obs|..], SPAWN);
    assert obs + out.obstacles[|obs|..] == out.obstacles;
  }

  /** `part1`: the number of grains at rest when sand first flows into the abyss. */
  function Part1(obs: seq<Obstacle>): (r: Option<nat>)
    ensures r.Some? <==> 0 < |obs| && HasReplay1(obs, LowestRow(obs).value)
    ensures r.Some? ==> 0 < |obs| && !Blocked(obs, SPAWN)
    ensures r.Some? ==> exists out :: Replays1(obs, LowestRow(obs).value, out) && out.count == r.value
    ensures r.Some? ==> forall out :: Replays1(obs, LowestRow(obs).value, out) ==> out.count == r.value
  {
    match LowestRow(obs)
    case None => None
    case Some(lowest) =>
      match Pour1(obs, lowest)
      case None =>
        forall out | Replays1(obs, lowest, out) ensures false {
          Pour1Total(obs, lowest, out);
        }
        None
      case Some(out) =>
        Replays1Count(obs, lowest, out);
        assert HasReplay1(obs, lowest);
        Some(out.count)
  }

  /** A replay starts with the spawn free, and its count is that of every replay of the same
      obstacles. */
  lemma Replays1Count(obs: seq<Obstacle>, lowest: nat, out: Outcome)
    requires Replays1(obs, lowest, out)
    ensures !Blocked(obs, SPAWN)
    ensures forall o :: Replays1(obs, lowest, o) ==> o.count == out.count
  {
    Replays1Starts(obs, lowest, out);
    forall o | Replays1(obs, lowest, o) ensures o.count == out.count {
      Replays1Unique(obs, lowest, o, out);
    }
  }

  /** The second part's inner loop: positions at or below the floor count as blocked. */
  function Fall2(obs: seq<Obstacle>, floor: nat, s: Pos): (r: Option<Pos>)
    requires s.y < floor && InCone(s) && !Blocked(obs, s)
    ensures r.Some? ==> Vacant(obs, floor - 1, r.value) && 0 < r.value.x
    ensures r.Some? ==> forall k :: 0 <= k < 3 ==> (Candidates(r.value)[k].y >= floor || Blocked(obs, Candidates(r.value)[k]))
    decreases floor - s.y
  {
    if s.x == 0 then None
    else
      var c := Candidates(s);
      if c[0].y < floor && !Blocked(obs, c[0]) then Fall2(obs, floor, c[0])
      else if c[1].y < floor && !Blocked(obs, c[1]) then Fall2(obs, floor, c[1])
      else if c[2].y < floor && !Blocked(obs, c[2]) then Fall2(obs, floor, c[2])
      else Some(s)
  }

  /** Every grain `out` adds to `obs` lies where the second part's fall from the free spawn
      left it, given the grains before it, and at the end the spawn is covered. */
  predicate Replays2(obs: seq<Obstacle>, floor: nat, out: Outcome) {
    0 < floor && AddsSand(obs, out) &&
    (forall k :: |obs| <= k < |out.obstacles| ==>
       !Blocked(out.obstacles[..k], SPAWN) && Fall2(out.obstacles[..k], floor, SPAWN).Some? &&
       out.obstacles[k] == Sand(Fall2(out.obstacles[..k], floor, SPAWN).value)) &&
    Blocked(out.obstacles, SPAWN)
  }

  /** A replay after one grain is a replay from before it, with one grain more. */
  lemma Replays2Step(obs: seq<Obstacle>, floor: nat, s: Pos, out: Outcome)
    requires 0 < floor && !Blocked(obs, SPAWN) && Fall2(obs, floor, SPAWN) == Some(s)
    requires Replays2(obs + [Sand(s)], floor, out)
    ensures Replays2(obs, floor, Outcome(out.count + 1, out.obstacles))
  {
    AddsSandStep(obs, s, out);
    assert out.obstacles[..|obs| + 1] == obs + [Sand(s)];
    assert out.obstacles[..|obs|] == obs;
  }

  /** A replay adds grains exactly when the spawn starts free. */
  lemma Replays2Starts(obs: seq<Obstacle>, floor: nat, out: Outcome)
    requires Replays2(obs, floor, out)
    ensures out.count > 0 <==> !Blocked(obs, SPAWN)
    ensures out.count > 0 ==> Fall2(obs, floor, SPAWN).Some? &&
                              out.obstacles[|obs|] == Sand(Fall2(obs, floor, SPAWN).value)
  {
    if out.count > 0 {
      assert out.obstacles[..|obs|] == obs;
    } else {
      assert out.obstacles == out.obstacles[..|obs|];
    }
  }

  /** The grains after the first one replay from the obstacles with the first grain added. */
  lemma ReplaysShift2(obs: seq<Obstacle>, floor: nat, out: Outcome)
    requires Replays2(obs, floor, out) && out.count > 0
    ensures Replays2(obs + [out.obstacles[|obs|]], floor, Outcome(out.count - 1, out.obstacles))
  {
    var obs' := obs + [out.obstacles[|obs|]];
    assert out.obstacles[..|obs'|] == obs';
  }

  /** The second part's pouring is deterministic: two replays from the same obstacles agree. */
  lemma {:induction false} Replays2Unique(obs: seq<Obstacle>, floor: nat, a: Outcome, b: Outcome)
    requires Replays2(obs, floor, a) && Replays2(obs, floor, b)
    ensures a == b
    decreases a.count
  {
    Replays2Starts(obs, floor, a);
    Replays2Starts(obs, floor, b);
    if a.count == 0 {
      assert a.obstacles == a.obstacles[..|obs|] == obs;
      assert b.obstacles == b.obstacles[..|obs|] == obs;
    } else {
      var g := a.obstacles[|obs|];
      ReplaysShift2(obs, floor, a);
      ReplaysShift2(obs, floor, b);
      Replays2Unique(obs + [g], floor, Outcome(a.count - 1, a.obstacles), Outcome(b.count - 1, b.obstacles));
    }
  }

  /** Some floor replay exists: pouring ends without a panic. */
  ghost predicate HasReplay2(obs: seq<Obstacle>, floor: nat) {
    exists out :: Replays2(obs, floor, out)
  }

  /** Whenever a floor replay exists, the second part's pouring finds one. */
  lemma {:induction false} Pour2Total(obs: seq<Obstacle>, floor: nat, out: Outcome)
    requires Replays2(obs, floor, out)
    ensures Pour2(obs, floor).Some?
    decreases out.count
  {
    Replays2Starts(obs, floor, out);
    if out.count > 0 {
      var s := Fall2(obs, floor, SPAWN).value;
      ReplaysShift2(obs, floor, out);
      Pour2Total(obs + [Sand(s)], floor, Outcome(out.count - 1, out.obstacles));
    }
  }

  /** The second part's outer loop: drop grains until the spawn itself is covered. */
  function Pour2(obs: seq<Obstacle>, floor: nat): (r: Option<Outcome>)
    requires 0 < floor
    ensures r.Some? ==> Replays2(obs, floor, r.value)
    ensures r.Some? ==> EndsOnSpawn(r.value)
    decreases |Free(obs, floor - 1)|
  {
    if Blocked(obs, SPAWN) then Some(Outcome(0, obs))
    else match Fall2(obs, floor, SPAWN)
      case None => None
      case Some(s) =>
        FreeDecreases(obs, floor - 1, s);
        match Pour2(obs + [Sand(s)], floor)
        case None => None
        case Some(out) =>
          CoveringGrain(obs, s, out);
          Replays2Step(obs, floor, s, out);
          Some(Outcome(out.count + 1, out.obstacles))
  }

  /** `part2`: with a floor two rows below the lowest rock, the number of grains at rest once
      the spawn is covered. */
  function Part2(obs: seq<Obstacle>): (r: Option<nat>)
    ensures r.Some? <==> 0 < |obs| && HasReplay2(obs, LowestRow(obs).value + 2)
    ensures r.Some? && Blocked(obs, SPAWN) ==> r.value == 0
    ensures r.Some? ==> exists out :: Replays2(obs, LowestRow(obs).value + 2, out) && out.count == r.value
    ensures r.Some? ==> forall out :: Replays2(obs, LowestRow(obs).value + 2, out) ==> out.count == r.value
  {
    match LowestRow(obs)
    case None => None
    case Some(lowest) =>
      match Pour2(obs, lowest + 2)
      case None =>
        var floor := lowest + 2;
        forall out | Replays2(obs, floor, out) ensures false {
          Pour2Total(obs, floor, out);
        }
        None
      case Some(out) =>
        Replays2Count(obs, lowest + 2, out);
        Some(out.count)
  }

  /** The count of a floor replay is that of every replay of the same obstacles, and 0
      when the spawn starts covered. */
  lemma Replays2Count(obs: seq<Obstacle>, floor: nat, out: Outcome)
    requires Replays2(obs, floor, out)
    ensures Blocked(obs, SPAWN) ==> out.count == 0
    ensures forall o :: Replays2(obs, floor, o) ==> o.count == out.count
  {
    Replays2Starts(obs, floor, out);
    forall o | Replays2(obs, floor, o) ensures o.count == out.count {
      Replays2Unique(obs, floor, o, out);
    }
  }
}
