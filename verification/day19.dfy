/** Not Enough Minerals (day 19): factory states, the robot-building successors of one
    minute, the geode bound used for pruning, and the breadth-first search of part 1. */
module Day19 {
  import opened Util
  import opened Text

  /** Every number of a blueprint is a `u8`. */
  const U8_LIMIT := 256

  /** The minutes part 1 gives each blueprint. */
  const PART1_MINUTES := 24

  datatype Blueprint = Blueprint(
    index: nat,
    oreRobotOre: nat,
    clayRobotOre: nat,
    obsidianRobotOre: nat,
    obsidianRobotClay: nat,
    geodeRobotOre: nat,
    geodeRobotObsidian: nat)

  /** The seven numbers of a blueprint in the order its line states them. */
  function Numbers(bp: Blueprint): seq<nat> {
    [bp.index, bp.oreRobotOre, bp.clayRobotOre, bp.obsidianRobotOre, bp.obsidianRobotClay,
     bp.geodeRobotOre, bp.geodeRobotObsidian]
  }

  /** Every capture read as a `u8`, or `None` when one is not. */
  function ParseNumbers(fields: seq<string>): (r: Option<seq<nat>>)
    ensures r.Some? <==> forall i :: 0 <= i < |fields| ==> ParseUnsigned(fields[i], U8_LIMIT).Some?
    ensures r.Some? ==> |r.value| == |fields|
    ensures r.Some? ==> forall i :: 0 <= i < |fields| ==> ParseUnsigned(fields[i], U8_LIMIT) == Some(r.value[i])
  {
    MapAll(f => ParseUnsigned(f, U8_LIMIT), fields)
  }

  /** One blueprint from the seven numbers its line captures. `None` stands for both
      panics of the generator: a line that does not match (modelled as a capture count
      other than seven) and a number that is not a `u8`. */
  function ParseBlueprint(fields: seq<string>): (r: Option<Blueprint>)
    ensures r.Some? <==> |fields| == 7 && ParseNumbers(fields).Some?
    ensures r.Some? ==> Numbers(r.value) == ParseNumbers(fields).value
  {
    if |fields| != 7 then None
    else match ParseNumbers(fields)
      case Some(v) => NumbersRebuild(v); Some(FromNumbers(v))
      case None => None
  }

  function FromNumbers(v: seq<nat>): Blueprint
    requires |v| == 7
  {
    Blueprint(v[0], v[1], v[2], v[3], v[4], v[5], v[6])
  }

  lemma NumbersRebuild(v: seq<nat>)
    requires |v| == 7
    ensures Numbers(FromNumbers(v)) == v
  {
    var n := Numbers(FromNumbers(v));
    assert |n| == 7;
    assert forall i :: 0 <= i < 7 ==> n[i] == v[i];
  }

  /** A blueprint whose numbers all fit in a `u8` is read back from their decimal text. */
  lemma ParseBlueprintRoundTrip(bp: Blueprint)
    requires forall i :: 0 <= i < 7 ==> Numbers(bp)[i] < U8_LIMIT
    ensures ParseBlueprint(seq(7, i requires 0 <= i < 7 => NatToString(Numbers(bp)[i]))) == Some(bp)
  {
    var fields := seq(7, i requires 0 <= i < 7 => NatToString(Numbers(bp)[i]));
    forall i | 0 <= i < 7
      ensures ParseUnsigned(fields[i], U8_LIMIT) == Some(Numbers(bp)[i])
    {
      ParseUnsignedRoundTrip(Numbers(bp)[i], U8_LIMIT);
    }
    var v := ParseNumbers(fields).value;
    assert v == Numbers(bp);
  }

  /** The generator: every line must parse, or the whole input is rejected. */
  function ParseBlueprints(lines: seq<seq<string>>): (r: Option<seq<Blueprint>>)
    ensures r.Some? <==> forall i :: 0 <= i < |lines| ==> ParseBlueprint(lines[i]).Some?
    ensures r.Some? ==> |r.value| == |lines| && forall i :: 0 <= i < |lines| ==> ParseBlueprint(lines[i]) == Some(r.value[i])
  {
    MapAll(ParseBlueprint, lines)
  }

  /** The factory after some minutes: the minutes left, the robots of each kind and the
      stock of each resource. */
  datatype State = State(
    timeLeft: nat,
    oreRobots: nat,
    clayRobots: nat,
    obsidianRobots: nat,
    geodeRobots: nat,
    ore: nat,
    clay: nat,
    obsidian: nat,
    geode: nat)

  function RobotCount(s: State): nat {
    s.oreRobots + s.clayRobots + s.obsidianRobots + s.geodeRobots
  }

  function StockCount(s: State): nat {
    s.ore + s.clay + s.obsidian + s.geode
  }

  /** The starting factory: a single robot, an ore robot, and an empty stock. */
  function Initial(timeLeft: nat): (s: State)
    ensures s.timeLeft == timeLeft
    ensures RobotCount(s) == 1 && s.oreRobots == 1
    ensures StockCount(s) == 0
  {
    State(timeLeft, 1, 0, 0, 0, 0, 0, 0, 0)
  }

  /** How many robots of each kind one minute starts building. */
  datatype Build = Build(geode: nat, obsidian: nat, clay: nat, ore: nat)

  function OreSpent(bp: Blueprint, b: Build): nat {
    b.geode * bp.geodeRobotOre + b.obsidian * bp.obsidianRobotOre + b.clay * bp.clayRobotOre + b.ore * bp.oreRobotOre
  }

  function ClaySpent(bp: Blueprint, b: Build): nat {
    b.obsidian * bp.obsidianRobotClay
  }

  function ObsidianSpent(bp: Blueprint, b: Build): nat {
    b.geode * bp.geodeRobotObsidian
  }

  /** A build the factory can start this minute: no kind is built more often than the
      ore in stock (each loop runs over `0 ..= ore`), and the stock pays for all of it. */
  predicate Allowed(s: State, bp: Blueprint, b: Build) {
    && b.geode <= s.ore && b.obsidian <= s.ore && b.clay <= s.ore && b.ore <= s.ore
    && OreSpent(bp, b) <= s.ore && ClaySpent(bp, b) <= s.clay && ObsidianSpent(bp, b) <= s.obsidian
  }

  /** One minute with build `b`: the new robots are counted, the stock pays for them, and
      only the robots owned at the start of the minute produce. */
  function Apply(s: State, bp: Blueprint, b: Build): (t: State)
    requires 0 < s.timeLeft && Allowed(s, bp, b)
    ensures t.timeLeft + 1 == s.timeLeft
    ensures t.oreRobots == s.oreRobots + b.ore && t.clayRobots == s.clayRobots + b.clay
    ensures t.obsidianRobots == s.obsidianRobots + b.obsidian && t.geodeRobots == s.geodeRobots + b.geode
    ensures t.ore + OreSpent(bp, b) == s.ore + s.oreRobots
    ensures t.clay + ClaySpent(bp, b) == s.clay + s.clayRobots
    ensures t.obsidian + ObsidianSpent(bp, b) == s.obsidian + s.obsidianRobots
    ensures t.geode == s.geode + s.geodeRobots
  {
    State(s.timeLeft - 1,
          s.oreRobots + b.ore, s.clayRobots + b.clay, s.obsidianRobots + b.obsidian, s.geodeRobots + b.geode,
          s.ore - OreSpent(bp, b) + s.oreRobots,
          s.clay - ClaySpent(bp, b) + s.clayRobots,
          s.obsidian - ObsidianSpent(bp, b) + s.obsidianRobots,
          s.geode + s.geodeRobots)
  }

  /** The number of passes of `for p in 0..n { if !ok(p) { break; } ... }` that reach the
      loop body: the first `p` that fails, or `n` when none does. */
  function Iterations(ok: nat -> bool, n: nat): (m: nat)
    ensures m <= n
    ensures forall p: nat :: p < m ==> ok(p)
    ensures m < n ==> !ok(m)
    decreases n
  {
    if n == 0 then 0
    else
      var m := Iterations(ok, n - 1);
      if m == n - 1 && ok(n - 1) then n else m
  }

  /** When `ok` holds of `p` and of everything below it, the loop reaches `p`. */
  lemma IterationsReach(ok: nat -> bool, n: nat, p: nat)
    requires p < n
    requires forall q: nat :: q <= p ==> ok(q)
    ensures p < Iterations(ok, n)
  {
  }

  // The ore left after each loop of `add_successors` has paid for its robots.

  function OreAfterGeode(s: State, bp: Blueprint, g: nat): int {
    s.ore - g * bp.geodeRobotOre
  }

  function OreAfterObsidian(s: State, bp: Blueprint, g: nat, o: nat): int {
    OreAfterGeode(s, bp, g) - o * bp.obsidianRobotOre
  }

  function OreAfterClay(s: State, bp: Blueprint, g: nat, o: nat, c: nat): int {
    OreAfterObsidian(s, bp, g, o) - c * bp.clayRobotOre
  }

  // The break conditions of the four loops, negated.

  predicate GeodeOk(s: State, bp: Blueprint, p: nat) {
    p * bp.geodeRobotOre <= s.ore && p * bp.geodeRobotObsidian <= s.obsidian
  }

  predicate ObsidianOk(s: State, bp: Blueprint, g: nat, p: nat) {
    p * bp.obsidianRobotOre <= OreAfterGeode(s, bp, g) && p * bp.obsidianRobotClay <= s.clay
  }

  predicate ClayOk(s: State, bp: Blueprint, g: nat, o: nat, p: nat) {
    p * bp.clayRobotOre <= OreAfterObsidian(s, bp, g, o)
  }

  predicate OreOk(s: State, bp: Blueprint, g: nat, o: nat, c: nat, p: nat) {
    p * bp.oreRobotOre <= OreAfterClay(s, bp, g, o, c)
  }

  /** The innermost loop, over ore robots. */
  function OreLoop(s: State, bp: Blueprint, g: nat, o: nat, c: nat): seq<Build> {
    var m := Iterations((p: nat) => OreOk(s, bp, g, o, c, p), s.ore + 1);
    seq(m, (r: int) requires 0 <= r => Build(g, o, c, r))
  }

  function ClayLoop(s: State, bp: Blueprint, g: nat, o: nat): seq<Build> {
    var m := Iterations((p: nat) => ClayOk(s, bp, g, o, p), s.ore + 1);
    Flatten(seq(m, (c: int) requires 0 <= c => OreLoop(s, bp, g, o, c)))
  }

  function ObsidianLoop(s: State, bp: Blueprint, g: nat): seq<Build> {
    var m := Iterations((p: nat) => ObsidianOk(s, bp, g, p), s.ore + 1);
    Flatten(seq(m, (o: int) requires 0 <= o => ClayLoop(s, bp, g, o)))
  }

  /** Every build `add_successors` tries, in the order of its four nested loops. */
  function Builds(s: State, bp: Blueprint): seq<Build> {
    var m := Iterations((p: nat) => GeodeOk(s, bp, p), s.ore + 1);
    Flatten(seq(m, (g: int) requires 0 <= g => ObsidianLoop(s, bp, g)))
  }

  /** What the four loop conditions demand of one build, stage by stage. */
  predicate Staged(s: State, bp: Blueprint, b: Build) {
    && b.geode <= s.ore && GeodeOk(s, bp, b.geode)
    && b.obsidian <= s.ore && ObsidianOk(s, bp, b.geode, b.obsidian)
    && b.clay <= s.ore && ClayOk(s, bp, b.geode, b.obsidian, b.clay)
    && b.ore <= s.ore && OreOk(s, bp, b.geode, b.obsidian, b.clay, b.ore)
  }

  lemma StagedIffAllowed(s: State, bp: Blueprint, b: Build)
    ensures Staged(s, bp, b) <==> Allowed(s, bp, b)
  {
    var go, oo, co, ro := b.geode * bp.geodeRobotOre, b.obsidian * bp.obsidianRobotOre,
                          b.clay * bp.clayRobotOre, b.ore * bp.oreRobotOre;
    assert OreSpent(bp, b) == go + oo + co + ro;
    assert 0 <= go && 0 <= oo && 0 <= co && 0 <= ro;
  }

  lemma OreLoopMembers(s: State, bp: Blueprint, g: nat, o: nat, c: nat, b: Build)
    ensures b in OreLoop(s, bp, g, o, c) <==>
      b.geode == g && b.obsidian == o && b.clay == c && b.ore <= s.ore && OreOk(s, bp, g, o, c, b.ore)
  {
    var ok := (p: nat) => OreOk(s, bp, g, o, c, p);
    var m := Iterations(ok, s.ore + 1);
    var loop := seq(m, (r: int) requires 0 <= r => Build(g, o, c, r));
    assert OreLoop(s, bp, g, o, c) == loop;
    if b in loop {
      var i :| 0 <= i < m && loop[i] == b;
      assert ok(i);
    }
    if b.geode == g && b.obsidian == o && b.clay == c && b.ore <= s.ore && OreOk(s, bp, g, o, c, b.ore) {
      forall q: nat | q <= b.ore
        ensures ok(q)
      {
        MulLe(q, b.ore, bp.oreRobotOre);
      }
      IterationsReach(ok, s.ore + 1, b.ore);
      assert loop[b.ore] == b;
    }
  }

  lemma ClayLoopMembers(s: State, bp: Blueprint, g: nat, o: nat, b: Build)
    ensures b in ClayLoop(s, bp, g, o) <==>
      && b.geode == g && b.obsidian == o
      && b.clay <= s.ore && ClayOk(s, bp, g, o, b.clay)
      && b.ore <= s.ore && OreOk(s, bp, g, o, b.clay, b.ore)
  {
    if b in ClayLoop(s, bp, g, o) {
      ClayLoopSound(s, bp, g, o, b);
    }
    if && b.geode == g && b.obsidian == o
       && b.clay <= s.ore && ClayOk(s, bp, g, o, b.clay)
       && b.ore <= s.ore && OreOk(s, bp, g, o, b.clay, b.ore) {
      ClayLoopComplete(s, bp, g, o, b);
    }
  }

  /** A build the clay loop reaches passed its own check and the ore loop's. */
  lemma ClayLoopSound(s: State, bp: Blueprint, g: nat, o: nat, b: Build)
    requires b in ClayLoop(s, bp, g, o)
    ensures && b.geode == g && b.obsidian == o
      && b.clay <= s.ore && ClayOk(s, bp, g, o, b.clay)
      && b.ore <= s.ore && OreOk(s, bp, g, o, b.clay, b.ore)
  {
    var ok := (p: nat) => ClayOk(s, bp, g, o, p);
    var m := Iterations(ok, s.ore + 1);
    var pieces := seq(m, (c: int) requires 0 <= c => OreLoop(s, bp, g, o, c));
    assert ClayLoop(s, bp, g, o) == Flatten(pieces);
    FlattenMembers(pieces, b);
    var i :| 0 <= i < m && b in pieces[i];
    OreLoopMembers(s, bp, g, o, i, b);
    assert ok(i);
  }

  /** The clay loop reaches every build whose clay and ore counts pass their checks. */
  lemma ClayLoopComplete(s: State, bp: Blueprint, g: nat, o: nat, b: Build)
    requires && b.geode == g && b.obsidian == o
      && b.clay <= s.ore && ClayOk(s, bp, g, o, b.clay)
      && b.ore <= s.ore && OreOk(s, bp, g, o, b.clay, b.ore)
    ensures b in ClayLoop(s, bp, g, o)
  {
    var ok := (p: nat) => ClayOk(s, bp, g, o, p);
    var m := Iterations(ok, s.ore + 1);
    var pieces := seq(m, (c: int) requires 0 <= c => OreLoop(s, bp, g, o, c));
    assert ClayLoop(s, bp, g, o) == Flatten(pieces);
    forall q: nat | q <= b.clay
      ensures ok(q)
    {
      MulLe(q, b.clay, bp.clayRobotOre);
    }
    IterationsReach(ok, s.ore + 1, b.clay);
    OreLoopMembers(s, bp, g, o, b.clay, b);
    FlattenMembers(pieces, b);
    assert b in pieces[b.clay];
  }

  lemma ObsidianLoopMembers(s: State, bp: Blueprint, g: nat, b: Build)
    ensures b in ObsidianLoop(s, bp, g) <==>
      && b.geode == g
      && b.obsidian <= s.ore && ObsidianOk(s, bp, g, b.obsidian)
      && b.clay <= s.ore && ClayOk(s, bp, g, b.obsidian, b.clay)
      && b.ore <= s.ore && OreOk(s, bp, g, b.obsidian, b.clay, b.ore)
  {
    if b in ObsidianLoop(s, bp, g) {
      ObsidianLoopSound(s, bp, g, b);
    }
    if && b.geode == g
       && b.obsidian <= s.ore && ObsidianOk(s, bp, g, b.obsidian)
       && b.clay <= s.ore && ClayOk(s, bp, g, b.obsidian, b.clay)
       && b.ore <= s.ore && OreOk(s, bp, g, b.obsidian, b.clay, b.ore) {
      ObsidianLoopComplete(s, bp, g, b);
    }
  }

  /** A build the obsidian loop reaches passed its own check and the inner loops'. */
  lemma ObsidianLoopSound(s: State, bp: Blueprint, g: nat, b: Build)
    requires b in ObsidianLoop(s, bp, g)
    ensures && b.geode == g
      && b.obsidian <= s.ore && ObsidianOk(s, bp, g, b.obsidian)
      && b.clay <= s.ore && ClayOk(s, bp, g, b.obsidian, b.clay)
      && b.ore <= s.ore && OreOk(s, bp, g, b.obsidian, b.clay, b.ore)
  {
    var ok := (p: nat) => ObsidianOk(s, bp, g, p);
    var m := Iterations(ok, s.ore + 1);
    var pieces := seq(m, (o: int) requires 0 <= o => ClayLoop(s, bp, g, o));
    assert ObsidianLoop(s, bp, g) == Flatten(pieces);
    FlattenMembers(pieces, b);
    var i :| 0 <= i < m && b in pieces[i];
    ClayLoopMembers(s, bp, g, i, b);
    assert ok(i);
  }

  /** The obsidian loop reaches every build whose counts all pass their checks: its
      `break` only cuts off counts above an affordable one, which cost more. */
  lemma ObsidianLoopComplete(s: State, bp: Blueprint, g: nat, b: Build)
    requires && b.geode == g
      && b.obsidian <= s.ore && ObsidianOk(s, bp, g, b.obsidian)
      && b.clay <= s.ore && ClayOk(s, bp, g, b.obsidian, b.clay)
      && b.ore <= s.ore && OreOk(s, bp, g, b.obsidian, b.clay, b.ore)
    ensures b in ObsidianLoop(s, bp, g)
  {
    var ok := (p: nat) => ObsidianOk(s, bp, g, p);
    var m := Iterations(ok, s.ore + 1);
    var pieces := seq(m, (o: int) requires 0 <= o => ClayLoop(s, bp, g, o));
    assert ObsidianLoop(s, bp, g) == Flatten(pieces);
    forall q: nat | q <= b.obsidian
      ensures ok(q)
    {
      MulLe(q, b.obsidian, bp.obsidianRobotOre);
      MulLe(q, b.obsidian, bp.obsidianRobotClay);
    }
    IterationsReach(ok, s.ore + 1, b.obsidian);
    ClayLoopMembers(s, bp, g, b.obsidian, b);
    FlattenMembers(pieces, b);
    assert b in pieces[b.obsidian];
  }

  lemma BuildsMembers(s: State, bp: Blueprint, b: Build)
    ensures b in Builds(s, bp) <==> Allowed(s, bp, b)
  {
    StagedIffAllowed(s, bp, b);
    if b in Builds(s, bp) {
      BuildsSound(s, bp, b);
    }
    if Staged(s, bp, b) {
      BuildsComplete(s, bp, b);
    }
  }

  /** A build the four loops reach passed all four checks. */
  lemma BuildsSound(s: State, bp: Blueprint, b: Build)
    requires b in Builds(s, bp)
    ensures Staged(s, bp, b)
  {
    var ok := (p: nat) => GeodeOk(s, bp, p);
    var m := Iterations(ok, s.ore + 1);
    var pieces := seq(m, (g: int) requires 0 <= g => ObsidianLoop(s, bp, g));
    assert Builds(s, bp) == Flatten(pieces);
    FlattenMembers(pieces, b);
    var i :| 0 <= i < m && b in pieces[i];
    ObsidianLoopSound(s, bp, i, b);
    assert ok(i);
  }

  /** The four loops reach every build that passes all four checks. */
  lemma BuildsComplete(s: State, bp: Blueprint, b: Build)
    requires Staged(s, bp, b)
    ensures b in Builds(s, bp)
  {
    var ok := (p: nat) => GeodeOk(s, bp, p);
    var m := Iterations(ok, s.ore + 1);
    var pieces := seq(m, (g: int) requires 0 <= g => ObsidianLoop(s, bp, g));
    assert Builds(s, bp) == Flatten(pieces);
    forall q: nat | q <= b.geode
      ensures ok(q)
    {
      MulLe(q, b.geode, bp.geodeRobotOre);
      MulLe(q, b.geode, bp.geodeRobotObsidian);
    }
    IterationsReach(ok, s.ore + 1, b.geode);
    ObsidianLoopComplete(s, bp, b.geode, b);
    FlattenMembers(pieces, b);
    assert b in pieces[b.geode];
  }

  lemma BuildsAllowed(s: State, bp: Blueprint)
    ensures forall b :: b in Builds(s, bp) ==> Allowed(s, bp, b)
  {
    forall b | b in Builds(s, bp)
      ensures Allowed(s, bp, b)
    {
      BuildsMembers(s, bp, b);
    }
  }

  /** The states `add_successors` pushes, in push order: none once time is up, otherwise
      one per build the loops try, each a minute later. */
  function Successors(s: State, bp: Blueprint): (r: seq<State>)
    ensures forall t :: t in r ==> t.timeLeft + 1 == s.timeLeft
  {
    if s.timeLeft == 0 then []
    else
      var bs := Builds(s, bp);
      BuildsAllowed(s, bp);
      seq(|bs|, i requires 0 <= i < |bs| => Apply(s, bp, bs[i]))
  }

  /** One minute of the factory: time is left and `t` is `s` after some allowed build. */
  ghost predicate Step(bp: Blueprint, s: State, t: State) {
    0 < s.timeLeft && exists b :: Allowed(s, bp, b) && t == Apply(s, bp, b)
  }

  /** The successors are exactly the allowed builds applied to `s`. */
  lemma SuccessorsMembers(s: State, bp: Blueprint, t: State)
    ensures t in Successors(s, bp) <==> Step(bp, s, t)
  {
    if 0 < s.timeLeft {
      var bs := Builds(s, bp);
      BuildsAllowed(s, bp);
      var r := Successors(s, bp);
      assert |r| == |bs| && forall i :: 0 <= i < |bs| ==> r[i] == Apply(s, bp, bs[i]);
      if t in r {
        var i :| 0 <= i < |r| && r[i] == t;
        assert Allowed(s, bp, bs[i]) && t == Apply(s, bp, bs[i]);
      }
      if exists b :: Allowed(s, bp, b) && t == Apply(s, bp, b) {
        var b :| Allowed(s, bp, b) && t == Apply(s, bp, b);
        BuildsMembers(s, bp, b);
        var i :| 0 <= i < |bs| && bs[i] == b;
        assert r[i] == t;
      }
    }
  }

  /** A factory with time left always has a successor: building nothing is allowed. */
  lemma SuccessorsExist(s: State, bp: Blueprint)
    ensures |Successors(s, bp)| == 0 <==> s.timeLeft == 0
  {
    if 0 < s.timeLeft {
      var none := Build(0, 0, 0, 0);
      assert Allowed(s, bp, none);
      SuccessorsMembers(s, bp, Apply(s, bp, none));
    }
  }

  /** Along one minute nothing goes negative and nothing is lost: the minutes drop by one,
      robots are only added, the stock keeps at least what the old robots produced, and the
      geode count grows by the geode robots owned at the start. */
  lemma SuccessorStep(s: State, bp: Blueprint, t: State)
    requires Step(bp, s, t)
    ensures t.timeLeft + 1 == s.timeLeft
    ensures s.oreRobots <= t.oreRobots && s.clayRobots <= t.clayRobots
    ensures s.obsidianRobots <= t.obsidianRobots && s.geodeRobots <= t.geodeRobots
    ensures s.oreRobots <= t.ore && s.clayRobots <= t.clay && s.obsidianRobots <= t.obsidian
    ensures t.geode == s.geode + s.geodeRobots
  {
    var b :| Allowed(s, bp, b) && t == Apply(s, bp, b);
  }

  /** `max_geode_count_heuristic`: the geodes in stock, plus what the current geode robots
      collect, plus one more geode robot for every remaining minute. */
  function Heuristic(s: State): (h: nat)
    ensures s.timeLeft == 0 ==> h == s.geode
    ensures s.geode + s.geodeRobots * s.timeLeft <= h
  {
    if s.timeLeft == 0 then s.geode
    else
      var m := s.timeLeft - 1;
      s.geode + s.geodeRobots * s.timeLeft + (m * m + m) / 2
  }

  /** `0 + 1 + ... + n`. */
  function Triangle(n: nat): nat
    decreases n
  {
    if n == 0 then 0 else Triangle(n - 1) + n
  }

  lemma {:induction false} TriangleClosed(n: nat)
    ensures n * n + n == 2 * Triangle(n)
    decreases n
  {
    if n != 0 {
      TriangleClosed(n - 1);
      assert n * n == (n - 1) * (n - 1) + 2 * n - 1;
    }
  }

  /** The bound's last term counts one new geode robot per remaining minute: robots
      started in the minutes before the last one collect `0 + 1 + ... + (t - 1)` geodes. */
  lemma HeuristicTriangle(s: State)
    requires 0 < s.timeLeft
    ensures Heuristic(s) == s.geode + s.geodeRobots * s.timeLeft + Triangle(s.timeLeft - 1)
  {
    TriangleClosed(s.timeLeft - 1);
  }

  /** The arithmetic of one minute: a minute later, the stocked geodes grown by the old
      geode robots and at most one new geode robot never raise the bound. */
  lemma BoundStep(s: State, t: State)
    requires t.timeLeft + 1 == s.timeLeft
    requires t.geode == s.geode + s.geodeRobots
    requires t.geodeRobots <= s.geodeRobots + 1
    ensures Heuristic(t) <= Heuristic(s)
  {
    if s.timeLeft == 1 {
      LastMinuteBound(s, t);
    } else {
      EarlierMinuteBound(s, t);
    }
  }

  lemma LastMinuteBound(s: State, t: State)
    requires t.timeLeft + 1 == s.timeLeft == 1
    requires t.geode == s.geode + s.geodeRobots
    ensures Heuristic(t) == Heuristic(s)
  {
  }

  lemma EarlierMinuteBound(s: State, t: State)
    requires t.timeLeft + 1 == s.timeLeft && 1 < s.timeLeft
    requires t.geode == s.geode + s.geodeRobots
    requires t.geodeRobots <= s.geodeRobots + 1
    ensures Heuristic(t) <= Heuristic(s)
  {
    HeuristicTriangle(s);
    HeuristicTriangle(t);
    TriangleStep(s.geodeRobots, t.geodeRobots, t.timeLeft);
  }

  /** The bound's arithmetic: one minute less with at most one more robot. */
  lemma TriangleStep(r: nat, r': nat, k: nat)
    requires 0 < k && r' <= r + 1
    ensures r + r' * k + Triangle(k - 1) <= r * (k + 1) + Triangle(k)
  {
    assert Triangle(k) == Triangle(k - 1) + k;
    MulLe(r', r + 1, k);
    assert (r + 1) * k == r * k + k;
    assert r * (k + 1) == r * k + r;
  }

  /** A minute that builds at most one geode robot never raises the bound. */
  lemma HeuristicStep(s: State, bp: Blueprint, t: State)
    requires Step(bp, s, t)
    requires t.geodeRobots <= s.geodeRobots + 1
    ensures Heuristic(t) <= Heuristic(s)
  {
    SuccessorStep(s, bp, t);
    BoundStep(s, t);
  }

  /** A run of the factory: every state is one minute after the one before. */
  ghost predicate IsRun(bp: Blueprint, ps: seq<State>) {
    0 < |ps| && forall i :: 0 <= i && i + 1 < |ps| ==> Step(bp, ps[i], ps[i + 1])
  }

  /** The bound covers every run that builds at most one geode robot per minute. */
  lemma {:induction false} HeuristicBoundsPath(bp: Blueprint, ps: seq<State>)
    requires IsRun(bp, ps)
    requires forall i :: 0 <= i && i + 1 < |ps| ==> ps[i + 1].geodeRobots <= ps[i].geodeRobots + 1
    ensures ps[|ps| - 1].geode <= Heuristic(ps[0])
    decreases |ps|
  {
    if 1 < |ps| {
      var rest := ps[1..];
      assert forall i :: 0 <= i && i + 1 < |rest| ==> Step(bp, rest[i], rest[i + 1]) by {
        forall i | 0 <= i && i + 1 < |rest|
          ensures Step(bp, rest[i], rest[i + 1])
        {
          assert rest[i] == ps[i + 1] && rest[i + 1] == ps[i + 2];
        }
      }
      forall i | 0 <= i && i + 1 < |rest|
        ensures rest[i + 1].geodeRobots <= rest[i].geodeRobots + 1
      {
        assert rest[i] == ps[i + 1] && rest[i + 1] == ps[i + 2];
      }
      HeuristicBoundsPath(bp, rest);
      assert Step(bp, ps[0], ps[1]);
      HeuristicStep(ps[0], bp, ps[1]);
    }
  }

  /** The bound does not cover minutes that build several geode robots at once, which the
      successors allow: with two minutes left, no geode robot yet and the stock for two
      geode robots, building both now ends two geodes up, one above the bound. */
  lemma HeuristicMissesDoubleBuild(bp: Blueprint, s: State)
    requires s.timeLeft == 2 && s.geodeRobots == 0 && 2 <= s.ore
    requires 2 * bp.geodeRobotOre <= s.ore && 2 * bp.geodeRobotObsidian <= s.obsidian
    ensures exists ps: seq<State> :: IsRun(bp, ps) && ps[0] == s && |ps| == 3 && ps[2].geode > Heuristic(s)
  {
    var twoGeode, none := Build(2, 0, 0, 0), Build(0, 0, 0, 0);
    assert Allowed(s, bp, twoGeode);
    var t := Apply(s, bp, twoGeode);
    assert Step(bp, s, t);
    assert Allowed(t, bp, none);
    var u := Apply(t, bp, none);
    assert Step(bp, t, u);
    var ps := [s, t, u];
    assert IsRun(bp, ps);
    assert u.geode == s.geode + 2 && Heuristic(s) == s.geode + 1;
  }

  /** `s` is reached from `start` by some run. */
  ghost predicate Reachable(bp: Blueprint, start: State, s: State) {
    exists ps :: IsRun(bp, ps) && ps[0] == start && ps[|ps| - 1] == s
  }

  lemma ReachableStep(bp: Blueprint, start: State, s: State, t: State)
    requires Reachable(bp, start, s) && Step(bp, s, t)
    ensures Reachable(bp, start, t)
  {
    var ps :| IsRun(bp, ps) && ps[0] == start && ps[|ps| - 1] == s;
    var longer := ps + [t];
    assert forall i :: 0 <= i && i + 1 < |longer| ==> Step(bp, longer[i], longer[i + 1]) by {
      forall i | 0 <= i && i + 1 < |longer|
        ensures Step(bp, longer[i], longer[i + 1])
      {
        if i + 1 < |ps| {
          assert longer[i] == ps[i] && longer[i + 1] == ps[i + 1];
        }
      }
    }
    assert IsRun(bp, longer);
  }

  /** `next` moves every state a minute on, as `add_successors` does. */
  ghost predicate Shrinks(next: State -> seq<State>) {
    forall s: State, i :: 0 <= i < |next(s)| ==> next(s)[i].timeLeft < s.timeLeft
  }

  /** The number of states a search with successor function `next` pushes from `s`
      onwards, counting repeats: one for `s` and the trees of its successors. It is finite
      because every successor has a minute less, and it is the measure that bounds the
      search loop. */
  ghost function TreeSize(next: State -> seq<State>, s: State): nat
    requires Shrinks(next)
    decreases s.timeLeft, 1, 0
  {
    1 + Forest(next, next(s), s.timeLeft)
  }

  ghost function Forest(next: State -> seq<State>, ss: seq<State>, bound: nat): nat
    requires Shrinks(next)
    requires forall i :: 0 <= i < |ss| ==> ss[i].timeLeft < bound
    decreases bound, 0, |ss|
  {
    if |ss| == 0 then 0 else TreeSize(next, ss[0]) + Forest(next, ss[1..], bound)
  }

  /** The total tree size of a queue. */
  ghost function Weight(next: State -> seq<State>, q: seq<State>): nat
    requires Shrinks(next)
    decreases |q|
  {
    if |q| == 0 then 0 else TreeSize(next, q[0]) + Weight(next, q[1..])
  }

  lemma {:induction false} ForestWeight(next: State -> seq<State>, ss: seq<State>, bound: nat)
    requires Shrinks(next)
    requires forall i :: 0 <= i < |ss| ==> ss[i].timeLeft < bound
    ensures Forest(next, ss, bound) == Weight(next, ss)
    decreases |ss|
  {
    if |ss| != 0 {
      ForestWeight(next, ss[1..], bound);
    }
  }

  lemma {:induction false} WeightAppend(next: State -> seq<State>, a: seq<State>, b: seq<State>)
    requires Shrinks(next)
    ensures Weight(next, a + b) == Weight(next, a) + Weight(next, b)
    decreases |a|
  {
    if |a| == 0 {
      assert a + b == b;
    } else {
      assert (a + b)[0] == a[0];
      assert (a + b)[1..] == a[1..] + b;
      WeightAppend(next, a[1..], b);
    }
  }

  /** Expanding a state replaces its tree by the trees of its successors. */
  lemma TreeSizeExpand(next: State -> seq<State>, s: State)
    requires Shrinks(next)
    ensures TreeSize(next, s) == 1 + Weight(next, next(s))
  {
    ForestWeight(next, next(s), s.timeLeft);
  }

  /** The successor function of one blueprint moves every state a minute on. */
  lemma SuccessorsShrink(bp: Blueprint)
    ensures Shrinks(s => Successors(s, bp))
  {
    var next := s => Successors(s, bp);
    forall s: State, i | 0 <= i < |next(s)|
      ensures next(s)[i].timeLeft < s.timeLeft
    {
      assert next(s)[i] in Successors(s, bp);
    }
  }

  /** `holds` is true of `start` and carried from every state to its successors. */
  ghost predicate Closed(next: State -> seq<State>, holds: State -> bool, start: State) {
    holds(start) && forall s, i :: holds(s) && 0 <= i < |next(s)| ==> holds(next(s)[i])
  }

  /** The search loop of `part1`: a FIFO queue from `start`; a state already visited is
      skipped; the best geode count is raised on every new state; a state whose bound is
      below the best is not expanded; the others push their successors. Every visited
      state, and the one holding the answer, has each property that `start` has and that
      successors inherit (in particular, each is reachable), and no visited state holds
      more geodes than the answer. */
  method Search(next: State -> seq<State>, start: State, ghost holds: State -> bool)
    returns (best: nat, ghost visited: set<State>)
    requires Shrinks(next)
    requires Closed(next, holds, start)
    ensures start in visited
    ensures forall s :: s in visited ==> holds(s) && s.geode <= best
    ensures start.geode <= best
    ensures exists s :: holds(s) && s.geode == best
    ensures forall s, i :: s in visited && 0 <= i < |next(s)| && best <= Heuristic(s) ==> next(s)[i] in visited
  {
    best := 0;
    var seen: set<State> := {};
    var q: seq<State> := [start];
    ghost var holder := start;
    while 0 < |q|
      invariant (seen == {} && q == [start]) || start in seen
      invariant forall s :: s in seen ==> holds(s) && s.geode <= best
      invariant AllHold(holds, q)
      invariant seen == {} ==> holder == start && best == 0
      invariant seen != {} ==> holder in seen && holder.geode == best
      invariant Expanded(next, seen, q, best)
      decreases Weight(next, q)
    {
      var s := q[0];
      ghost var before := q;
      ghost var seenBefore := seen;
      ghost var bestBefore := best;
      AllHoldTail(holds, q);
      q := q[1..];
      if s in seen {
        ExpandedSkip(next, seenBefore, before, bestBefore, seen, best);
        continue;
      }
      seen := seen + {s};
      if s.geode > best {
        best := s.geode;
        holder := s;
      }
      if Heuristic(s) < best {
        ExpandedSkip(next, seenBefore, before, bestBefore, seen, best);
        continue;
      }
      ExpandedPush(next, seenBefore, before, bestBefore, seen, best);
      var succ := next(s);
      TreeSizeExpand(next, s);
      WeightAppend(next, q, succ);
      AllHoldPush(next, holds, start, s, q);
      q := q + succ;
    }
    visited := seen;
  }

  /** Every queued state holds `holds`. */
  ghost predicate AllHold(holds: State -> bool, q: seq<State>) {
    forall i :: 0 <= i < |q| ==> holds(q[i])
  }

  /** Popping the head keeps the rest of the queue holding. */
  lemma AllHoldTail(holds: State -> bool, q: seq<State>)
    requires AllHold(holds, q) && 0 < |q|
    ensures holds(q[0]) && AllHold(holds, q[1..])
  {
    forall i | 0 <= i < |q| - 1
      ensures holds(q[1..][i])
    {
      assert q[1..][i] == q[i + 1];
    }
  }

  /** Pushing the successors of a state that holds keeps the queue holding. */
  lemma AllHoldPush(next: State -> seq<State>, holds: State -> bool, start: State, s: State, q: seq<State>)
    requires Closed(next, holds, start) && holds(s) && AllHold(holds, q)
    ensures AllHold(holds, q + next(s))
  {
    var succ := next(s);
    forall i | 0 <= i < |q + succ|
      ensures holds((q + succ)[i])
    {
      if i < |q| {
        assert (q + succ)[i] == q[i];
      } else {
        assert (q + succ)[i] == succ[i - |q|];
      }
    }
  }

  /** Every successor of a state in `seen` whose bound reaches `best` is in `seen` or
      still in the queue `q`. */
  ghost predicate Expanded(next: State -> seq<State>, seen: set<State>, q: seq<State>, best: nat) {
    forall s, i :: s in seen && 0 <= i < |next(s)| && best <= Heuristic(s) ==> next(s)[i] in seen || next(s)[i] in q
  }

  /** Popping a state that is already seen, or whose bound is below the best: nothing
      needs to be pushed. */
  lemma ExpandedSkip(next: State -> seq<State>, seen: set<State>, q: seq<State>, best: nat,
                     seen': set<State>, best': nat)
    requires 0 < |q| && Expanded(next, seen, q, best)
    requires seen' == seen + {q[0]} && best <= best'
    requires q[0] in seen || Heuristic(q[0]) < best'
    ensures Expanded(next, seen', q[1..], best')
  {
    forall s, i | s in seen' && 0 <= i < |next(s)| && best' <= Heuristic(s)
      ensures next(s)[i] in seen' || next(s)[i] in q[1..]
    {
      if s != q[0] || q[0] in seen {
        assert s in seen;
        assert next(s)[i] in seen || next(s)[i] in q;
        assert q == [q[0]] + q[1..];
      }
    }
  }

  /** Popping a new state and pushing its successors. */
  lemma ExpandedPush(next: State -> seq<State>, seen: set<State>, q: seq<State>, best: nat,
                     seen': set<State>, best': nat)
    requires 0 < |q| && Expanded(next, seen, q, best)
    requires seen' == seen + {q[0]} && best <= best'
    ensures Expanded(next, seen', q[1..] + next(q[0]), best')
  {
    var q' := q[1..] + next(q[0]);
    forall s, i | s in seen' && 0 <= i < |next(s)| && best' <= Heuristic(s)
      ensures next(s)[i] in seen' || next(s)[i] in q'
    {
      if s == q[0] {
        assert q'[|q| - 1 + i] == next(s)[i];
      } else {
        assert next(s)[i] in seen || next(s)[i] in q;
        assert q == [q[0]] + q[1..];
      }
    }
  }

  /** Reachability from `start` is a property the search preserves. */
  lemma ReachableClosed(bp: Blueprint, start: State)
    ensures Closed(s => Successors(s, bp), s => Reachable(bp, start, s), start)
  {
    var next := s => Successors(s, bp);
    assert IsRun(bp, [start]);
    forall s, i | Reachable(bp, start, s) && 0 <= i < |next(s)|
      ensures Reachable(bp, start, next(s)[i])
    {
      var t := next(s)[i];
      assert t in Successors(s, bp);
      SuccessorsMembers(s, bp, t);
      ReachableStep(bp, start, s, t);
    }
  }

  /** Some state reachable from `start` holds `g` geodes. */
  ghost predicate Achieved(bp: Blueprint, start: State, g: nat) {
    exists s :: Reachable(bp, start, s) && s.geode == g
  }

  /** The search of one blueprint (the body of the `map` in `part1`): its answer is a
      geode count some run from `start` ends with, and no visited state holds more. */
  method MaxGeodes(bp: Blueprint, start: State) returns (best: nat, ghost visited: set<State>)
    ensures start in visited
    ensures forall s :: s in visited ==> Reachable(bp, start, s) && s.geode <= best
    ensures start.geode <= best
    ensures Achieved(bp, start, best)
    ensures forall s, t :: s in visited && t in Successors(s, bp) && best <= Heuristic(s) ==> t in visited
  {
    SuccessorsShrink(bp);
    ReachableClosed(bp, start);
    var next := s => Successors(s, bp);
    best, visited := Search(next, start, s => Reachable(bp, start, s));
    forall s, t | s in visited && t in Successors(s, bp) && best <= Heuristic(s)
      ensures t in visited
    {
      var i :| 0 <= i < |Successors(s, bp)| && Successors(s, bp)[i] == t;
      assert next(s)[i] == t;
    }
  }

  /** The sum of the quality levels: each blueprint's index times its geode count. */
  function QualitySum(bps: seq<Blueprint>, bests: seq<nat>): nat
    requires |bps| == |bests|
    decreases |bps|
  {
    if |bps| == 0 then 0
    else QualitySum(bps[..|bps| - 1], bests[..|bests| - 1]) + Quality(bps[|bps| - 1], bests[|bests| - 1])
  }

  /** The quality level of one blueprint: its index times its geode count. */
  function Quality(bp: Blueprint, geodes: nat): nat {
    bp.index * geodes
  }

  lemma QualitySumStep(bps: seq<Blueprint>, bests: seq<nat>, k: nat, best: nat)
    requires k < |bps| && |bests| == k
    ensures QualitySum(bps[..k + 1], bests + [best]) == QualitySum(bps[..k], bests) + Quality(bps[k], best)
  {
    assert bps[..k + 1][..k] == bps[..k];
    assert (bests + [best])[..k] == bests;
  }

  /** `part1`: every blueprint is searched from the 24-minute start, and the answer is the
      sum of the quality levels of the geode counts found. */
  method Part1(bps: seq<Blueprint>) returns (total: nat, bests: seq<nat>)
    ensures |bests| == |bps| && total == QualitySum(bps, bests)
    ensures forall i :: 0 <= i < |bps| ==> Achieved(bps[i], Initial(PART1_MINUTES), bests[i])
  {
    total, bests := 0, [];
    for k := 0 to |bps|
      invariant |bests| == k && total == QualitySum(bps[..k], bests)
      invariant forall i :: 0 <= i < k ==> Achieved(bps[i], Initial(PART1_MINUTES), bests[i])
    {
      var best, _ := MaxGeodes(bps[k], Initial(PART1_MINUTES));
      QualitySumStep(bps, bests, k, best);
      total := total + Quality(bps[k], best);
      bests := bests + [best];
    }
    assert bps[..|bps|] == bps;
  }
}
