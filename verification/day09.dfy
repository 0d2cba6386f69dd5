/** Rope Bridge (day 9): a rope of knots whose head moves one unit at a time while every
    later knot follows its predecessor, and the set of positions the tail visits. */
module Day09 {
  import opened Util
  import opened Text

  datatype Dir = Down | Up | Left | Right

  type Pos = (int, int)

  /** `get_vector`. */
  function Vector(d: Dir): (v: Pos)
    ensures Abs(v.0) + Abs(v.1) == 1
  {
    match d
    case Down => (0, -1)
    case Up => (0, 1)
    case Left => (-1, 0)
    case Right => (1, 0)
  }

  /** `move_vec`: one unit step in direction `d`. */
  function MoveVec(d: Dir, p: Pos): (q: Pos)
    ensures Abs(q.0 - p.0) + Abs(q.1 - p.1) == 1
  {
    (p.0 + Vector(d).0, p.1 + Vector(d).1)
  }

  function Opposite(d: Dir): Dir {
    match d
    case Down => Up
    case Up => Down
    case Left => Right
    case Right => Left
  }

  /** Stepping back the opposite way undoes a step. */
  lemma MoveVecInverse(d: Dir, p: Pos)
    ensures MoveVec(Opposite(d), MoveVec(d, p)) == p
  {
  }

  /** `Dir::from_str`. */
  function ParseDir(s: string): (r: Result<Dir>)
    ensures r.Ok? <==> s in {"D", "U", "L", "R"}
    ensures r == Ok(Down) <==> s == "D"
    ensures r == Ok(Up) <==> s == "U"
    ensures r == Ok(Left) <==> s == "L"
    ensures r == Ok(Right) <==> s == "R"
  {
    match s
    case "D" => Ok(Down)
    case "U" => Ok(Up)
    case "L" => Ok(Left)
    case "R" => Ok(Right)
    case _ => Err
  }

  /** One line of `input_generator`: trimmed, split at the first space into a direction
      and a `usize` amount; every failure (the `unwrap`s) is `Err`. */
  function ParseMove(line: string): (r: Result<(Dir, nat)>)
    ensures r.Ok? ==> r.value.1 < U64_LIMIT
    ensures r.Ok? ==> ' ' in Trim(line)
  {
    match SplitOnce(Trim(line), ' ')
    case None => Err
    case Some((d, n)) =>
      match (ParseDir(d), ParseUnsigned(n, U64_LIMIT))
      case (Ok(dir), Some(amount)) => Ok((dir, amount))
      case _ => Err
  }

  /** A line the input generator accepts: blank after trimming, or a move. */
  predicate LineOk(line: string) {
    Trim(line) == "" || ParseMove(line).Ok?
  }

  /** `input_generator`: blank lines are skipped, every other line must parse. */
  function InputGenerator(lines: seq<string>): (r: Result<seq<(Dir, nat)>>)
    ensures r.Ok? <==> forall i :: 0 <= i < |lines| ==> LineOk(lines[i])
    ensures r.Ok? ==> |r.value| <= |lines|
  {
    if |lines| == 0 then Ok([])
    else
      var init := lines[..|lines| - 1];
      var line := lines[|lines| - 1];
      AllSnoc(lines, init, LineOk);
      var prev := InputGenerator(init);
      if prev.Err? then Err
      else if Trim(line) == "" then prev
      else match ParseMove(line)
        case Ok(m) => Ok(prev.value + [m])
        case Err => Err
  }

  /** A direction and an amount written as a line parse back. */
  lemma ParseMoveRoundTrip(d: Dir, n: nat)
    requires n < U64_LIMIT
    ensures ParseMove(Letter(d) + " " + NatToString(n)) == Ok((d, n))
  {
    var letter := Letter(d);
    var digits := NatToString(n);
    var line := letter + " " + digits;
    MoveLine(letter, digits);
    ParseUnsignedRoundTrip(n, U64_LIMIT);
    assert ParseDir(letter) == Ok(d);
  }

  lemma MoveLine(letter: string, digits: string)
    requires |letter| == 1 && !IsWhitespace(letter[0]) && ' ' !in letter
    requires 0 < |digits| && AllDigits(digits)
    ensures SplitOnce(Trim(letter + " " + digits), ' ') == Some((letter, digits))
  {
    var line := letter + " " + digits;
    assert line == letter + [' '] + digits;
    assert line[|line| - 1] == digits[|digits| - 1];
    TrimUnchanged(line);
    SplitOnceAt(letter, ' ', digits);
  }

  function Letter(d: Dir): (s: string)
    ensures |s| == 1 && ParseDir(s) == Ok(d)
  {
    match d
    case Down => "D"
    case Up => "U"
    case Left => "L"
    case Right => "R"
  }

  /** The distance on each axis exceeds one: the knot must move. */
  predicate Far(h: Pos, t: Pos) {
    Abs(h.0 - t.0) > 1 || Abs(h.1 - t.1) > 1
  }

  /** Touching, diagonals and overlap included (Chebyshev distance at most 1). */
  predicate Adjacent(h: Pos, t: Pos) {
    !Far(h, t)
  }

  /** Chebyshev distance at most 2: what a knot can be from its follower right after
      the knot moved one unit on each axis. */
  predicate Near(h: Pos, t: Pos) {
    Abs(h.0 - t.0) <= 2 && Abs(h.1 - t.1) <= 2
  }

  /** The follower's step: one unit towards the knot ahead on each axis (`signum`). */
  function Toward(t: Pos, h: Pos): (r: Pos)
    ensures Abs(r.0 - t.0) <= 1 && Abs(r.1 - t.1) <= 1
    ensures Near(h, t) ==> Adjacent(h, r)
    ensures Far(h, t) ==> r != t
  {
    (t.0 + Sign(h.0 - t.0), t.1 + Sign(h.1 - t.1))
  }

  /** The loop of `follow_head` from knot `i` on: a knot that is too far from the
      (already moved) knot ahead steps towards it; the first knot that is close enough
      ends the loop. */
  function FollowFrom(knots: seq<Pos>, i: nat): (r: seq<Pos>)
    requires 1 <= i <= |knots|
    ensures |r| == |knots| && r[..i] == knots[..i]
    ensures forall j :: i <= j < |r| ==> r[j] == knots[j] || (Far(r[j - 1], knots[j]) && r[j] == Toward(knots[j], r[j - 1]))
    ensures forall j :: i <= j < |r| && Far(r[j - 1], knots[j]) && (j == i || r[j - 1] != knots[j - 1]) ==> r[j] == Toward(knots[j], r[j - 1])
    ensures forall j, k :: i <= j <= k < |r| && !Far(r[j - 1], knots[j]) ==> r[k] == knots[k]
    decreases |knots| - i
  {
    if i == |knots| then knots
    else if Far(knots[i - 1], knots[i]) then
      var moved := knots[i := Toward(knots[i], knots[i - 1])];
      var r := FollowFrom(moved, i + 1);
      FollowFromStep(knots, i, r);
      r
    else knots
  }

  /** The loop's first step: if following from `i + 1` after pulling knot `i` gives `r`, then
      `r` is what following from `i` promises. */
  lemma FollowFromStep(knots: seq<Pos>, i: nat, r: seq<Pos>)
    requires 1 <= i < |knots| && Far(knots[i - 1], knots[i])
    requires var moved := knots[i := Toward(knots[i], knots[i - 1])];
      && |r| == |moved| && r[..i + 1] == moved[..i + 1]
      && (forall j :: i + 1 <= j < |r| ==> r[j] == moved[j] || (Far(r[j - 1], moved[j]) && r[j] == Toward(moved[j], r[j - 1])))
      && (forall j :: i + 1 <= j < |r| && Far(r[j - 1], moved[j]) && (j == i + 1 || r[j - 1] != moved[j - 1]) ==> r[j] == Toward(moved[j], r[j - 1]))
      && (forall j, k :: i + 1 <= j <= k < |r| && !Far(r[j - 1], moved[j]) ==> r[k] == moved[k])
    ensures |r| == |knots| && r[..i] == knots[..i]
    ensures forall j :: i <= j < |r| ==> r[j] == knots[j] || (Far(r[j - 1], knots[j]) && r[j] == Toward(knots[j], r[j - 1]))
    ensures forall j :: i <= j < |r| && Far(r[j - 1], knots[j]) && (j == i || r[j - 1] != knots[j - 1]) ==> r[j] == Toward(knots[j], r[j - 1])
    ensures forall j, k :: i <= j <= k < |r| && !Far(r[j - 1], knots[j]) ==> r[k] == knots[k]
  {
    var moved := knots[i := Toward(knots[i], knots[i - 1])];
    assert r[i - 1] == moved[i - 1] == knots[i - 1] && r[i] == moved[i];
    assert r[..i] == knots[..i];
  }

  /** `follow_head`. */
  function FollowHead(knots: seq<Pos>): (r: seq<Pos>)
    requires 1 <= |knots|
    ensures |r| == |knots| && r[0] == knots[0]
  {
    FollowFrom(knots, 1)
  }

  /** Every knot touches the one ahead of it. */
  predicate Taut(knots: seq<Pos>) {
    forall j :: 1 <= j < |knots| ==> Adjacent(knots[j - 1], knots[j])
  }

  /** The rope is taut before knot `i`, knot `i` is within two of knot `i - 1`, and the
      knots from `i` on are taut among themselves. */
  predicate TautExcept(knots: seq<Pos>, i: nat) {
    && 1 <= i <= |knots|
    && (forall j :: 1 <= j < i ==> Adjacent(knots[j - 1], knots[j]))
    && (i < |knots| ==> Near(knots[i - 1], knots[i]))
    && (forall j :: i < j < |knots| ==> Adjacent(knots[j - 1], knots[j]))
  }

  /** Following from a nearly taut rope makes it taut. */
  lemma {:induction false} FollowTaut(knots: seq<Pos>, i: nat)
    requires TautExcept(knots, i)
    ensures Taut(FollowFrom(knots, i))
    decreases |knots| - i
  {
    if i < |knots| && Far(knots[i - 1], knots[i]) {
      var moved := knots[i := Toward(knots[i], knots[i - 1])];
      PullTightens(knots, i);
      FollowTaut(moved, i + 1);
    }
  }

  /** Pulling a far knot toward the one ahead leaves the rope nearly taut one knot later. */
  lemma PullTightens(knots: seq<Pos>, i: nat)
    requires TautExcept(knots, i) && i < |knots| && Far(knots[i - 1], knots[i])
    ensures TautExcept(knots[i := Toward(knots[i], knots[i - 1])], i + 1)
  {
    var moved := knots[i := Toward(knots[i], knots[i - 1])];
    assert Adjacent(moved[i - 1], moved[i]);
    if i + 1 < |knots| {
      assert Adjacent(knots[i], knots[i + 1]);
      assert Near(moved[i], moved[i + 1]);
    }
  }

  /** One unit move of the head, then `follow_head`. */
  function Step(knots: seq<Pos>, d: Dir): (r: seq<Pos>)
    requires 1 <= |knots|
    ensures |r| == |knots|
    ensures r[0] == MoveVec(d, knots[0])
    ensures Taut(knots) ==> Taut(r)
  {
    var moved := knots[0 := MoveVec(d, knots[0])];
    assert Taut(knots) ==> TautExcept(moved, 1) by {
      if Taut(knots) && 1 < |knots| {
        assert Adjacent(knots[0], knots[1]);
      }
    }
    if Taut(knots) then FollowTaut(moved, 1); FollowHead(moved) else FollowHead(moved)
  }

  /** `amount` unit moves per line, in order. */
  function Expand(moves: seq<(Dir, nat)>): seq<Dir> {
    if |moves| == 0 then [] else Expand(moves[..|moves| - 1]) + Repeat(Last(moves).0, Last(moves).1)
  }

  function Repeat(d: Dir, n: nat): (r: seq<Dir>)
    ensures |r| == n && forall k :: 0 <= k < n ==> r[k] == d
  {
    if n == 0 then [] else Repeat(d, n - 1) + [d]
  }

  /** The rope after the unit moves `dirs`. */
  function Run(knots: seq<Pos>, dirs: seq<Dir>): (r: seq<Pos>)
    requires 1 <= |knots|
    ensures |r| == |knots|
    ensures Taut(knots) ==> Taut(r)
  {
    if |dirs| == 0 then knots else Step(Run(knots, dirs[..|dirs| - 1]), Last(dirs))
  }

  /** The positions the tail occupies, at the start and after every unit move. */
  function Trail(knots: seq<Pos>, dirs: seq<Dir>): (r: set<Pos>)
    requires 1 <= |knots|
    ensures Last(knots) in r && Last(Run(knots, dirs)) in r
  {
    if |dirs| == 0 then {Last(knots)}
    else Trail(knots, dirs[..|dirs| - 1]) + {Last(Run(knots, dirs))}
  }

  /** Every knot at the origin. */
  function Start(n: nat): (r: seq<Pos>)
    ensures |r| == n && Taut(r)
    ensures forall k :: 0 <= k < n ==> r[k] == (0, 0)
  {
    seq(n, _ => (0, 0))
  }

  /** `simulate_rope`: the number of distinct tail positions. The rope stays taut after
      every unit move, and the origin is always counted. */
  method SimulateRope(moves: seq<(Dir, nat)>, n: nat) returns (count: nat, rope: seq<Pos>)
    requires 0 < n
    ensures rope == Run(Start(n), Expand(moves)) && Taut(rope)
    ensures count == |Trail(Start(n), Expand(moves))|
    ensures 1 <= count
  {
    var dirs := Expand(moves);
    rope := Start(n);
    var seen := {Last(rope)};
    var i := 0;
    while i < |dirs|
      invariant i <= |dirs|
      invariant rope == Run(Start(n), dirs[..i])
      invariant seen == Trail(Start(n), dirs[..i])
    {
      assert dirs[..i + 1][..i] == dirs[..i];
      rope := Step(rope, dirs[i]);
      seen := seen + {Last(rope)};
      i := i + 1;
    }
    assert dirs[..i] == dirs;
    count := |seen|;
    assert (0, 0) in seen;
  }

  /** `part1` (two knots) and `part2` (ten knots). */
  method Part1(moves: seq<(Dir, nat)>) returns (count: nat)
    ensures count == |Trail(Start(2), Expand(moves))| && 1 <= count
  {
    var rope;
    count, rope := SimulateRope(moves, 2);
  }

  method Part2(moves: seq<(Dir, nat)>) returns (count: nat)
    ensures count == |Trail(Start(10), Expand(moves))| && 1 <= count
  {
    var rope;
    count, rope := SimulateRope(moves, 10);
  }

  /** A one-knot rope's tail is its head: it visits every position the head reaches. */
  lemma {:induction false} SingleKnot(dirs: seq<Dir>)
    ensures Run(Start(1), dirs) == [HeadAfter(dirs)]
    decreases |dirs|
  {
    if |dirs| > 0 {
      SingleKnot(dirs[..|dirs| - 1]);
    }
  }

  /** Where the head ends up: the sum of the unit vectors. */
  function HeadAfter(dirs: seq<Dir>): Pos {
    if |dirs| == 0 then (0, 0) else MoveVec(Last(dirs), HeadAfter(dirs[..|dirs| - 1]))
  }

  /** The head of any rope goes exactly where the moves take it. */
  lemma {:induction false} HeadFollowsMoves(n: nat, dirs: seq<Dir>)
    requires 0 < n
    ensures Run(Start(n), dirs)[0] == HeadAfter(dirs)
    decreases |dirs|
  {
    if |dirs| > 0 {
      HeadFollowsMoves(n, dirs[..|dirs| - 1]);
    }
  }
}
