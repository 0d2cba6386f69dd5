/** Beacon Exclusion Zone (day 15): Manhattan-distance sensors, the cells of one row a
    sensor rules out, and the scan of the rings just outside each sensor's reach. */
module Day15 {
  import opened Util
  import opened Text

  datatype Pos = Pos(x: int, y: int)

  /** `Pos::distance`: the Manhattan distance. */
  function Distance(a: Pos, b: Pos): nat {
    Abs(a.x - b.x) + Abs(a.y - b.y)
  }

  /** The distance is a metric: zero exactly on equal points, symmetric, and obeying the
      triangle inequality. */
  lemma DistanceMetric(a: Pos, b: Pos, c: Pos)
    ensures Distance(a, b) == 0 <==> a == b
    ensures Distance(a, b) == Distance(b, a)
    ensures Distance(a, c) <= Distance(a, b) + Distance(b, c)
  {
  }

  const FREQUENCY_SCALE: int := 4000000

  /** `tuning_frequency`. */
  function TuningFrequency(p: Pos): int {
    p.x * FREQUENCY_SCALE + p.y
  }

  /** For `y` below the scale, the frequency encodes the position: the quotient is `x`
      and the remainder is `y`. */
  lemma TuningDecode(p: Pos)
    requires 0 <= p.y < FREQUENCY_SCALE
    ensures TuningFrequency(p) / FREQUENCY_SCALE == p.x
    ensures TuningFrequency(p) % FREQUENCY_SCALE == p.y
  {
  }

  /** One report: the four captured coordinates, each an `i32`. */
  function ParseReport(sensorX: string, sensorY: string, beaconX: string, beaconY: string): (r: Option<(Pos, Pos)>)
    ensures r.Some? <==> (ParseSigned(sensorX, I32_MIN, I32_MAX).Some? && ParseSigned(sensorY, I32_MIN, I32_MAX).Some? &&
                          ParseSigned(beaconX, I32_MIN, I32_MAX).Some? && ParseSigned(beaconY, I32_MIN, I32_MAX).Some?)
    ensures r.Some? ==> r.value.0 == Pos(ParseSigned(sensorX, I32_MIN, I32_MAX).value, ParseSigned(sensorY, I32_MIN, I32_MAX).value)
    ensures r.Some? ==> r.value.1 == Pos(ParseSigned(beaconX, I32_MIN, I32_MAX).value, ParseSigned(beaconY, I32_MIN, I32_MAX).value)
  {
    match (ParseSigned(sensorX, I32_MIN, I32_MAX), ParseSigned(sensorY, I32_MIN, I32_MAX),
           ParseSigned(beaconX, I32_MIN, I32_MAX), ParseSigned(beaconY, I32_MIN, I32_MAX))
    case (Some(a), Some(b), Some(c), Some(d)) => Some((Pos(a, b), Pos(c, d)))
    case _ => None
  }

  /** A report is read back from the rendering of its coordinates. */
  lemma ParseReportRoundTrip(s: Pos, b: Pos)
    requires I32_MIN <= s.x <= I32_MAX && I32_MIN <= s.y <= I32_MAX
    requires I32_MIN <= b.x <= I32_MAX && I32_MIN <= b.y <= I32_MAX
    ensures ParseReport(IntToString(s.x), IntToString(s.y), IntToString(b.x), IntToString(b.y)) == Some((s, b))
  {
    ParseSignedRoundTrip(s.x, I32_MIN, I32_MAX);
    ParseSignedRoundTrip(s.y, I32_MIN, I32_MAX);
    ParseSignedRoundTrip(b.x, I32_MIN, I32_MAX);
    ParseSignedRoundTrip(b.y, I32_MIN, I32_MAX);
  }

  /** Sensor `s` rules out cell `(x, row)`: no farther than its beacon, and not the beacon
      itself. */
  predicate Excludes(s: Pos, b: Pos, x: int, row: int) {
    Distance(s, Pos(x, row)) <= Distance(s, b) && Pos(x, row) != b
  }

  /** The cells of `row` one sensor rules out, as `no_beacon_pos` enumerates them: nothing
      when the row is out of reach, otherwise the span `sx - dx ..= sx + dx` without the
      sensor's own beacon. */
  function RowCover(s: Pos, b: Pos, row: int): set<int> {
    var d := Distance(s, b);
    var dy := Abs(row - s.y);
    if d < dy then {}
    else
      var dx := d - dy;
      if row == b.y then Range(s.x - dx, s.x + dx) - {b.x} else Range(s.x - dx, s.x + dx)
  }

  /** The cells `RowCover` collects are exactly the cells the sensor rules out. */
  lemma RowCoverExcludes(s: Pos, b: Pos, row: int)
    ensures forall x :: x in RowCover(s, b, row) <==> Excludes(s, b, x, row)
  {
  }

  /** A row beyond the sensor's reach has no ruled-out cell. */
  lemma RowCoverOutOfReach(s: Pos, b: Pos, row: int)
    requires Distance(s, b) < Abs(row - s.y)
    ensures RowCover(s, b, row) == {}
  {
  }

  /** A reachable row without the beacon loses the whole span of `2 dx + 1` cells. */
  lemma RowCoverSpan(s: Pos, b: Pos, row: int)
    requires Abs(row - s.y) <= Distance(s, b) && b.y != row
    ensures |RowCover(s, b, row)| == 2 * (Distance(s, b) - Abs(row - s.y)) + 1
  {
    var dx := Distance(s, b) - Abs(row - s.y);
    RangeSize(s.x - dx, s.x + dx);
  }

  /** On the beacon's own row the span reaches exactly to the beacon, which is left out. */
  lemma RowCoverBeaconRow(s: Pos, b: Pos)
    ensures |RowCover(s, b, b.y)| == 2 * Abs(b.x - s.x)
  {
    var dx := Abs(b.x - s.x);
    var lo, hi := s.x - dx, s.x + dx;
    assert Distance(s, b) - Abs(b.y - s.y) == dx;
    var c := Range(lo, hi) - {b.x};
    assert RowCover(s, b, b.y) == c;
    SpanWithout(lo, hi, b.x);
    assert |c| == hi - lo == 2 * dx;
  }

  /** Removing one member of a range leaves `hi - lo` cells. */
  lemma SpanWithout(lo: int, hi: int, x: int)
    requires lo <= x <= hi
    ensures |Range(lo, hi) - {x}| == hi - lo
  {
    RangeSize(lo, hi);
  }

  /** `no_beacon_pos` before counting: the union over all sensors, duplicates merged. */
  function NoBeacon(input: seq<(Pos, Pos)>, row: int): (r: set<int>)
    ensures forall x :: x in r <==> exists i :: 0 <= i < |input| && Excludes(input[i].0, input[i].1, x, row)
  {
    if |input| == 0 then {}
    else
      var init := input[..|input| - 1];
      assert forall i :: 0 <= i < |init| ==> init[i] == input[i];
      RowCoverExcludes(Last(input).0, Last(input).1, row);
      NoBeacon(init, row) + RowCover(Last(input).0, Last(input).1, row)
  }

  /** `no_beacon_pos::<Y>`: how many cells of row `Y` cannot hold a beacon. */
  function NoBeaconPos(input: seq<(Pos, Pos)>, row: int): nat {
    |NoBeacon(input, row)|
  }

  /** A single sensor rules out the size of its own span. */
  lemma NoBeaconSingle(s: Pos, b: Pos, row: int)
    ensures NoBeacon([(s, b)], row) == RowCover(s, b, row)
  {
  }

  /** `part1`. */
  function Part1(input: seq<(Pos, Pos)>): nat {
    NoBeaconPos(input, 2000000)
  }

  /** The east, west, south and north corners at distance `d` (`corner_points`). */
  function CornerPoints(s: Pos, d: nat): (r: (Pos, Pos, Pos, Pos))
    ensures Distance(s, r.0) == d && Distance(s, r.1) == d && Distance(s, r.2) == d && Distance(s, r.3) == d
    ensures r.0.y == s.y && r.1.y == s.y && r.2.x == s.x && r.3.x == s.x
    ensures r.0.x > s.x - 1 && r.1.x < s.x + 1 && r.2.y > s.y - 1 && r.3.y < s.y + 1
  {
    (Pos(s.x + d, s.y), Pos(s.x - d, s.y), Pos(s.x, s.y + d), Pos(s.x, s.y - d))
  }

  /** The signed offset after `i` unit steps in the direction of `d`. */
  function Offset(d: int, i: nat): int {
    if d > 0 then i as int else if d < 0 then -(i as int) else 0
  }

  /** `diag_iter(a, b)`: from `a` to `b` in unit steps of `(signum dx, signum dy)`. The
      iterator only stops on reaching `b`, which it does exactly when the segment is a
      diagonal (or a single point), hence the precondition. */
  function Diag(a: Pos, b: Pos): (r: seq<Pos>)
    requires Abs(b.x - a.x) == Abs(b.y - a.y)
    ensures |r| == Abs(b.x - a.x) + 1
    ensures r[0] == a && Last(r) == b
    ensures forall i :: 0 <= i < |r| ==> r[i] == Pos(a.x + Offset(b.x - a.x, i), a.y + Offset(b.y - a.y, i))
    decreases Abs(b.x - a.x)
  {
    if a == b then [a]
    else
      var next := Pos(a.x + Sign(b.x - a.x), a.y + Sign(b.y - a.y));
      var rest := Diag(next, b);
      assert forall i :: 1 <= i < |rest| + 1 ==> ([a] + rest)[i] == rest[i - 1];
      [a] + rest
  }

  /** The four diagonals `find_beacon_pos` walks around a sensor, in its order: north to
      west, north to east, south to west, south to east. */
  function Perimeter(s: Pos, d: nat): (r: seq<Pos>)
    ensures |r| == 4 * (d + 1)
  {
    var (e, w, so, n) := CornerPoints(s, d);
    Diag(n, w) + Diag(n, e) + Diag(so, w) + Diag(so, e)
  }

  /** Every point of the walk lies exactly `d` from the sensor: the diagonals trace the
      ring of radius `d`. */
  lemma PerimeterRing(s: Pos, d: nat, p: Pos)
    requires p in Perimeter(s, d)
    ensures Distance(s, p) == d
  {
    var (e, w, so, n) := CornerPoints(s, d);
    var r1, r2, r3, r4 := Diag(n, w), Diag(n, e), Diag(so, w), Diag(so, e);
    assert Perimeter(s, d) == r1 + r2 + r3 + r4;
    if p in r1 {
      SideRing(s, d, n, w, p);
    } else if p in r2 {
      SideRing(s, d, n, e, p);
    } else if p in r3 {
      SideRing(s, d, so, w, p);
    } else {
      SideRing(s, d, so, e, p);
    }
  }

  /** A diagonal from a north or south corner to an east or west corner of the ring of
      radius `d` stays on that ring. */
  lemma SideRing(s: Pos, d: nat, a: Pos, b: Pos, p: Pos)
    requires a.x == s.x && Abs(a.y - s.y) == d && b.y == s.y && Abs(b.x - s.x) == d
    requires p in Diag(a, b)
    ensures Distance(s, p) == d
  {
    var r := Diag(a, b);
    var i :| 0 <= i < |r| && r[i] == p;
    SideDistance(s, d, a, b, i);
  }

  /** The point `i <= d` steps along such a diagonal lies `d` from the centre. */
  lemma SideDistance(s: Pos, d: nat, a: Pos, b: Pos, i: nat)
    requires a.x == s.x && Abs(a.y - s.y) == d && b.y == s.y && Abs(b.x - s.x) == d
    requires i <= d
    ensures Distance(s, Pos(a.x + Offset(b.x - a.x, i), a.y + Offset(b.y - a.y, i))) == d
  {
    var ox, oy := Offset(b.x - a.x, i), Offset(b.y - a.y, i);
    var p := Pos(a.x + ox, a.y + oy);
    if d == 0 {
      assert p == s;
    } else if a.y < s.y {
      assert oy == i;
      assert Abs(p.y - s.y) == d as int - i;
    } else {
      assert oy == -(i as int);
      assert Abs(p.y - s.y) == d as int - i;
    }
  }

  /** The candidate positions in scanning order: for every sensor, the ring one beyond its
      beacon distance. */
  function Scan(input: seq<(Pos, Pos)>): (r: seq<Pos>)
    ensures |r| == ScanLength(input)
  {
    if |input| == 0 then []
    else Perimeter(input[0].0, Distance(input[0].0, input[0].1) + 1) + Scan(input[1..])
  }

  function ScanLength(input: seq<(Pos, Pos)>): nat {
    if |input| == 0 then 0 else 4 * (Distance(input[0].0, input[0].1) + 2) + ScanLength(input[1..])
  }

  /** Every scanned position is just out of some sensor's reach: one farther than that
      sensor's beacon. */
  lemma {:induction false} ScanRing(input: seq<(Pos, Pos)>, p: Pos)
    requires p in Scan(input)
    ensures exists sb :: sb in input && Distance(sb.0, p) == Distance(sb.0, sb.1) + 1
  {
    var head := Perimeter(input[0].0, Distance(input[0].0, input[0].1) + 1);
    var tail := input[1..];
    assert Scan(input) == head + Scan(tail);
    if p in head {
      PerimeterRing(input[0].0, Distance(input[0].0, input[0].1) + 1, p);
      assert input[0] in input;
    } else {
      ScanRing(tail, p);
      var sb :| sb in tail && Distance(sb.0, p) == Distance(sb.0, sb.1) + 1;
      assert sb in input;
    }
  }

  /** Inside `[0, max]²` and strictly farther from every sensor than its beacon. */
  predicate Undetected(input: seq<(Pos, Pos)>, max: int, p: Pos) {
    && 0 <= p.x <= max && 0 <= p.y <= max
    && forall i :: 0 <= i < |input| ==> Distance(input[i].0, p) > Distance(input[i].0, input[i].1)
  }

  /** The first undetected position of `ps`. */
  function FirstUndetected(input: seq<(Pos, Pos)>, max: int, ps: seq<Pos>): (r: Option<nat>)
    ensures r.Some? ==> r.value < |ps| && Undetected(input, max, ps[r.value])
    ensures r.Some? ==> forall j :: 0 <= j < r.value ==> !Undetected(input, max, ps[j])
    ensures r.None? <==> forall j :: 0 <= j < |ps| ==> !Undetected(input, max, ps[j])
  {
    if |ps| == 0 then None
    else if Undetected(input, max, ps[0]) then Some(0)
    else match FirstUndetected(input, max, ps[1..])
      case None => None
      case Some(j) => Some(j + 1)
  }

  /** `find_beacon_pos::<MAX>`: the tuning frequency of the first undetected position on
      the scanned rings, or `None` when every scanned position is detected. */
  function FindBeaconPos(input: seq<(Pos, Pos)>, max: int): (r: Option<int>)
    requires 0 <= max
    ensures r.Some? ==> exists p :: p in Scan(input) && Undetected(input, max, p) && r.value == TuningFrequency(p)
    ensures r.None? <==> forall p :: p in Scan(input) ==> !Undetected(input, max, p)
  {
    var ps := Scan(input);
    match FirstUndetected(input, max, ps)
    case None => None
    case Some(j) => Some(TuningFrequency(ps[j]))
  }

  /** A reported position is undetected by every sensor and decodes back to itself. */
  lemma FoundBeacon(input: seq<(Pos, Pos)>, p: Pos)
    requires p in Scan(input) && Undetected(input, FREQUENCY_SCALE - 1, p)
    ensures forall i :: 0 <= i < |input| ==> !Excludes(input[i].0, input[i].1, p.x, p.y)
    ensures TuningFrequency(p) / FREQUENCY_SCALE == p.x && TuningFrequency(p) % FREQUENCY_SCALE == p.y
  {
    TuningDecode(p);
  }

  /** `part2`: `None` stands for the `unwrap` panic when no position qualifies. */
  function Part2(input: seq<(Pos, Pos)>): (r: Option<int>)
    ensures r.Some? ==> exists p :: p in Scan(input) && Undetected(input, 4000000, p) && r.value == TuningFrequency(p)
    ensures r.None? <==> forall p :: p in Scan(input) ==> !Undetected(input, 4000000, p)
  {
    FindBeaconPos(input, 4000000)
  }
}
