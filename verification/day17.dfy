/** Pyroclastic Flow (day 17): rocks of five shapes fall into a chamber seven units wide,
    pushed sideways by a repeating jet pattern, and the tower height is read off after a
    fixed number of rocks; a cache of chamber states lets whole cycles be skipped. */
module Day17 {
  import opened Util
  import opened Text

  /** `Dir`: the direction of one jet of hot gas. */
  datatype Jet = Left | Right

  /** `Dir::try_from`: `<` pushes left, `>` pushes right, every other byte is an error. */
  function JetOf(c: char): (r: Result<Jet>)
    ensures r.Ok? ==> JetChar(r.value) == c
    ensures r.Err? <==> c != '<' && c != '>'
  {
    match c
    case '<' => Ok(Left)
    case '>' => Ok(Right)
    case _ => Err
  }

  /** The character that stands for a jet in the puzzle input. */
  function JetChar(j: Jet): char {
    match j
    case Left => '<'
    case Right => '>'
  }

  /** Each jet is read back from its own character. */
  lemma JetOfChar(j: Jet)
    ensures JetOf(JetChar(j)) == Ok(j)
  {
  }

  /** The horizontal step a jet asks for. */
  function Dx(j: Jet): int {
    match j
    case Left => -1
    case Right => 1
  }

  /** Reads every character as a jet; the first unknown character makes the whole read fail
      (where `input_generator` unwraps and panics). */
  function ParseJets(s: string): (r: Option<seq<Jet>>)
    ensures r.Some? <==> forall i :: 0 <= i < |s| ==> s[i] == '<' || s[i] == '>'
    ensures r.Some? ==> |r.value| == |s| && forall i :: 0 <= i < |s| ==> JetChar(r.value[i]) == s[i]
  {
    if s == [] then Some([])
    else
      match JetOf(s[0])
      case Err => None
      case Ok(j) =>
        match ParseJets(s[1..])
        case None => None
        case Some(rest) => Some([j] + rest)
  }

  /** `input_generator`: the trimmed input, one jet per byte. */
  function InputGenerator(input: string): Option<seq<Jet>> {
    ParseJets(Trim(input))
  }

  /** The jets written as the puzzle writes them. */
  function RenderJets(jets: seq<Jet>): (s: string)
    ensures |s| == |jets|
    ensures forall i :: 0 <= i < |s| ==> s[i] == JetChar(jets[i])
  {
    seq(|jets|, i requires 0 <= i < |jets| => JetChar(jets[i]))
  }

  /** Different jets are written differently. */
  lemma JetCharInjective(a: Jet, b: Jet)
    requires JetChar(a) == JetChar(b)
    ensures a == b
  {
  }

  /** Reading the rendering of a jet pattern gives the pattern back. */
  lemma ParseRendered(jets: seq<Jet>)
    ensures ParseJets(RenderJets(jets)) == Some(jets)
  {
    var s := RenderJets(jets);
    var r := ParseJets(s);
    assert forall i :: 0 <= i < |s| ==> s[i] == '<' || s[i] == '>';
    forall i | 0 <= i < |jets|
      ensures r.value[i] == jets[i]
    {
      assert JetChar(r.value[i]) == s[i] == JetChar(jets[i]);
      JetCharInjective(r.value[i], jets[i]);
    }
    assert r.value == jets;
  }

  /** Reading the rendering of a jet pattern through `input_generator` gives the pattern
      back: the rendering has no whitespace to trim. */
  lemma {:induction false} InputOfRender(jets: seq<Jet>)
    ensures InputGenerator(RenderJets(jets)) == Some(jets)
  {
    var s := RenderJets(jets);
    if s != [] {
      assert s[0] == '<' || s[0] == '>';
      assert s[|s| - 1] == '<' || s[|s| - 1] == '>';
      TrimUnchanged(s);
    }
    ParseRendered(jets);
  }

  // ---------------------------------------------------------------------------------------
  // The chamber and the rocks

  /** `WIDTH`: the chamber is seven units wide. */
  const WIDTH: nat := 7

  /** One column of a rock: the lowest cell it covers, counted from the rock's base, and how
      many cells it covers upwards from there (0 for a column the rock leaves empty). */
  datatype Column = Column(start: nat, height: nat)

  /** A rock as seven columns; column `bx` stands at `bx + offset` in the chamber. */
  type Shape = s: seq<Column> | |s| == WIDTH witness [Column(0, 0), Column(0, 0), Column(0, 0),
                                                     Column(0, 0), Column(0, 0), Column(0, 0),
                                                     Column(0, 0)]

  /** `BLOCKS`: the horizontal bar, the plus, the mirrored L, the vertical bar and the square,
      each placed two units from the left wall. */
  const ROCKS: nat := 5

  const BLOCKS: seq<Shape> := [
    [Column(0, 0), Column(0, 0), Column(0, 1), Column(0, 1), Column(0, 1), Column(0, 1), Column(0, 0)],
    [Column(0, 0), Column(0, 0), Column(1, 1), Column(0, 3), Column(1, 1), Column(0, 0), Column(0, 0)],
    [Column(0, 0), Column(0, 0), Column(0, 1), Column(0, 1), Column(0, 3), Column(0, 0), Column(0, 0)],
    [Column(0, 0), Column(0, 0), Column(0, 4), Column(0, 0), Column(0, 0), Column(0, 0), Column(0, 0)],
    [Column(0, 0), Column(0, 0), Column(0, 2), Column(0, 2), Column(0, 0), Column(0, 0), Column(0, 0)]
  ]

  /** `levels`: for each of the seven columns, the heights of its occupied cells. */
  type Levels = l: seq<set<int>> | |l| == WIDTH witness [{}, {}, {}, {}, {}, {}, {}]

  predicate Occupied(levels: Levels, x: int, y: int) {
    0 <= x < WIDTH && y in levels[x]
  }

  /** The rock covers cell `(x, y)` when its base is at height `blockY` and its column `bx`
      at `bx + offset`. */
  predicate Covers(shape: Shape, offset: int, blockY: int, x: int, y: int) {
    0 <= x - offset < WIDTH
    && blockY + shape[x - offset].start <= y < blockY + shape[x - offset].start + shape[x - offset].height
  }

  /** Every non-empty column of the rock lies between the walls. */
  predicate InWalls(shape: Shape, offset: int) {
    forall bx :: 0 <= bx < WIDTH && shape[bx].height > 0 ==> 0 <= bx + offset < WIDTH
  }

  /** The rock may stand here: inside the walls and on no occupied cell. */
  ghost predicate Fits(levels: Levels, shape: Shape, offset: int, blockY: int) {
    InWalls(shape, offset)
    && forall x, y {:trigger Covers(shape, offset, blockY, x, y)} ::
         Covers(shape, offset, blockY, x, y) ==> !Occupied(levels, x, y)
  }

  /** A rock inside the walls covers no cell outside them. */
  lemma CoversInWalls(shape: Shape, offset: int, blockY: int, x: int, y: int)
    requires InWalls(shape, offset) && Covers(shape, offset, blockY, x, y)
    ensures 0 <= x < WIDTH
  {
    assert shape[x - offset].height > 0;
  }

  // ---------------------------------------------------------------------------------------
  // The sideways push (`horizontal_check`)

  /** `(lo..lo + n).any(|y| s.contains(&y))`. */
  function AnyIn(s: set<int>, lo: int, n: nat): bool {
    if n == 0 then false
    else lo + n - 1 in s || AnyIn(s, lo, n - 1)
  }

  /** `AnyIn` answers yes exactly when some height in `lo..lo + n` is in `s`. */
  lemma {:induction false} AnyInMeaning(s: set<int>, lo: int, n: nat)
    ensures AnyIn(s, lo, n) <==> exists y :: lo <= y < lo + n && y in s
  {
    if n > 0 && lo + n - 1 !in s {
      AnyInMeaning(s, lo, n - 1);
      if exists y :: lo <= y < lo + n && y in s {
        var y :| lo <= y < lo + n && y in s;
        assert y < lo + n - 1;
      }
    }
  }

  /** No height in `lo..hi` is in `s`. */
  predicate ClearRun(s: set<int>, lo: int, hi: int) {
    forall y :: lo <= y < hi ==> y !in s
  }

  /** Column `bx` of the rock is clear: it is empty, or it stands between the walls with
      none of its cells occupied. */
  predicate ColumnFits(levels: Levels, shape: Shape, bx: nat, offset: int, blockY: int)
    requires bx < WIDTH
  {
    shape[bx].height == 0
    || (0 <= bx + offset < WIDTH
        && ClearRun(levels[bx + offset], blockY + shape[bx].start, blockY + shape[bx].start + shape[bx].height))
  }

  /** One pass of the `horizontal_check` loop: a column outside the walls must be empty, a
      column inside them must cover no occupied cell. */
  function ColumnCheck(levels: Levels, shape: Shape, bx: nat, offset: int, blockY: int): bool
    requires bx < WIDTH
  {
    var x := bx + offset;
    var c := shape[bx];
    if x < 0 || x >= WIDTH then c.height == 0
    else !(c.height > 0 && AnyIn(levels[x], c.start + blockY, c.height))
  }

  /** One pass of the loop accepts exactly a clear column. */
  lemma ColumnCheckMeaning(levels: Levels, shape: Shape, bx: nat, offset: int, blockY: int)
    requires bx < WIDTH
    ensures ColumnCheck(levels, shape, bx, offset, blockY) <==> ColumnFits(levels, shape, bx, offset, blockY)
  {
    var x := bx + offset;
    var c := shape[bx];
    if 0 <= x < WIDTH {
      AnyInMeaning(levels[x], c.start + blockY, c.height);
    }
  }

  /** The `horizontal_check` loop over the first `n` columns of the rock. */
  function ColumnsFit(levels: Levels, shape: Shape, offset: int, blockY: int, n: nat): bool
    requires n <= WIDTH
  {
    if n == 0 then true
    else ColumnsFit(levels, shape, offset, blockY, n - 1)
         && ColumnCheck(levels, shape, n - 1, offset, blockY)
  }

  /** The loop accepts exactly when each of the first `n` columns is clear. */
  lemma {:induction false} ColumnsFitMeaning(levels: Levels, shape: Shape, offset: int, blockY: int, n: nat)
    requires n <= WIDTH
    ensures ColumnsFit(levels, shape, offset, blockY, n)
            <==> forall b {:trigger ColumnFits(levels, shape, b, offset, blockY)} ::
                   0 <= b < n ==> ColumnFits(levels, shape, b, offset, blockY)
  {
    if n > 0 {
      ColumnCheckMeaning(levels, shape, n - 1, offset, blockY);
      ColumnsFitMeaning(levels, shape, offset, blockY, n - 1);
    }
  }

  /** The cell-by-cell notion of fitting agrees with the column-by-column one. */
  lemma FitsByColumns(levels: Levels, shape: Shape, offset: int, blockY: int)
    ensures Fits(levels, shape, offset, blockY)
            <==> forall bx {:trigger ColumnFits(levels, shape, bx, offset, blockY)} ::
                   0 <= bx < WIDTH ==> ColumnFits(levels, shape, bx, offset, blockY)
  {
    if Fits(levels, shape, offset, blockY) {
      forall bx | 0 <= bx < WIDTH
        ensures ColumnFits(levels, shape, bx, offset, blockY)
      {
        if shape[bx].height > 0 {
          var x := bx + offset;
          forall y | blockY + shape[bx].start <= y < blockY + shape[bx].start + shape[bx].height
            ensures y !in levels[x]
          {
            assert Covers(shape, offset, blockY, x, y);
          }
        }
      }
    }
    if forall bx {:trigger ColumnFits(levels, shape, bx, offset, blockY)} ::
         0 <= bx < WIDTH ==> ColumnFits(levels, shape, bx, offset, blockY) {
      forall bx | 0 <= bx < WIDTH && shape[bx].height > 0
        ensures 0 <= bx + offset < WIDTH
      {
        assert ColumnFits(levels, shape, bx, offset, blockY);
      }
      forall x, y | Covers(shape, offset, blockY, x, y)
        ensures !Occupied(levels, x, y)
      {
        var bx: nat := x - offset;
        assert ColumnFits(levels, shape, bx, offset, blockY);
        assert x == bx + offset;
        assert shape[bx].height > 0;
        assert ClearRun(levels[x], blockY + shape[bx].start, blockY + shape[bx].start + shape[bx].height);
        assert y !in levels[x];
      }
    }
  }

  /** `horizontal_check(dx)`: the push `dx` when the rock fits after it, and 0 otherwise. */
  function HorizontalCheck(levels: Levels, shape: Shape, offset: int, blockY: int, dx: int): (r: int)
    ensures r == 0 || r == dx
  {
    if ColumnsFit(levels, shape, offset + dx, blockY, WIDTH) then dx else 0
  }

  /** A push is taken exactly when the rock fits where it would be pushed to: refused at a
      wall and refused into an occupied cell. */
  lemma HorizontalCheckFits(levels: Levels, shape: Shape, offset: int, blockY: int, dx: int)
    requires dx != 0
    ensures HorizontalCheck(levels, shape, offset, blockY, dx) == dx <==> Fits(levels, shape, offset + dx, blockY)
  {
    ColumnsFitMeaning(levels, shape, offset + dx, blockY, WIDTH);
    FitsByColumns(levels, shape, offset + dx, blockY);
  }

  // ---------------------------------------------------------------------------------------
  // Coming to rest

  /** Column `bx` of the rock covers a cell right above an occupied one. */
  predicate RestsColumn(levels: Levels, shape: Shape, bx: nat, offset: int, blockY: int)
    requires bx < WIDTH
  {
    shape[bx].height > 0 && 0 <= bx + offset < WIDTH && blockY + shape[bx].start - 1 in levels[bx + offset]
  }

  /** The rock stops falling: some column stands right on an occupied cell. */
  ghost predicate Rests(levels: Levels, shape: Shape, offset: int, blockY: int) {
    exists bx {:trigger RestsColumn(levels, shape, bx, offset, blockY)} ::
      0 <= bx < WIDTH && RestsColumn(levels, shape, bx, offset, blockY)
  }

  /** The landing test of the `'fall` loop over the first `n` columns of the rock; a column
      outside the walls must be empty (the source asserts it). */
  function RestsAny(levels: Levels, shape: Shape, offset: int, blockY: int, n: nat): bool
    requires n <= WIDTH && InWalls(shape, offset)
  {
    if n == 0 then false
    else
      var bx := n - 1;
      RestsAny(levels, shape, offset, blockY, bx)
      || (0 <= bx + offset < WIDTH && shape[bx].height > 0 && blockY + shape[bx].start - 1 in levels[bx + offset])
  }

  /** The landing test finds a resting column among the first `n` exactly when there is
      one. */
  lemma {:induction false} RestsAnyMeaning(levels: Levels, shape: Shape, offset: int, blockY: int, n: nat)
    requires n <= WIDTH && InWalls(shape, offset)
    ensures RestsAny(levels, shape, offset, blockY, n)
            <==> exists b {:trigger RestsColumn(levels, shape, b, offset, blockY)} ::
                   0 <= b < n && RestsColumn(levels, shape, b, offset, blockY)
  {
    if n > 0 {
      var bx := n - 1;
      RestsAnyMeaning(levels, shape, offset, blockY, bx);
      assert RestsColumn(levels, shape, bx, offset, blockY)
             <==> 0 <= bx + offset < WIDTH && shape[bx].height > 0 && blockY + shape[bx].start - 1 in levels[bx + offset];
    }
  }

  /** Lowering a clear run by one keeps it clear exactly when the height under it is free. */
  lemma ClearRunLower(s: set<int>, lo: int, hi: int)
    requires lo < hi && ClearRun(s, lo, hi)
    ensures ClearRun(s, lo - 1, hi - 1) <==> lo - 1 !in s
  {
    if lo - 1 !in s {
      forall y | lo - 1 <= y < hi - 1
        ensures y !in s
      {
        if y != lo - 1 {
          assert lo <= y < hi;
        }
      }
    }
  }

  /** Lowering one clear column by one unit keeps it clear exactly when it does not rest. */
  lemma ColumnLower(levels: Levels, shape: Shape, bx: nat, offset: int, blockY: int)
    requires bx < WIDTH && ColumnFits(levels, shape, bx, offset, blockY)
    ensures ColumnFits(levels, shape, bx, offset, blockY - 1) <==> !RestsColumn(levels, shape, bx, offset, blockY)
  {
    var c := shape[bx];
    if c.height > 0 {
      var x := bx + offset;
      var lo := blockY + c.start;
      ClearRunLower(levels[x], lo, lo + c.height);
      assert ColumnFits(levels, shape, bx, offset, blockY - 1) <==> ClearRun(levels[x], lo - 1, lo + c.height - 1);
      assert RestsColumn(levels, shape, bx, offset, blockY) <==> lo - 1 in levels[x];
    }
  }

  /** A rock that fits comes to rest exactly when it cannot move one unit down. */
  lemma RestsIffBlocked(levels: Levels, shape: Shape, offset: int, blockY: int)
    requires Fits(levels, shape, offset, blockY)
    ensures Rests(levels, shape, offset, blockY) <==> !Fits(levels, shape, offset, blockY - 1)
  {
    FitsByColumns(levels, shape, offset, blockY);
    FitsByColumns(levels, shape, offset, blockY - 1);
    if Rests(levels, shape, offset, blockY) {
      var bx :| 0 <= bx < WIDTH && RestsColumn(levels, shape, bx, offset, blockY);
      ColumnLower(levels, shape, bx, offset, blockY);
    } else {
      var lower := blockY - 1;
      forall bx | 0 <= bx < WIDTH
        ensures ColumnFits(levels, shape, bx, offset, lower)
      {
        ColumnLower(levels, shape, bx, offset, blockY);
      }
    }
  }

  /** Every column is occupied at height 0: the chamber floor. */
  predicate Floor(levels: Levels) {
    forall x :: 0 <= x < WIDTH ==> 0 in levels[x]
  }

  /** Some non-empty column of the rock starts at its base. */
  predicate Grounded(shape: Shape) {
    exists bx :: 0 <= bx < WIDTH && shape[bx].start == 0 && shape[bx].height > 0
  }

  /** A grounded rock never fits with its base on the floor: a rock that fits at a height
      of 0 or more is above it. */
  lemma FitsAboveFloor(levels: Levels, shape: Shape, offset: int, blockY: int)
    requires Floor(levels) && Grounded(shape) && Fits(levels, shape, offset, blockY) && 0 <= blockY
    ensures 1 <= blockY
  {
    var bx :| 0 <= bx < WIDTH && shape[bx].start == 0 && shape[bx].height > 0;
    var x := bx + offset;
    assert Covers(shape, offset, blockY, x, blockY);
    assert Occupied(levels, x, 0);
  }

  /** Every rock is grounded and spawns between the walls. */
  lemma BlockPlacement(k: nat)
    requires k < ROCKS
    ensures |BLOCKS| == ROCKS
    ensures Grounded(BLOCKS[k]) && InWalls(BLOCKS[k], 0)
  {
    assert BLOCKS[k][2].start == 0 || BLOCKS[k][3].start == 0;
    if BLOCKS[k][2].start == 0 {
      assert BLOCKS[k][2].height > 0;
    } else {
      assert BLOCKS[k][3].height > 0;
    }
  }

  /** Where a rock comes to rest, and the next jet to blow. */
  datatype Landing = Landing(offset: int, y: int, jet: nat)

  /** `'fall`: push (when the rock fits there), advance the jet, then either land (some
      column rests on an occupied cell) or lower the rock by one and go round again. */
  function Fall(levels: Levels, shape: Shape, jets: seq<Jet>, jet: nat, offset: int, blockY: int): (l: Landing)
    requires jet < |jets|
    requires Floor(levels) && Grounded(shape) && 1 <= blockY && Fits(levels, shape, offset, blockY)
    ensures l.jet < |jets|
    ensures 1 <= l.y <= blockY
    decreases blockY
  {
    var dx := Dx(jets[jet]);
    HorizontalCheckFits(levels, shape, offset, blockY, dx);
    var pushed := offset + HorizontalCheck(levels, shape, offset, blockY, dx);
    var next := (jet + 1) % |jets|;
    if RestsAny(levels, shape, pushed, blockY, WIDTH) then Landing(pushed, blockY, next)
    else
      RestsAnyMeaning(levels, shape, pushed, blockY, WIDTH);
      RestsIffBlocked(levels, shape, pushed, blockY);
      FitsAboveFloor(levels, shape, pushed, blockY - 1);
      Fall(levels, shape, jets, next, pushed, blockY - 1)
  }

  /** Where `Fall` stops, the rock fits and rests: it cannot move one unit further down. */
  lemma {:induction false} FallLands(levels: Levels, shape: Shape, jets: seq<Jet>, jet: nat, offset: int, blockY: int)
    requires jet < |jets|
    requires Floor(levels) && Grounded(shape) && 1 <= blockY && Fits(levels, shape, offset, blockY)
    ensures Fits(levels, shape, Fall(levels, shape, jets, jet, offset, blockY).offset,
                 Fall(levels, shape, jets, jet, offset, blockY).y)
    ensures Rests(levels, shape, Fall(levels, shape, jets, jet, offset, blockY).offset,
                  Fall(levels, shape, jets, jet, offset, blockY).y)
    ensures !Fits(levels, shape, Fall(levels, shape, jets, jet, offset, blockY).offset,
                  Fall(levels, shape, jets, jet, offset, blockY).y - 1)
    decreases blockY
  {
    var dx := Dx(jets[jet]);
    HorizontalCheckFits(levels, shape, offset, blockY, dx);
    var pushed := offset + HorizontalCheck(levels, shape, offset, blockY, dx);
    var next := (jet + 1) % |jets|;
    RestsAnyMeaning(levels, shape, pushed, blockY, WIDTH);
    RestsIffBlocked(levels, shape, pushed, blockY);
    if !RestsAny(levels, shape, pushed, blockY, WIDTH) {
      FitsAboveFloor(levels, shape, pushed, blockY - 1);
      FallLands(levels, shape, jets, next, pushed, blockY - 1);
    }
  }

  // ---------------------------------------------------------------------------------------
  // Landing

  /** The heights `lo..lo + n`, inserted one by one. */
  function Run(lo: int, n: nat): set<int> {
    if n == 0 then {} else Run(lo, n - 1) + {lo + n - 1}
  }

  /** `Run` holds exactly the heights from `lo` up to but excluding `lo + n`. */
  lemma {:induction false} RunMembers(lo: int, n: nat)
    ensures forall y :: y in Run(lo, n) <==> lo <= y < lo + n
  {
    if n > 0 {
      RunMembers(lo, n - 1);
    }
  }

  /** The cells the landing loop adds to chamber column `x`: the run
      `(y_start + block_y)..(y_start + block_y + height)` of the rock column above it. */
  function ColumnCells(shape: Shape, offset: int, blockY: int, x: int): set<int> {
    if 0 <= x - offset < WIDTH then Run(blockY + shape[x - offset].start, shape[x - offset].height) else {}
  }

  /** The landing loop: the rock's columns are added to the chamber. */
  function Land(levels: Levels, shape: Shape, offset: int, blockY: int): Levels {
    seq(WIDTH, x requires 0 <= x < WIDTH => levels[x] + ColumnCells(shape, offset, blockY, x))
  }

  /** Landing adds exactly the cells the rock covers inside the chamber, and nothing else
      changes. */
  lemma LandCells(levels: Levels, shape: Shape, offset: int, blockY: int)
    ensures forall x, y :: Occupied(Land(levels, shape, offset, blockY), x, y)
                           <==> Occupied(levels, x, y) || (0 <= x < WIDTH && Covers(shape, offset, blockY, x, y))
  {
    var r := Land(levels, shape, offset, blockY);
    forall x, y
      ensures Occupied(r, x, y) <==> Occupied(levels, x, y) || (0 <= x < WIDTH && Covers(shape, offset, blockY, x, y))
    {
      if 0 <= x < WIDTH {
        assert r[x] == levels[x] + ColumnCells(shape, offset, blockY, x);
        if 0 <= x - offset < WIDTH {
          RunMembers(blockY + shape[x - offset].start, shape[x - offset].height);
        }
      }
    }
  }

  /** The highest cell of a rock above its base, over its first `n` columns (-1 for
      none). */
  function TopOf(shape: Shape, n: nat): (t: int)
    requires n <= WIDTH
    ensures -1 <= t
  {
    if n == 0 then -1
    else
      var rest := TopOf(shape, n - 1);
      var c := shape[n - 1];
      if c.height > 0 then Max(c.start + c.height - 1, rest) else rest
  }

  /** `TopOf` bounds every non-empty column among the first `n` and is reached by one of
      them. */
  lemma {:induction false} TopOfBounds(shape: Shape, n: nat)
    requires n <= WIDTH
    ensures forall b :: 0 <= b < n && shape[b].height > 0 ==> shape[b].start + shape[b].height - 1 <= TopOf(shape, n)
    ensures TopOf(shape, n) == -1
            || exists b :: 0 <= b < n && shape[b].height > 0 && shape[b].start + shape[b].height - 1 == TopOf(shape, n)
  {
    if n > 0 {
      TopOfBounds(shape, n - 1);
    }
  }

  /** `top` is the height of the tallest occupied cell. */
  ghost predicate IsTop(levels: Levels, top: int) {
    (exists x :: 0 <= x < WIDTH && top in levels[x])
    && forall x, y :: Occupied(levels, x, y) ==> y <= top
  }

  /** The chamber after a landing reaches up to the old top or the rock's top cell. */
  lemma LandTop(levels: Levels, top: int, shape: Shape, offset: int, blockY: int)
    requires IsTop(levels, top) && Grounded(shape) && Fits(levels, shape, offset, blockY)
    ensures IsTop(Land(levels, shape, offset, blockY), Max(top, blockY + TopOf(shape, WIDTH)))
  {
    var r := Land(levels, shape, offset, blockY);
    var t := TopOf(shape, WIDTH);
    LandCells(levels, shape, offset, blockY);
    TopOfBounds(shape, WIDTH);
    var bx :| 0 <= bx < WIDTH && shape[bx].start == 0 && shape[bx].height > 0;
    assert t != -1;
    forall x, y | Occupied(r, x, y)
      ensures y <= Max(top, blockY + t)
    {
      if !Occupied(levels, x, y) {
        assert Covers(shape, offset, blockY, x, y);
        assert shape[x - offset].height > 0;
      }
    }
    if top < blockY + t {
      var b :| 0 <= b < WIDTH && shape[b].height > 0 && shape[b].start + shape[b].height - 1 == t;
      assert Covers(shape, offset, blockY, b + offset, blockY + t);
      assert Occupied(r, b + offset, blockY + t);
    } else {
      var x :| 0 <= x < WIDTH && top in levels[x];
      assert Occupied(levels, x, top);
      assert Occupied(r, x, top);
    }
  }

  // ---------------------------------------------------------------------------------------
  // Dropping rocks one after another

  /** The chamber, the height of its tallest cell and the position in the jet pattern. */
  datatype State = State(levels: Levels, top: int, jet: nat)

  ghost predicate Valid(st: State, jets: seq<Jet>) {
    Floor(st.levels) && IsTop(st.levels, st.top) && st.jet < |jets|
  }

  /** The empty chamber: every column holds just its floor cell at height 0. */
  function Start(): (st: State)
    ensures Floor(st.levels) && IsTop(st.levels, 0) && st.jet == 0
    ensures forall x, y :: Occupied(st.levels, x, y) <==> 0 <= x < WIDTH && y == 0
  {
    var st := State([{0}, {0}, {0}, {0}, {0}, {0}, {0}], 0, 0);
    assert Occupied(st.levels, 0, 0);
    st
  }

  /** A new rock spawns at offset 0 with its base four above the tallest cell, and it fits
      there. */
  lemma SpawnFits(st: State, jets: seq<Jet>, shape: Shape)
    requires Valid(st, jets) && InWalls(shape, 0)
    ensures Fits(st.levels, shape, 0, st.top + 4)
  {
    forall x, y | Covers(shape, 0, st.top + 4, x, y)
      ensures !Occupied(st.levels, x, y)
    {
      assert y > st.top;
    }
  }

  /** The floor keeps the tallest cell at height 0 or above. */
  lemma TopAboveFloor(st: State, jets: seq<Jet>)
    requires Valid(st, jets)
    ensures 0 <= st.top
  {
    assert Occupied(st.levels, 0, 0);
  }

  /** Where a rock of shape `shape` comes to rest in the chamber `st`: spawned with its base
      at `max_y + 4`, it only ever moves down from there. */
  function Spawn(st: State, jets: seq<Jet>, shape: Shape): (l: Landing)
    requires Valid(st, jets) && Grounded(shape) && InWalls(shape, 0)
    ensures l.jet < |jets| && 1 <= l.y <= st.top + 4
  {
    SpawnFits(st, jets, shape);
    TopAboveFloor(st, jets);
    Fall(st.levels, shape, jets, st.jet, 0, st.top + 4)
  }

  /** The spawned rock ends up in a place where it fits and rests: one unit lower it would
      not fit. */
  lemma SpawnLands(st: State, jets: seq<Jet>, shape: Shape)
    requires Valid(st, jets) && Grounded(shape) && InWalls(shape, 0)
    ensures Fits(st.levels, shape, Spawn(st, jets, shape).offset, Spawn(st, jets, shape).y)
    ensures Rests(st.levels, shape, Spawn(st, jets, shape).offset, Spawn(st, jets, shape).y)
    ensures !Fits(st.levels, shape, Spawn(st, jets, shape).offset, Spawn(st, jets, shape).y - 1)
  {
    SpawnFits(st, jets, shape);
    TopAboveFloor(st, jets);
    FallLands(st.levels, shape, jets, st.jet, 0, st.top + 4);
  }

  /** One rock of the `tetris` loop: spawn it, let it fall and land, and advance the jets.
      The chamber stays valid and the tower does not shrink. */
  function Drop(st: State, jets: seq<Jet>, shape: Shape): (r: State)
    requires Valid(st, jets) && Grounded(shape) && InWalls(shape, 0)
    ensures Valid(r, jets)
    ensures r.jet == Spawn(st, jets, shape).jet
    ensures st.top <= r.top
  {
    var l := Spawn(st, jets, shape);
    SpawnLands(st, jets, shape);
    var levels := Land(st.levels, shape, l.offset, l.y);
    LandTop(st.levels, st.top, shape, l.offset, l.y);
    LandCells(st.levels, shape, l.offset, l.y);
    assert Floor(levels) by {
      forall x | 0 <= x < WIDTH
        ensures 0 in levels[x]
      {
        assert Occupied(st.levels, x, 0);
      }
    }
    State(levels, Max(st.top, l.y + TopOf(shape, WIDTH)), l.jet)
  }

  /** A dropped rock adds exactly its own cells where it came to rest. */
  lemma DropCells(st: State, jets: seq<Jet>, shape: Shape)
    requires Valid(st, jets) && Grounded(shape) && InWalls(shape, 0)
    ensures forall x, y :: Occupied(Drop(st, jets, shape).levels, x, y)
                           <==> Occupied(st.levels, x, y)
                                || Covers(shape, Spawn(st, jets, shape).offset, Spawn(st, jets, shape).y, x, y)
  {
    var l := Spawn(st, jets, shape);
    SpawnLands(st, jets, shape);
    LandCells(st.levels, shape, l.offset, l.y);
    forall x, y | Covers(shape, l.offset, l.y, x, y)
      ensures 0 <= x < WIDTH
    {
      CoversInWalls(shape, l.offset, l.y, x, y);
    }
  }

  /** Dropping a rock frees no cell. */
  lemma DropKeeps(st: State, jets: seq<Jet>, shape: Shape)
    requires Valid(st, jets) && Grounded(shape) && InWalls(shape, 0)
    ensures forall x, y :: Occupied(st.levels, x, y) ==> Occupied(Drop(st, jets, shape).levels, x, y)
  {
    DropCells(st, jets, shape);
  }

  /** The chamber after rock number `i` (counting from 0) has been dropped on `st`: rock `i`
      has shape `i % 5`. */
  function Next(st: State, jets: seq<Jet>, i: nat): (r: State)
    requires Valid(st, jets)
    ensures Valid(r, jets)
  {
    var k := BlockIndex(i);
    BlockPlacement(k);
    Drop(st, jets, BLOCKS[k])
  }

  /** Rock `i` turns chamber `i` of the run into chamber `i + 1`. */
  ghost predicate Linked(jets: seq<Jet>, run: seq<State>, i: nat)
    requires i + 1 < |run| && Valid(run[i], jets)
  {
    run[i + 1] == Next(run[i], jets, i)
  }

  /** `run[i]` is the chamber after the first `i` rocks, with no cycle skipped: it starts
      empty and each chamber comes from the one before by dropping the next rock. */
  ghost predicate IsRun(jets: seq<Jet>, run: seq<State>) {
    0 < |run| && run[0] == Start()
    && (forall i :: 0 <= i < |run| ==> Valid(run[i], jets))
    && (forall i {:trigger Linked(jets, run, i)} :: 0 <= i && i + 1 < |run| ==> Linked(jets, run, i))
  }

  /** A run goes on by dropping the next rock on its last chamber. */
  lemma RunExtend(jets: seq<Jet>, run: seq<State>)
    requires IsRun(jets, run)
    ensures IsRun(jets, run + [Next(run[|run| - 1], jets, |run| - 1)])
  {
    var last := |run| - 1;
    var next := Next(run[last], jets, last);
    var longer := run + [next];
    AppendValid(jets, run, next);
    forall i | 0 <= i && i + 1 < |longer|
      ensures Linked(jets, longer, i)
    {
      if i < last {
        assert Linked(jets, run, i);
      }
    }
  }

  /** Appending a valid chamber to valid chambers keeps them all valid. */
  lemma AppendValid(jets: seq<Jet>, run: seq<State>, next: State)
    requires forall i :: 0 <= i < |run| ==> Valid(run[i], jets)
    requires Valid(next, jets)
    ensures forall i :: 0 <= i < |run + [next]| ==> Valid((run + [next])[i], jets)
  {
  }

  /** Two runs on the same jets agree as far as both go: the chamber after `i` rocks is
      determined by the jets. */
  lemma {:induction false} RunUnique(jets: seq<Jet>, a: seq<State>, b: seq<State>, i: nat)
    requires IsRun(jets, a) && IsRun(jets, b) && i < |a| && i < |b|
    ensures a[i] == b[i]
  {
    if i > 0 {
      RunUnique(jets, a, b, i - 1);
      assert Linked(jets, a, i - 1);
      assert Linked(jets, b, i - 1);
    }
  }

  /** Along a run the tower never shrinks and no cell is ever freed. */
  lemma {:induction false} RunGrows(jets: seq<Jet>, run: seq<State>, i: nat, j: nat)
    requires IsRun(jets, run) && i <= j < |run|
    ensures run[i].top <= run[j].top
    ensures forall x, y :: Occupied(run[i].levels, x, y) ==> Occupied(run[j].levels, x, y)
    decreases j - i
  {
    if i < j {
      RunGrows(jets, run, i, j - 1);
      assert Linked(jets, run, j - 1);
      var k := BlockIndex(j - 1);
      BlockPlacement(k);
      DropKeeps(run[j - 1], jets, BLOCKS[k]);
    }
  }

  // ---------------------------------------------------------------------------------------
  // Skipping cycles

  /** `i % BLOCKS.len()`: the shape of the `i`-th rock. */
  function BlockIndex(i: nat): (k: nat)
    ensures k < ROCKS
  {
    i % ROCKS
  }

  /** A number of rocks made of whole rounds of the five shapes. */
  predicate WholeRounds(d: nat) {
    d % ROCKS == 0
  }

  /** Adding whole rounds of shapes keeps the shape of the next rock. */
  lemma SameShape(a: nat, b: nat)
    requires b <= a && WholeRounds(a - b)
    ensures BlockIndex(a) == BlockIndex(b)
  {
    DivModUnique(a, ROCKS, (a - b) / ROCKS + b / ROCKS, b % ROCKS);
  }

  /** Rock counters with the same shape differ by whole rounds. */
  lemma ShapeDifference(a: nat, b: nat)
    requires b <= a && BlockIndex(a) == BlockIndex(b)
    ensures WholeRounds(a - b)
  {
    DivModUnique(a - b, ROCKS, a / ROCKS - b / ROCKS, 0);
  }

  /** Whole rounds added to whole rounds are whole rounds. */
  lemma RoundsSum(a: nat, b: nat)
    requires WholeRounds(a) && WholeRounds(b)
    ensures WholeRounds(a + b)
  {
    DivModUnique(a + b, ROCKS, a / ROCKS + b / ROCKS, 0);
  }

  /** Repeating whole rounds gives whole rounds. */
  lemma RoundsTimes(periods: nat, cycle: nat)
    requires WholeRounds(cycle)
    ensures WholeRounds(periods * cycle)
  {
    var c := cycle / ROCKS;
    assert periods * cycle == (periods * c) * ROCKS;
    DivModUnique(periods * cycle, ROCKS, periods * c, 0);
  }

  /** The skip of the `tetris` loop: as many whole cycles of `cycle` rocks as fit in the
      `left` rocks still to come, each adding `growth` to the height. */
  method SkipCycles(left: nat, cycle: nat, growth: int) returns (skip: nat, added: int)
    requires 0 < cycle
    ensures skip <= left < skip + cycle
    ensures WholeRounds(cycle) ==> WholeRounds(skip)
    ensures added * cycle == skip * growth
    ensures 0 <= growth ==> 0 <= added
  {
    var periods := left / cycle;
    skip := periods * cycle;
    added := periods * growth;
    assert added * cycle == periods * (growth * cycle) == skip * growth;
    if WholeRounds(cycle) {
      RoundsTimes(periods, cycle);
    }
  }

  /** Every cached entry was made at an earlier rock of the same shape, below the current
      top. */
  ghost predicate CacheOk(cache: map<(nat, nat, seq<(int, int)>), (nat, int)>, i: nat, top: int) {
    forall key :: key in cache ==> cache[key].0 < i && BlockIndex(cache[key].0) == key.0 && cache[key].1 <= top
  }

  /** One pass of the `tetris` loop past the cache: drop rock number `i` on the last chamber
      of the run, which is the chamber after `|run| - 1` rocks; skipped cycles keep the shape
      of rock `i` equal to that of rock `|run| - 1`. */
  method DropNext(st: State, jets: seq<Jet>, i: nat, ghost run: seq<State>) returns (next: State, ghost longer: seq<State>)
    requires IsRun(jets, run) && st == run[|run| - 1] && BlockIndex(i) == BlockIndex(|run| - 1)
    ensures IsRun(jets, longer) && longer == run + [next]
    ensures st.top <= next.top
  {
    var blockIndex := BlockIndex(i);
    BlockPlacement(blockIndex);
    RunExtend(jets, run);
    next := Drop(st, jets, BLOCKS[blockIndex]);
    longer := run + [next];
  }

  /** `tetris::<N>`: drop rocks until `N` have been accounted for, skipping whole cycles the
      first time a (rock shape, jet position, surface) key repeats, and return the skipped
      growth plus the tallest cell. `surface` stands for `calculate_normalized_surface`, which
      only serves as part of the cache key. There is no height for an empty jet pattern
      (the source indexes out of bounds). The ghost outputs say how the answer was reached:
      `run` holds the chambers of the rocks dropped one by one, `skipped` more rocks were
      accounted for by cycles of whole rounds of shapes, and `saved` is the height those
      cycles added. */
  method Tetris(jets: seq<Jet>, n: nat, surface: Levels -> seq<(int, int)>)
    returns (r: Option<int>, ghost run: seq<State>, ghost skipped: nat, ghost saved: int)
    ensures r.None? <==> |jets| == 0
    ensures r.Some? ==> IsRun(jets, run) && 1 < |run|
    ensures r.Some? ==> r.value == saved + run[|run| - 1].top
    ensures r.Some? ==> 0 <= saved && WholeRounds(skipped) && (skipped == 0 ==> saved == 0)
    ensures r.Some? ==> n <= |run| - 1 + skipped <= n + 1
  {
    if |jets| == 0 {
      return None, [], 0, 0;
    }
    var cache: map<(nat, nat, seq<(int, int)>), (nat, int)> := map[];
    var st := Start();
    var savedGrowth := 0;
    var i: nat := 0;
    ghost var simulated: nat := 0;
    run := [st];
    while true
      invariant IsRun(jets, run) && |run| == simulated + 1 && st == run[simulated]
      invariant simulated <= i <= n && WholeRounds(i - simulated)
      invariant 0 <= savedGrowth && (i == simulated ==> savedGrowth == 0)
      invariant CacheOk(cache, i, st.top)
      decreases n - i
    {
      var key := (BlockIndex(i), st.jet, surface(st.levels));
      cache, i, savedGrowth := Consult(cache, key, i, n, st.top, savedGrowth, simulated);
      SameShape(i, simulated);
      st, run := DropNext(st, jets, i, run);
      simulated := simulated + 1;
      i := i + 1;
      if i >= n {
        break;
      }
    }
    skipped := i - simulated;
    saved := savedGrowth;
    r := Some(savedGrowth + st.top);
  }

  /** The cache step of the `tetris` loop for rock `i` with the tower `top` high: on a
      repeated key, skip as many whole cycles since the key's first rock as fit before `n`
      and add the height they would have grown; otherwise remember the key. Skipped rocks are
      whole rounds of shapes, saved height never goes negative, and the cache stays ahead
      of the next rock. */
  method Consult(cache: map<(nat, nat, seq<(int, int)>), (nat, int)>, key: (nat, nat, seq<(int, int)>),
                 i: nat, n: nat, top: int, saved: int, ghost simulated: nat)
    returns (cache': map<(nat, nat, seq<(int, int)>), (nat, int)>, i': nat, saved': int)
    requires simulated <= i <= n && WholeRounds(i - simulated)
    requires key.0 == BlockIndex(i) && CacheOk(cache, i, top)
    requires 0 <= saved && (i == simulated ==> saved == 0)
    ensures i <= i' <= n && WholeRounds(i' - simulated)
    ensures CacheOk(cache', i' + 1, top)
    ensures 0 <= saved' && (i' == simulated ==> saved' == 0)
    ensures key !in cache ==> i' == i && saved' == saved && cache' == cache[key := (i, top)]
  {
    if key in cache {
      var (firstI, firstMaxY) := cache[key];
      ShapeDifference(i, firstI);
      var skip, added := SkipCycles(n - i, i - firstI, top - firstMaxY);
      RoundsSum(i - simulated, skip);
      cache', i', saved' := cache, i + skip, saved + added;
    } else {
      cache', i', saved' := cache[key := (i, top)], i, saved;
    }
  }

  /** `part1`: the tower height after 2022 rocks. */
  method Part1(jets: seq<Jet>, surface: Levels -> seq<(int, int)>)
    returns (r: Option<int>, ghost run: seq<State>, ghost skipped: nat, ghost saved: int)
    ensures r.None? <==> |jets| == 0
    ensures r.Some? ==> IsRun(jets, run) && r.value == saved + run[|run| - 1].top && 0 <= saved
    ensures r.Some? ==> 2022 <= |run| - 1 + skipped <= 2023
  {
    r, run, skipped, saved := Tetris(jets, 2022, surface);
  }

  /** `part2`: the tower height after a trillion rocks. */
  method Part2(jets: seq<Jet>, surface: Levels -> seq<(int, int)>)
    returns (r: Option<int>, ghost run: seq<State>, ghost skipped: nat, ghost saved: int)
    ensures r.None? <==> |jets| == 0
    ensures r.Some? ==> IsRun(jets, run) && r.value == saved + run[|run| - 1].top && 0 <= saved
    ensures r.Some? ==> 1000000000000 <= |run| - 1 + skipped <= 1000000000001
  {
    r, run, skipped, saved := Tetris(jets, 1000000000000, surface);
  }
}
