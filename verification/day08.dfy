/** Treetop Tree House (day 8): a rectangular grid of tree heights, which trees are
    visible from outside the grid, and each tree's scenic score. */
module Day08 {
  import opened Util
  import opened Text

  /** `GridForest`: rows of heights, `trees[y][x]`. */
  datatype Forest = Forest(trees: seq<seq<nat>>, width: nat, height: nat)

  /** Every row has `width` trees and there are `height` rows. */
  predicate Valid(f: Forest) {
    |f.trees| == f.height && forall y :: 0 <= y < f.height ==> |f.trees[y]| == f.width
  }

  /** `GridForest::new`: the width is the first row's length; no rows at all
      (`trees[0]`) and ragged rows panic (`None`). */
  function NewForest(trees: seq<seq<nat>>): (r: Option<Forest>)
    ensures r.Some? <==> 0 < |trees| && forall y :: 0 <= y < |trees| ==> |trees[y]| == |trees[0]|
    ensures r.Some? ==> Valid(r.value) && r.value.trees == trees && r.value.width == |trees[0]|
  {
    if |trees| == 0 then None
    else if exists y :: 0 <= y < |trees| && |trees[y]| != |trees[0]| then None
    else Some(Forest(trees, |trees[0]|, |trees|))
  }

  /** The height `b - b'0'` gives for one byte of a line: the subtraction is on `u8` and
      wraps in a release build, so a digit gives its value and every other byte gives some
      number below 256 rather than an error. */
  function ByteHeight(c: char): (h: nat)
    ensures h < 256
    ensures IsDigit(c) ==> h == DigitValue(c)
    ensures !IsDigit(c) && c as int < 256 ==> 9 < h
  {
    ((c as int) - ('0' as int)) % 256
  }

  /** One line as heights, one per byte; nothing is refused. */
  function ParseRow(line: string): (r: seq<nat>)
    ensures |r| == |line|
    ensures forall i :: 0 <= i < |line| ==> r[i] == ByteHeight(line[i])
    decreases |line|
  {
    if |line| == 0 then [] else ParseRow(line[..|line| - 1]) + [ByteHeight(Last(line))]
  }

  /** A row of heights 0 to 9 written as digits. */
  function RenderRow(hs: seq<nat>): (line: string)
    requires forall i :: 0 <= i < |hs| ==> hs[i] <= 9
    ensures |line| == |hs| && AllDigits(line)
    decreases |hs|
  {
    if |hs| == 0 then "" else RenderRow(hs[..|hs| - 1]) + [DigitChar(Last(hs))]
  }

  /** Reading back a written row gives the heights. */
  lemma {:induction false} ParseRenderRow(hs: seq<nat>)
    requires forall i :: 0 <= i < |hs| ==> hs[i] <= 9
    ensures ParseRow(RenderRow(hs)) == hs
    decreases |hs|
  {
    if |hs| > 0 {
      var init := hs[..|hs| - 1];
      ParseRenderRow(init);
      var line := RenderRow(hs);
      var c := DigitChar(Last(hs));
      assert line == RenderRow(init) + [c];
      assert line[..|line| - 1] == RenderRow(init);
      assert Last(line) == c;
      assert ByteHeight(c) == Last(hs);
      assert hs == init + [Last(hs)];
    }
  }

  /** A byte that is not a digit still becomes a tree: `a` is 49 tall and `/` wraps to 255. */
  lemma NonDigitHeights()
    ensures ParseRow("a/") == [49, 255]
  {
    assert ParseRow("a") == [49];
  }

  predicate InBounds(f: Forest, x: nat, y: nat) {
    x < f.width && y < f.height
  }

  /** `get`: out-of-bounds coordinates panic. */
  function Get(f: Forest, x: nat, y: nat): (r: Option<nat>)
    requires Valid(f)
    ensures r.Some? <==> InBounds(f, x, y)
    ensures r.Some? ==> r.value == f.trees[y][x]
  {
    if x >= f.width || y >= f.height then None else Some(f.trees[y][x])
  }

  /** Column `x`, top to bottom. */
  function Column(f: Forest, x: nat): (c: seq<nat>)
    requires Valid(f) && x < f.width
    ensures |c| == f.height && forall y :: 0 <= y < f.height ==> c[y] == f.trees[y][x]
  {
    seq(f.height, y requires 0 <= y < f.height => f.trees[y][x])
  }

  function Reverse(s: seq<nat>): (r: seq<nat>)
    ensures |r| == |s| && forall i :: 0 <= i < |s| ==> r[i] == s[|s| - 1 - i]
  {
    if |s| == 0 then [] else [Last(s)] + Reverse(s[..|s| - 1])
  }

  /** The four lines of sight from `(x, y)`, each in the order a viewer at the tree
      sees them: left, right, up, down. */
  function LookLeft(f: Forest, x: nat, y: nat): seq<nat>
    requires Valid(f) && InBounds(f, x, y)
  {
    Reverse(f.trees[y][..x])
  }

  function LookRight(f: Forest, x: nat, y: nat): seq<nat>
    requires Valid(f) && InBounds(f, x, y)
  {
    f.trees[y][x + 1..]
  }

  function LookUp(f: Forest, x: nat, y: nat): seq<nat>
    requires Valid(f) && InBounds(f, x, y)
  {
    Reverse(Column(f, x)[..y])
  }

  function LookDown(f: Forest, x: nat, y: nat): seq<nat>
    requires Valid(f) && InBounds(f, x, y)
  {
    Column(f, x)[y + 1..]
  }

  /** Every tree of `s` is strictly lower than `h` (`all(|t| t < tree)`). */
  function AllLower(s: seq<nat>, h: nat): (b: bool)
    ensures b <==> forall i :: 0 <= i < |s| ==> s[i] < h
  {
    if |s| == 0 then true else s[0] < h && AllLower(s[1..], h)
  }

  /** Reference definition: in at least one of the four directions, every tree up to the
      edge is strictly lower. */
  predicate Visible(f: Forest, x: nat, y: nat)
    requires Valid(f) && InBounds(f, x, y)
  {
    var h := f.trees[y][x];
    || (forall x' :: 0 <= x' < x ==> f.trees[y][x'] < h)
    || (forall x' :: x < x' < f.width ==> f.trees[y][x'] < h)
    || (forall y' :: 0 <= y' < y ==> f.trees[y'][x] < h)
    || (forall y' :: y < y' < f.height ==> f.trees[y'][x] < h)
  }

  /** `is_visible`: the four directions tried in turn; out of bounds panics. */
  function IsVisible(f: Forest, x: nat, y: nat): (r: Option<bool>)
    requires Valid(f)
    ensures r.Some? <==> InBounds(f, x, y)
    ensures r.Some? ==> (r.value <==> Visible(f, x, y))
  {
    match Get(f, x, y)
    case None => None
    case Some(h) =>
      var row := f.trees[y];
      var col := Column(f, x);
      assert forall x' :: 0 <= x' < x ==> row[..x][x'] == row[x'];
      assert forall x' :: x < x' < f.width ==> row[x + 1..][x' - x - 1] == row[x'];
      assert forall y' :: 0 <= y' < y ==> col[..y][y'] == col[y'];
      assert forall y' :: y < y' < f.height ==> col[y + 1..][y' - y - 1] == col[y'];
      Some(AllLower(row[..x], h) || AllLower(row[x + 1..], h) || AllLower(col[..y], h) || AllLower(col[y + 1..], h))
  }

  /** Trees on the border are always visible: one line of sight is empty. */
  lemma BorderVisible(f: Forest, x: nat, y: nat)
    requires Valid(f) && InBounds(f, x, y)
    requires x == 0 || y == 0 || x == f.width - 1 || y == f.height - 1
    ensures IsVisible(f, x, y) == Some(true)
  {
  }

  /** `take_while(|t| t < tree).count()`: the run of lower trees at the front. */
  function LowerRun(s: seq<nat>, h: nat): (k: nat)
    ensures k <= |s|
    ensures forall i :: 0 <= i < k ==> s[i] < h
    ensures k < |s| ==> s[k] >= h
  {
    if |s| == 0 || s[0] >= h then 0 else 1 + LowerRun(s[1..], h)
  }

  /** One factor of `scenic_score`: the trees seen along `s` up to and including the
      first one at least as tall, capped by the distance to the edge. */
  function ViewingDistance(s: seq<nat>, h: nat): (d: nat)
    ensures d <= |s|
    ensures |s| == 0 ==> d == 0
    ensures (exists i :: 0 <= i < |s| && s[i] >= h) ==> 0 < d && s[d - 1] >= h && forall i :: 0 <= i < d - 1 ==> s[i] < h
    ensures (forall i :: 0 <= i < |s| ==> s[i] < h) ==> d == |s|
  {
    Min(|s|, LowerRun(s, h) + 1)
  }

  /** The product of the four viewing distances of an in-bounds tree. */
  function Score(f: Forest, x: nat, y: nat): nat
    requires Valid(f) && InBounds(f, x, y)
  {
    var h := f.trees[y][x];
    Product4(ViewingDistance(LookLeft(f, x, y), h), ViewingDistance(LookRight(f, x, y), h),
             ViewingDistance(LookUp(f, x, y), h), ViewingDistance(LookDown(f, x, y), h))
  }

  function Product4(a: nat, b: nat, c: nat, d: nat): nat {
    a * b * c * d
  }

  /** `scenic_score`: out of bounds panics. */
  function ScenicScore(f: Forest, x: nat, y: nat): (r: Option<nat>)
    requires Valid(f)
    ensures r.Some? <==> InBounds(f, x, y)
    ensures r.Some? ==> r.value == Score(f, x, y)
  {
    match Get(f, x, y)
    case None => None
    case Some(_) => Some(Score(f, x, y))
  }

  /** A tree on the border scores 0: one viewing distance is 0. */
  lemma BorderScore(f: Forest, x: nat, y: nat)
    requires Valid(f) && InBounds(f, x, y)
    requires x == 0 || y == 0 || x == f.width - 1 || y == f.height - 1
    ensures Score(f, x, y) == 0
  {
    var h := f.trees[y][x];
    var l := ViewingDistance(LookLeft(f, x, y), h);
    var r := ViewingDistance(LookRight(f, x, y), h);
    var u := ViewingDistance(LookUp(f, x, y), h);
    var d := ViewingDistance(LookDown(f, x, y), h);
    assert l == 0 || r == 0 || u == 0 || d == 0;
    ZeroFactor(l, r, u, d);
  }

  lemma ZeroFactor(a: nat, b: nat, c: nat, d: nat)
    requires a == 0 || b == 0 || c == 0 || d == 0
    ensures Product4(a, b, c, d) == 0
  {
  }

  /** Each viewing distance is at most the distance to that edge, so the score is
      bounded by the product of the four edge distances. */
  lemma ScoreBound(f: Forest, x: nat, y: nat)
    requires Valid(f) && InBounds(f, x, y)
    ensures Score(f, x, y) <= Product4(x, f.width - x - 1, y, f.height - y - 1)
  {
    var h := f.trees[y][x];
    var l := ViewingDistance(LookLeft(f, x, y), h);
    var r := ViewingDistance(LookRight(f, x, y), h);
    var u := ViewingDistance(LookUp(f, x, y), h);
    var d := ViewingDistance(LookDown(f, x, y), h);
    SightLengths(f, x, y);
    assert Score(f, x, y) == Product4(l, r, u, d);
    ProductBound(l, x, r, f.width - x - 1, u, y, d, f.height - y - 1);
  }

  /** Each line of sight reaches exactly to its edge. */
  lemma SightLengths(f: Forest, x: nat, y: nat)
    requires Valid(f) && InBounds(f, x, y)
    ensures |LookLeft(f, x, y)| == x && |LookRight(f, x, y)| == f.width - x - 1
    ensures |LookUp(f, x, y)| == y && |LookDown(f, x, y)| == f.height - y - 1
  {
  }

  lemma ProductBound(a: nat, a': nat, b: nat, b': nat, c: nat, c': nat, d: nat, d': nat)
    requires a <= a' && b <= b' && c <= c' && d <= d'
    ensures Product4(a, b, c, d) <= Product4(a', b', c', d')
  {
    MulMono(a, a', b, b');
    MulMono(a * b, a' * b', c, c');
    MulMono(a * b * c, a' * b' * c', d, d');
  }

  lemma MulMono(a: nat, a': nat, b: nat, b': nat)
    requires a <= a' && b <= b'
    ensures a * b <= a' * b'
  {
    assert a * b <= a' * b;
    assert a' * b <= a' * b';
  }

  /** Visible trees in column `x` among the first `n` rows. */
  function CountColumn(f: Forest, x: nat, n: nat): (c: nat)
    requires Valid(f) && x < f.width && n <= f.height
    ensures c <= n
  {
    if n == 0 then 0
    else CountColumn(f, x, n - 1) + (if Visible(f, x, n - 1) then 1 else 0)
  }

  /** Visible trees in the first `m` columns: `part1`'s count walks the grid column by
      column. */
  function CountColumns(f: Forest, m: nat): (c: nat)
    requires Valid(f) && m <= f.width
    ensures c <= m * f.height
  {
    if m == 0 then 0 else CountColumns(f, m - 1) + CountColumn(f, m - 1, f.height)
  }

  /** The visible trees among the first `n` rows of column `x`, as positions. */
  function VisibleInColumn(f: Forest, x: nat, n: nat): set<(nat, nat)>
    requires Valid(f) && x < f.width && n <= f.height
  {
    set y: nat | y < n && Visible(f, x, y) :: (x, y)
  }

  /** The visible trees of the first `m` columns, as positions. */
  function VisibleTrees(f: Forest, m: nat): set<(nat, nat)>
    requires Valid(f) && m <= f.width
  {
    set x: nat, y: nat | x < m && y < f.height && Visible(f, x, y) :: (x, y)
  }

  /** Counting down a column counts its visible trees. */
  lemma {:induction false} CountColumnCounts(f: Forest, x: nat, n: nat)
    requires Valid(f) && x < f.width && n <= f.height
    ensures CountColumn(f, x, n) == |VisibleInColumn(f, x, n)|
    decreases n
  {
    if n > 0 {
      var y := n - 1;
      CountColumnCounts(f, x, y);
      ColumnStep(f, x, y);
    }
  }

  /** One more row adds its tree to the column's visible set exactly when it is visible. */
  lemma ColumnStep(f: Forest, x: nat, y: nat)
    requires Valid(f) && x < f.width && y < f.height
    ensures Visible(f, x, y) ==> VisibleInColumn(f, x, y + 1) == VisibleInColumn(f, x, y) + {(x, y)}
    ensures Visible(f, x, y) ==> (x, y) !in VisibleInColumn(f, x, y)
    ensures !Visible(f, x, y) ==> VisibleInColumn(f, x, y + 1) == VisibleInColumn(f, x, y)
  {
    var a, b := VisibleInColumn(f, x, y), VisibleInColumn(f, x, y + 1);
    forall p | p in b ensures p in a || p == (x, y) {
      var (_, v) := p;
      if v < y { assert p in a; }
    }
    forall p | p in a ensures p in b && p != (x, y) {
    }
  }

  /** Counting column by column counts the visible trees of those columns. */
  lemma {:induction false} CountColumnsCounts(f: Forest, m: nat)
    requires Valid(f) && m <= f.width
    ensures CountColumns(f, m) == |VisibleTrees(f, m)|
    decreases m
  {
    if m > 0 {
      var x := m - 1;
      CountColumnsCounts(f, x);
      CountColumnCounts(f, x, f.height);
      ColumnsStep(f, x);
    }
  }

  /** One more column adds its visible trees, none of which were counted before. */
  lemma ColumnsStep(f: Forest, x: nat)
    requires Valid(f) && x < f.width
    ensures VisibleTrees(f, x + 1) == VisibleTrees(f, x) + VisibleInColumn(f, x, f.height)
    ensures VisibleTrees(f, x) !! VisibleInColumn(f, x, f.height)
  {
    var a, b, c := VisibleTrees(f, x), VisibleInColumn(f, x, f.height), VisibleTrees(f, x + 1);
    forall p | p in c ensures p in a || p in b {
      var (u, v) := p;
      if u < x { assert p in a; } else { assert p in b; }
    }
    forall p | p in a ensures p in c && p !in b {
    }
    forall p | p in b ensures p in c {
    }
  }

  /** `part1`: the number of visible trees. */
  function Part1(f: Forest): (n: nat)
    requires Valid(f)
    ensures n == |set x: nat, y: nat | x < f.width && y < f.height && Visible(f, x, y) :: (x, y)|
    ensures n <= f.width * f.height
  {
    CountColumnsCounts(f, f.width);
    CountColumns(f, f.width)
  }

  /** In a grid at most two trees wide or high every tree is on the border. */
  lemma {:induction false} ThinColumnVisible(f: Forest, x: nat, n: nat)
    requires Valid(f) && x < f.width && n <= f.height
    requires f.width <= 2 || f.height <= 2
    ensures CountColumn(f, x, n) == n
    decreases n
  {
    if n > 0 {
      BorderVisible(f, x, n - 1);
      ThinColumnVisible(f, x, n - 1);
    }
  }

  lemma {:induction false} ThinGridVisible(f: Forest, m: nat)
    requires Valid(f) && m <= f.width
    requires f.width <= 2 || f.height <= 2
    ensures CountColumns(f, m) == m * f.height
    decreases m
  {
    if m > 0 {
      ThinGridVisible(f, m - 1);
      ThinColumnVisible(f, m - 1, f.height);
    }
  }

  /** Every tree's score, column by column. */
  function ScoreTable(f: Forest): (t: seq<seq<int>>)
    requires Valid(f)
    ensures |t| == f.width
    ensures forall x :: 0 <= x < f.width ==> |t[x]| == f.height
    ensures forall x, y :: 0 <= x < f.width && 0 <= y < f.height ==> t[x][y] == Score(f, x, y)
  {
    seq(f.width, x requires 0 <= x < f.width => seq(f.height, y requires 0 <= y < f.height => Score(f, x, y) as int))
  }

  /** The largest entry among the first `m` columns of a table with non-empty columns. */
  function Best(t: seq<seq<int>>, m: nat): (b: int)
    requires 0 < m <= |t| && forall x :: 0 <= x < |t| ==> 0 < |t[x]|
    ensures exists x, y :: 0 <= x < m && 0 <= y < |t[x]| && b == t[x][y]
    ensures forall x, y :: 0 <= x < m && 0 <= y < |t[x]| ==> t[x][y] <= b
  {
    var row := t[m - 1];
    var col := MaxOf(row);
    assert exists y :: 0 <= y < |row| && col == row[y];
    if m == 1 then col else Max(Best(t, m - 1), col)
  }

  /** `part2`: the best scenic score; an empty grid has none (`max().unwrap()`). */
  function Part2(f: Forest): (r: Option<nat>)
    requires Valid(f)
    ensures r.Some? <==> 0 < f.width && 0 < f.height
    ensures r.Some? ==> exists x: nat, y: nat :: InBounds(f, x, y) && ScenicScore(f, x, y) == Some(r.value)
    ensures r.Some? ==> forall x: nat, y: nat :: InBounds(f, x, y) ==> ScenicScore(f, x, y).value <= r.value
  {
    if f.width == 0 || f.height == 0 then None
    else
      var b := Best(ScoreTable(f), f.width);
      BestScore(f, b);
      Some(b)
  }

  /** The best entry of the score table is the score of some tree and no tree scores more. */
  lemma BestScore(f: Forest, b: int)
    requires Valid(f) && 0 < f.width && 0 < f.height
    requires b == Best(ScoreTable(f), f.width)
    ensures exists x: nat, y: nat :: InBounds(f, x, y) && ScenicScore(f, x, y) == Some(b)
    ensures forall x: nat, y: nat :: InBounds(f, x, y) ==> ScenicScore(f, x, y).value <= b
  {
    var t := ScoreTable(f);
    var x: nat, y: nat :| x < f.width && y < |t[x]| && b == t[x][y];
    TableEntry(f, x, y);
    assert ScenicScore(f, x, y) == Some(b);
    forall x': nat, y': nat | InBounds(f, x', y')
      ensures ScenicScore(f, x', y').value <= b
    {
      TableEntry(f, x', y');
    }
  }

  /** The table holds each tree's score at its coordinates. */
  lemma TableEntry(f: Forest, x: nat, y: nat)
    requires Valid(f) && InBounds(f, x, y)
    ensures x < |ScoreTable(f)| && y < |ScoreTable(f)[x]| && ScoreTable(f)[x][y] == Score(f, x, y)
  {
  }

  const SAMPLE: seq<seq<nat>> := [[3, 0, 3, 7, 3], [2, 5, 5, 1, 2], [6, 5, 3, 3, 2], [3, 3, 5, 4, 9], [3, 5, 3, 9, 0]]

  /** The sample grid: the tree at (2, 1) scores 4. */
  lemma SampleScore1()
    ensures Valid(Forest(SAMPLE, 5, 5))
    ensures ScenicScore(Forest(SAMPLE, 5, 5), 2, 1) == Some(4)
  {
    SampleLooks1();
    assert ViewingDistance([5, 2], 5) == 1;
    assert ViewingDistance([1, 2], 5) == 2;
    assert ViewingDistance([3], 5) == 1;
    assert ViewingDistance([3, 5, 3], 5) == 2;
  }

  lemma SampleLooks1()
    ensures Valid(Forest(SAMPLE, 5, 5)) && SAMPLE[1][2] == 5
    ensures LookLeft(Forest(SAMPLE, 5, 5), 2, 1) == [5, 2]
    ensures LookRight(Forest(SAMPLE, 5, 5), 2, 1) == [1, 2]
    ensures LookUp(Forest(SAMPLE, 5, 5), 2, 1) == [3]
    ensures LookDown(Forest(SAMPLE, 5, 5), 2, 1) == [3, 5, 3]
  {
    var f := Forest(SAMPLE, 5, 5);
    assert SAMPLE[1][..2] == [2, 5];
    assert Column(f, 2)[..1] == [3];
    assert Column(f, 2)[2..] == [3, 5, 3];
  }

  /** The sample grid: the tree at (2, 3) scores 8. */
  lemma SampleScore2()
    ensures Valid(Forest(SAMPLE, 5, 5))
    ensures ScenicScore(Forest(SAMPLE, 5, 5), 2, 3) == Some(8)
  {
    SampleLooks2();
    assert ViewingDistance([3, 3], 5) == 2;
    assert ViewingDistance([4, 9], 5) == 2;
    assert ViewingDistance([3, 5, 3], 5) == 2;
    assert ViewingDistance([3], 5) == 1;
  }

  lemma SampleLooks2()
    ensures Valid(Forest(SAMPLE, 5, 5)) && SAMPLE[3][2] == 5
    ensures LookLeft(Forest(SAMPLE, 5, 5), 2, 3) == [3, 3]
    ensures LookRight(Forest(SAMPLE, 5, 5), 2, 3) == [4, 9]
    ensures LookUp(Forest(SAMPLE, 5, 5), 2, 3) == [3, 5, 3]
    ensures LookDown(Forest(SAMPLE, 5, 5), 2, 3) == [3]
  {
    var f := Forest(SAMPLE, 5, 5);
    assert Column(f, 2)[..3] == [3, 5, 3];
    assert Column(f, 2)[4..] == [3];
  }
}
