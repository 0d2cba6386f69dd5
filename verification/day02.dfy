/** Rock Paper Scissors (day 2): hand scores, the outcome table, and the two readings
    of the strategy guide. */
module Day02 {
  import opened Util
  import opened Text

  datatype Hand = Rock | Paper | Scissors

  /** `score`: the value of the shape itself. */
  function Score(h: Hand): (r: nat)
    ensures 1 <= r <= 3
  {
    match h
    case Rock => 1
    case Paper => 2
    case Scissors => 3
  }

  /** The hand `h` defeats. */
  function Beats(h: Hand): Hand {
    match h
    case Rock => Scissors
    case Paper => Rock
    case Scissors => Paper
  }

  /** `winning_score`: 6 for a win, 3 for a draw, 0 for a loss. */
  function WinningScore(me: Hand, other: Hand): (r: nat)
    ensures r == 3 <==> me == other
    ensures r == 6 <==> Beats(me) == other
    ensures r == 0 <==> Beats(other) == me
  {
    if me == other then 3
    else match (me, other)
      case (Rock, Paper) => 0
      case (Rock, Scissors) => 6
      case (Paper, Rock) => 6
      case (Paper, Scissors) => 0
      case (Scissors, Rock) => 0
      case (Scissors, Paper) => 6
  }

  /** A draw scores 3 and the two sides of any game share 6 points. */
  lemma WinningScoreSymmetry(a: Hand, b: Hand)
    ensures WinningScore(a, a) == 3
    ensures WinningScore(a, b) + WinningScore(b, a) == 6
  {
  }

  datatype Left = A | B | C
  datatype Right = X | Y | Z

  function LeftHand(l: Left): Hand {
    match l
    case A => Rock
    case B => Paper
    case C => Scissors
  }

  function RightHand(r: Right): Hand {
    match r
    case X => Rock
    case Y => Paper
    case Z => Scissors
  }

  /** `Left::from_str`. */
  function ParseLeft(s: string): (r: Result<Left>)
    ensures r.Ok? <==> s == "A" || s == "B" || s == "C"
    ensures r.Ok? ==> [("ABC")[LeftIndex(r.value)]] == s
  {
    match s
    case "A" => Ok(A)
    case "B" => Ok(B)
    case "C" => Ok(C)
    case _ => Err
  }

  function LeftIndex(l: Left): (i: nat)
    ensures i < 3
  {
    match l
    case A => 0
    case B => 1
    case C => 2
  }

  /** `Right::from_str`. */
  function ParseRight(s: string): (r: Result<Right>)
    ensures r.Ok? <==> s == "X" || s == "Y" || s == "Z"
    ensures r.Ok? ==> [("XYZ")[RightIndex(r.value)]] == s
  {
    match s
    case "X" => Ok(X)
    case "Y" => Ok(Y)
    case "Z" => Ok(Z)
    case _ => Err
  }

  function RightIndex(r: Right): (i: nat)
    ensures i < 3
  {
    match r
    case X => 0
    case Y => 1
    case Z => 2
  }

  /** `to_desired_hand`: the hand that loses (`X`), draws (`Y`) or wins (`Z`) against
      `other`. */
  function DesiredHand(r: Right, other: Hand): (h: Hand)
    ensures WinningScore(h, other) == 3 * RightIndex(r)
  {
    match (r, other)
    case (X, Rock) => Scissors
    case (X, Paper) => Rock
    case (X, Scissors) => Paper
    case (Y, _) => other
    case (Z, Rock) => Paper
    case (Z, Paper) => Scissors
    case (Z, Scissors) => Rock
  }

  /** The desired hand is the only one with the required outcome. */
  lemma DesiredHandUnique(r: Right, other: Hand, h: Hand)
    requires WinningScore(h, other) == 3 * RightIndex(r)
    ensures h == DesiredHand(r, other)
  {
  }

  /** `get_score_1`: the right column is my hand. */
  function RoundScore1(l: Left, r: Right): (s: nat)
    ensures 1 <= s <= 9
    ensures s == WinningScore(RightHand(r), LeftHand(l)) + RightIndex(r) + 1
  {
    var me := RightHand(r);
    WinningScore(me, LeftHand(l)) + Score(me)
  }

  /** `get_score_2`: the right column is the outcome. */
  function RoundScore2(l: Left, r: Right): (s: nat)
    ensures 1 <= s <= 9
    ensures s == 3 * RightIndex(r) + Score(DesiredHand(r, LeftHand(l)))
  {
    var me := DesiredHand(r, LeftHand(l));
    WinningScore(me, LeftHand(l)) + Score(me)
  }

  function Total1(rounds: seq<(Left, Right)>): nat {
    if |rounds| == 0 then 0
    else Total1(rounds[..|rounds| - 1]) + RoundScore1(rounds[|rounds| - 1].0, rounds[|rounds| - 1].1)
  }

  function Total2(rounds: seq<(Left, Right)>): nat {
    if |rounds| == 0 then 0
    else Total2(rounds[..|rounds| - 1]) + RoundScore2(rounds[|rounds| - 1].0, rounds[|rounds| - 1].1)
  }

  /** `part1` and `part2`: every round contributes between 1 and 9 points. */
  lemma {:induction false} TotalsBounded(rounds: seq<(Left, Right)>)
    ensures |rounds| <= Total1(rounds) <= 9 * |rounds|
    ensures |rounds| <= Total2(rounds) <= 9 * |rounds|
    decreases |rounds|
  {
    if |rounds| > 0 {
      TotalsBounded(rounds[..|rounds| - 1]);
    }
  }

  /** One line of the guide: trimmed, split at the first space into the two columns. An
      accepted line is, after trimming, exactly the two letters with one space between. */
  function ParseRound(line: string): (r: Result<(Left, Right)>)
    ensures r.Ok? ==> Trim(line) == ["ABC"[LeftIndex(r.value.0)], ' ', "XYZ"[RightIndex(r.value.1)]]
  {
    var v := SplitN(Trim(line), 2, ' ');
    if |v| < 2 then Err
    else match (ParseLeft(v[0]), ParseRight(v[1]))
      case (Ok(l), Ok(r)) =>
        SplitNJoin(Trim(line), 2, ' ');
        assert Join(v, ' ') == v[0] + [' '] + v[1];
        Ok((l, r))
      case _ => Err
  }

  /** The sample guide `A Y`, `B X`, `C Z` scores 15 and 12. */
  lemma Sample()
    ensures Total1([(A, Y), (B, X), (C, Z)]) == 15
    ensures Total2([(A, Y), (B, X), (C, Z)]) == 12
  {
    var g := [(A, Y), (B, X), (C, Z)];
    assert g[..2] == [(A, Y), (B, X)] && g[..2][..1] == [(A, Y)] && g[..1][..0] == [];
    assert Total1(g[..1]) == 8 && Total1(g[..2]) == 9;
    assert Total2(g[..1]) == 4 && Total2(g[..2]) == 5;
  }

  /** Every well-formed line reads back as its two columns. */
  lemma ParseRoundTrip(l: Left, r: Right)
    ensures ParseRound(["ABC"[LeftIndex(l)], ' ', "XYZ"[RightIndex(r)]]) == Ok((l, r))
  {
    var a := "ABC"[LeftIndex(l)];
    var c := "XYZ"[RightIndex(r)];
    ParseLeftOf(l);
    ParseRightOf(r);
    TwoColumns(a, c);
  }

  /** The letter of a left column value reads back as that value. */
  lemma ParseLeftOf(l: Left)
    ensures !IsWhitespace("ABC"[LeftIndex(l)])
    ensures ParseLeft(["ABC"[LeftIndex(l)]]) == Ok(l)
  {
    match l
    case A => assert ["ABC"[0]] == "A";
    case B => assert ["ABC"[1]] == "B";
    case C => assert ["ABC"[2]] == "C";
  }

  /** The letter of a right column value reads back as that value. */
  lemma ParseRightOf(r: Right)
    ensures !IsWhitespace("XYZ"[RightIndex(r)])
    ensures ParseRight(["XYZ"[RightIndex(r)]]) == Ok(r)
  {
    match r
    case X => assert ["XYZ"[0]] == "X";
    case Y => assert ["XYZ"[1]] == "Y";
    case Z => assert ["XYZ"[2]] == "Z";
  }

  lemma TwoColumns(a: char, c: char)
    requires !IsWhitespace(a) && !IsWhitespace(c)
    ensures SplitN(Trim([a, ' ', c]), 2, ' ') == [[a], [c]]
  {
    var line := [a, ' ', c];
    TrimUnchanged(line);
    assert line == [a] + [' '] + [c];
    SplitTwoAt([a], ' ', [c]);
  }
}
