/** Supply Stacks (day 5): crate stacks rearranged one crate at a time (CrateMover
    9000) or several at once (CrateMover 9001). */
module Day05 {
  import opened Util

  type Stacks = seq<seq<char>>

  /** A move, already converted to 0-based stack indices. */
  datatype Move = Move(count: nat, from: nat, to: nat)

  predicate InRange(st: Stacks, m: Move) {
    m.from < |st| && m.to < |st|
  }

  /** `do_multi_move` does not panic: the source stack holds at least `count` crates. */
  predicate CanMultiMove(st: Stacks, m: Move) {
    InRange(st, m) && m.count <= |st[m.from]|
  }

  /** `do_move` does not panic: every `pop` finds a crate. When source and target are the
      same stack a crate is popped and pushed back, so one crate suffices. */
  predicate CanMove(st: Stacks, m: Move) {
    InRange(st, m) && (if m.from == m.to then m.count == 0 || 0 < |st[m.from]| else m.count <= |st[m.from]|)
  }

  function Reverse(s: seq<char>): (r: seq<char>)
    ensures |r| == |s| && forall i :: 0 <= i < |s| ==> r[i] == s[|s| - 1 - i]
  {
    if |s| == 0 then [] else [s[|s| - 1]] + Reverse(s[..|s| - 1])
  }

  function TotalCrates(st: Stacks): nat {
    if |st| == 0 then 0 else TotalCrates(st[..|st| - 1]) + |st[|st| - 1]|
  }

  lemma {:induction false} TotalCratesUpdate(st: Stacks, i: nat, s: seq<char>)
    requires i < |st|
    ensures TotalCrates(st[i := s]) + |st[i]| == TotalCrates(st) + |s|
    decreases |st|
  {
    var n := |st| - 1;
    if i < n {
      assert st[i := s][..n] == st[..n][i := s];
      TotalCratesUpdate(st[..n], i, s);
    } else {
      assert st[i := s][..n] == st[..n];
    }
  }

  /** `do_multi_move`: the top `count` crates move together, keeping their order. */
  function MultiMove(st: Stacks, m: Move): (r: Stacks)
    requires CanMultiMove(st, m)
    ensures |r| == |st|
    ensures forall i :: 0 <= i < |st| && i != m.from && i != m.to ==> r[i] == st[i]
    ensures m.from != m.to ==>
      var f := st[m.from];
      r[m.from] == f[..|f| - m.count] && r[m.to] == st[m.to] + f[|f| - m.count..]
    ensures m.from == m.to ==> r == st
    ensures TotalCrates(r) == TotalCrates(st)
  {
    var f := st[m.from];
    var moved := f[|f| - m.count..];
    var drained := st[m.from := f[..|f| - m.count]];
    var r := drained[m.to := drained[m.to] + moved];
    TotalCratesUpdate(st, m.from, f[..|f| - m.count]);
    TotalCratesUpdate(drained, m.to, drained[m.to] + moved);
    assert m.from == m.to ==> r == st by {
      if m.from == m.to {
        assert f[..|f| - m.count] + moved == f;
      }
    }
    r
  }

  /** One `pop` from `from` and `push` onto `to`. */
  function MoveOne(st: Stacks, from: nat, to: nat): (r: Stacks)
    requires from < |st| && to < |st| && 0 < |st[from]|
    ensures |r| == |st|
    ensures from != to ==> r == MultiMove(st, Move(1, from, to))
    ensures from == to ==> r == st
  {
    var f := st[from];
    var popped := st[from := f[..|f| - 1]];
    var r := popped[to := popped[to] + [f[|f| - 1]]];
    assert f[|f| - 1..] == [f[|f| - 1]];
    assert from == to ==> r == st by {
      if from == to {
        assert f[..|f| - 1] + [f[|f| - 1]] == f;
      }
    }
    r
  }

  /** `do_move`: `count` single-crate moves. */
  function SingleMoves(st: Stacks, m: Move): (r: Stacks)
    requires CanMove(st, m)
    ensures |r| == |st|
    decreases m.count
  {
    if m.count == 0 then st
    else SingleMoves(MoveOne(st, m.from, m.to), Move(m.count - 1, m.from, m.to))
  }

  /** `r` is `st` after moving the top `m.count` crates of `m.from` onto `m.to` in reverse
      order; every other stack is untouched. */
  predicate ReverseMoved(st: Stacks, m: Move, r: Stacks)
    requires CanMove(st, m)
  {
    && |r| == |st|
    && (forall i :: 0 <= i < |st| && i != m.from && i != m.to ==> r[i] == st[i])
    && (m.from == m.to ==> r == st)
    && (m.from != m.to ==>
      var f := st[m.from];
      r[m.from] == f[..|f| - m.count] && r[m.to] == st[m.to] + Reverse(f[|f| - m.count..]))
  }

  /** Moving crates one at a time puts the same crates on the target as moving them
      together, in reverse order; every other stack is untouched. */
  lemma {:induction false} SingleMovesReverse(st: Stacks, m: Move)
    requires CanMove(st, m)
    ensures ReverseMoved(st, m, SingleMoves(st, m))
    decreases m.count
  {
    if m.count > 0 {
      var next := MoveOne(st, m.from, m.to);
      var m' := Move(m.count - 1, m.from, m.to);
      SingleMovesReverse(next, m');
      if m.from != m.to {
        MoveOneEffect(st, m.from, m.to);
        SingleMovesStep(st, m, next, SingleMoves(next, m'));
      }
    }
  }

  /** The effect of one single-crate move between different stacks. */
  lemma MoveOneEffect(st: Stacks, from: nat, to: nat)
    requires from < |st| && to < |st| && 0 < |st[from]| && from != to
    ensures var r, f := MoveOne(st, from, to), st[from];
      && |r| == |st|
      && (forall i :: 0 <= i < |st| && i != from && i != to ==> r[i] == st[i])
      && r[from] == f[..|f| - 1] && r[to] == st[to] + [f[|f| - 1]]
  {
  }

  /** After moving the top crate, `count - 1` reversed moves complete `count` reversed moves. */
  lemma SingleMovesStep(st: Stacks, m: Move, next: Stacks, r: Stacks)
    requires CanMove(st, m) && 0 < m.count && m.from != m.to
    requires |next| == |st|
    requires forall i :: 0 <= i < |st| && i != m.from && i != m.to ==> next[i] == st[i]
    requires var f := st[m.from]; next[m.from] == f[..|f| - 1] && next[m.to] == st[m.to] + [f[|f| - 1]]
    requires ReverseMoved(next, Move(m.count - 1, m.from, m.to), r)
    ensures ReverseMoved(st, m, r)
  {
    ReverseStep(st[m.from], st[m.to], m.count);
  }

  /** Moving the top crate first, then `k - 1` more in reverse, is moving the top `k` in
      reverse. */
  lemma ReverseStep(f: seq<char>, t: seq<char>, k: nat)
    requires 0 < k <= |f|
    ensures var g := f[..|f| - 1];
      && g[..|g| - (k - 1)] == f[..|f| - k]
      && (t + [f[|f| - 1]]) + Reverse(g[|g| - (k - 1)..]) == t + Reverse(f[|f| - k..])
  {
    var g := f[..|f| - 1];
    var top := f[|f| - k..];
    assert g[|g| - (k - 1)..] == top[..|top| - 1];
    assert Reverse(top) == [top[|top| - 1]] + Reverse(top[..|top| - 1]);
  }

  /** A single-crate move is the same under both machines. */
  lemma OneCrateAgrees(st: Stacks, from: nat, to: nat)
    requires from < |st| && to < |st| && from != to && 0 < |st[from]|
    ensures SingleMoves(st, Move(1, from, to)) == MultiMove(st, Move(1, from, to))
  {
  }

  /** Both machines keep every crate. */
  lemma SingleMovesConserve(st: Stacks, m: Move)
    requires CanMove(st, m)
    ensures TotalCrates(SingleMoves(st, m)) == TotalCrates(st)
  {
    SingleMovesReverse(st, m);
    if m.from != m.to {
      var f := st[m.from];
      var r := SingleMoves(st, m);
      var drained := st[m.from := f[..|f| - m.count]];
      TotalCratesUpdate(st, m.from, f[..|f| - m.count]);
      TotalCratesUpdate(drained, m.to, r[m.to]);
      assert r == drained[m.to := r[m.to]];
    }
  }

  /** `top_str`: the top crate of every non-empty stack, in stack order. */
  function TopStr(st: Stacks): (r: string)
    ensures |r| <= |st|
    ensures (forall i :: 0 <= i < |st| ==> 0 < |st[i]|) ==>
      |r| == |st| && forall i :: 0 <= i < |st| ==> r[i] == Last(st[i])
  {
    if |st| == 0 then ""
    else
      var init := TopStr(st[..|st| - 1]);
      var s := st[|st| - 1];
      if |s| == 0 then init else init + [s[|s| - 1]]
  }

  /** Empty stacks are skipped. */
  lemma TopStrSkipsEmpty(st: Stacks)
    ensures TopStr(st + [[]]) == TopStr(st)
  {
    assert (st + [[]])[..|st|] == st;
  }

  /** `part1` and `part2`: the moves applied in order; `None` when a move would panic. */
  function Rearrange(st: Stacks, moves: seq<Move>, together: bool): (r: Option<Stacks>)
    ensures r.Some? ==> |r.value| == |st| && TotalCrates(r.value) == TotalCrates(st)
    decreases |moves|
  {
    if |moves| == 0 then Some(st)
    else
      var m := moves[0];
      if together then
        if CanMultiMove(st, m) then Rearrange(MultiMove(st, m), moves[1..], together) else None
      else if CanMove(st, m) then
        SingleMovesConserve(st, m);
        Rearrange(SingleMoves(st, m), moves[1..], together)
      else None
  }

  /** A move line's numbers, 1-based as written; the count must be positive and both
      stack numbers must name a stack. */
  function DecodeMove(count: nat, from: nat, to: nat, stacks: nat): (r: Option<Move>)
    ensures r.Some? <==> 1 <= count && 1 <= from <= stacks && 1 <= to <= stacks
    ensures r.Some? ==> r.value == Move(count, from - 1, to - 1) && r.value.from < stacks && r.value.to < stacks
  {
    if count < 1 || from < 1 || from > stacks || to < 1 || to > stacks then None
    else Some(Move(count, from - 1, to - 1))
  }

  /** Column `i` of the drawing, bottom to top, read at character `4 * i + 1` of every line
      above the numbers line, spaces dropped; `None` when a line is too short. */
  function Column(rows: seq<string>, i: nat): (r: Option<seq<char>>)
    ensures r.Some? <==> forall k :: 0 <= k < |rows| ==> 4 * i + 1 < |rows[k]|
    ensures r.Some? ==> ' ' !in r.value
    ensures r.Some? ==> |r.value| <= |rows|
  {
    if |rows| == 0 then Some([])
    else
      var top := rows[0];
      if 4 * i + 1 >= |top| then None
      else match Column(rows[1..], i)
        case None => None
        case Some(below) =>
          Some(if top[4 * i + 1] == ' ' then below else below + [top[4 * i + 1]])
  }

  /** With a crate in column `i` of every row, the column lists them bottom-up. */
  lemma {:induction false} ColumnFull(rows: seq<string>, i: nat)
    requires forall k :: 0 <= k < |rows| ==> 4 * i + 1 < |rows[k]| && rows[k][4 * i + 1] != ' '
    ensures Column(rows, i).Some? && |Column(rows, i).value| == |rows|
    ensures forall k :: 0 <= k < |rows| ==> Column(rows, i).value[k] == rows[|rows| - 1 - k][4 * i + 1]
    decreases |rows|
  {
    if |rows| > 0 {
      var tail := rows[1..];
      assert forall k :: 0 <= k < |tail| ==> tail[k] == rows[k + 1];
      ColumnFull(tail, i);
    }
  }

  /** The drawing: `(len + 1) / 4` columns read from the numbers line's width. */
  function ParseStacks(lines: seq<string>): (r: Option<Stacks>)
    ensures r.Some? ==> 0 < |lines| && |r.value| == (|Last(lines)| + 1) / 4
  {
    if |lines| == 0 then None
    else
      var rows := lines[..|lines| - 1];
      var cols := (|Last(lines)| + 1) / 4;
      Columns(rows, cols)
  }

  function Columns(rows: seq<string>, n: nat): (r: Option<Stacks>)
    ensures r.Some? ==> |r.value| == n && forall i :: 0 <= i < n ==> Column(rows, i) == Some(r.value[i])
  {
    if n == 0 then Some([])
    else match (Columns(rows, n - 1), Column(rows, n - 1))
      case (Some(st), Some(c)) => Some(st + [c])
      case _ => None
  }
}
