/** Day 23: elves spreading out on an unbounded grid. Every round each elf with a neighbour
    proposes a step in the first clear direction of a rotating order; proposals no other elf
    shares are carried out. */
module Day23 {
  import opened Util
  import opened Text

  /** A cell; `y` grows downwards, so north is `y - 1`. */
  datatype Pos = Pos(x: int, y: int) {
    function Plus(d: Pos): Pos {
      Pos(x + d.x, y + d.y)
    }
  }

  /** `CARD_DIRS`: north, south, west, east. */
  function Dir(d: nat): Pos
    requires d < 4
  {
    if d == 0 then Pos(0, -1)
    else if d == 1 then Pos(0, 1)
    else if d == 2 then Pos(-1, 0)
    else Pos(1, 0)
  }

  /** `CLEARANCE`: the three cells on the side of direction `d`; the middle one is the step
      itself. */
  function Clearance(d: nat, k: nat): (c: Pos)
    requires d < 4 && k < 3
    ensures k == 1 ==> c == Dir(d)
  {
    var a := k as int - 1;
    if d == 0 then Pos(a, -1)
    else if d == 1 then Pos(a, 1)
    else if d == 2 then Pos(-1, a)
    else Pos(1, a)
  }

  /** `NEIGHBORS`: the eight surrounding offsets. */
  predicate IsNeighbour(o: Pos) {
    -1 <= o.x <= 1 && -1 <= o.y <= 1 && o != Pos(0, 0)
  }

  /** No elf stands on any of the eight cells around `p`. */
  predicate Isolated(g: set<Pos>, p: Pos) {
    forall q :: q in g ==> !IsNeighbour(Pos(q.x - p.x, q.y - p.y))
  }

  /** All three cells on side `d` of `p` are free. */
  predicate Clear(g: set<Pos>, p: Pos, d: nat)
    requires d < 4
  {
    forall k :: 0 <= k < 3 ==> p.Plus(Clearance(d, k)) !in g
  }

  /** The direction tried `k`-th in round `i`: `(k + i) % 4`. */
  function Tried(k: nat, i: nat): (d: nat)
    ensures d < 4
  {
    (k + i) % 4
  }

  /** The first clear direction among those tried from the `k`-th on. */
  function FirstClear(g: set<Pos>, p: Pos, i: nat, k: nat): (r: Option<nat>)
    requires k <= 4
    ensures r.Some? ==> r.value < 4 && Clear(g, p, r.value)
    decreases 4 - k
  {
    if k == 4 then None
    else if Clear(g, p, Tried(k, i)) then Some(Tried(k, i))
    else FirstClear(g, p, i, k + 1)
  }

  /** `FirstClear` finds the earliest clear direction, and finds none only when none is clear. */
  lemma {:induction false} FirstClearFirst(g: set<Pos>, p: Pos, i: nat, k: nat)
    requires k <= 4
    ensures var r := FirstClear(g, p, i, k);
      r.None? <==> forall j :: k <= j < 4 ==> !Clear(g, p, Tried(j, i))
    ensures var r := FirstClear(g, p, i, k);
      r.Some? ==> exists j :: k <= j < 4 && r.value == Tried(j, i) && forall l :: k <= l < j ==> !Clear(g, p, Tried(l, i))
    decreases 4 - k
  {
    if k < 4 && !Clear(g, p, Tried(k, i)) {
      FirstClearFirst(g, p, i, k + 1);
      var r := FirstClear(g, p, i, k);
      if r.Some? {
        var j :| k + 1 <= j < 4 && r.value == Tried(j, i) && forall l :: k + 1 <= l < j ==> !Clear(g, p, Tried(l, i));
        assert forall l :: k <= l < j ==> !Clear(g, p, Tried(l, i));
      }
    }
  }

  /** The direction elf `p` proposes in round `i`: none when it is isolated, otherwise the
      first of north, south, west, east (rotated by `i`) whose three cells are free. */
  function Choice(g: set<Pos>, p: Pos, i: nat): (r: Option<nat>)
    ensures r.Some? ==> r.value < 4 && Clear(g, p, r.value)
  {
    if Isolated(g, p) then None else FirstClear(g, p, i, 0)
  }

  /** An elf proposes a direction exactly when it has a neighbour and one of the four sides is
      clear; it takes the first clear side in the order rotated by the round index. */
  lemma ChoiceRotates(g: set<Pos>, p: Pos, i: nat)
    ensures Choice(g, p, i).Some? <==> !Isolated(g, p) && exists j :: 0 <= j < 4 && Clear(g, p, Tried(j, i))
    ensures Isolated(g, p) ==> Choice(g, p, i).None?
    ensures Choice(g, p, i).Some? ==>
              exists j :: (0 <= j < 4 && Choice(g, p, i).value == Tried(j, i)
                           && forall l :: 0 <= l < j ==> !Clear(g, p, Tried(l, i)))
  {
    FirstClearFirst(g, p, i, 0);
  }

  /** The cell elf `p` proposes to step to in round `i`. */
  function Proposal(g: set<Pos>, p: Pos, i: nat): (r: Option<Pos>)
    ensures r.Some? <==> Choice(g, p, i).Some?
    ensures r.Some? ==> r.value !in g && r.value != p
    ensures r.Some? ==> r.value == p.Plus(Dir(Choice(g, p, i).value))
  {
    match Choice(g, p, i)
    case None => None
    case Some(d) =>
      assert p.Plus(Clearance(d, 1)) !in g;
      Some(p.Plus(Dir(d)))
  }

  /** The cell opposite `p` across `t`: the only other elf that can propose `t` (`target + dir`). */
  function Across(p: Pos, t: Pos): Pos {
    Pos(2 * t.x - p.x, 2 * t.y - p.y)
  }

  /** Elf `p`'s proposal is shared by the elf across its target. */
  predicate Collides(g: set<Pos>, p: Pos, i: nat) {
    Proposal(g, p, i).Some? && Across(p, Proposal(g, p, i).value) in g
      && Proposal(g, Across(p, Proposal(g, p, i).value), i) == Proposal(g, p, i)
  }

  /** Two different steps onto the same cell `t`: either they come from opposite sides, or
      the second stepper stands in the first one's clearance. */
  lemma DirectionsMeet(p: Pos, q: Pos, dp: nat, dq: nat)
    requires dp < 4 && dq < 4 && p != q
    requires p.Plus(Dir(dp)) == q.Plus(Dir(dq))
    ensures q == Across(p, p.Plus(Dir(dp))) || q == p.Plus(Clearance(dp, if dq == 0 || dq == 2 then 2 else 0))
  {
  }

  /** Two elves proposing the same cell come from opposite sides of it: an elf beside the
      target on a perpendicular side would stand in the other's clearance. */
  lemma {:induction false} ProposersOpposite(g: set<Pos>, p: Pos, q: Pos, i: nat)
    requires p in g && q in g && p != q
    requires Proposal(g, p, i).Some? && Proposal(g, q, i) == Proposal(g, p, i)
    ensures q == Across(p, Proposal(g, p, i).value)
  {
    var dp := Choice(g, p, i).value;
    var dq := Choice(g, q, i).value;
    DirectionsMeet(p, q, dp, dq);
    var k: nat := if dq == 0 || dq == 2 then 2 else 0;
    assert p.Plus(Clearance(dp, k)) !in g;
  }

  /** Where elf `p` stands after round `i`: its proposal if nobody else made it, else where
      it was. */
  function Dest(g: set<Pos>, p: Pos, i: nat): (r: Pos)
    ensures Isolated(g, p) ==> r == p
    ensures Collides(g, p, i) ==> r == p
    ensures r != p ==> r !in g && Proposal(g, p, i) == Some(r)
  {
    match Proposal(g, p, i)
    case None => p
    case Some(t) => if Collides(g, p, i) then p else t
  }

  /** An elf moves exactly when it proposes a cell that no other elf proposes; when two elves
      propose the same cell, both stay. */
  lemma DestUnshared(g: set<Pos>, p: Pos, i: nat)
    requires p in g
    ensures Dest(g, p, i) != p <==>
              Proposal(g, p, i).Some? && forall q :: q in g && q != p ==> Proposal(g, q, i) != Proposal(g, p, i)
  {
    if Proposal(g, p, i).Some? {
      var t := Proposal(g, p, i).value;
      if Collides(g, p, i) {
        assert Across(p, t) != p;
      } else {
        forall q | q in g && q != p && Proposal(g, q, i) == Some(t)
          ensures false
        {
          ProposersOpposite(g, p, q, i);
        }
      }
    }
  }

  /** Different elves end a round on different cells. */
  lemma DestInjective(g: set<Pos>, p: Pos, q: Pos, i: nat)
    requires p in g && q in g && p != q
    ensures Dest(g, p, i) != Dest(g, q, i)
  {
    if Dest(g, p, i) != p && Dest(g, q, i) != q {
      DestUnshared(g, p, i);
      assert Proposal(g, q, i) == Some(Dest(g, q, i));
    }
  }

  /** An injective map sends a finite set of cells to one of the same size. */
  lemma {:induction false} InjectiveImageSize(s: set<Pos>, f: Pos -> Pos)
    requires forall a, b :: a in s && b in s && a != b ==> f(a) != f(b)
    ensures |set x | x in s :: f(x)| == |s|
    decreases |s|
  {
    if s != {} {
      var y :| y in s;
      var s' := s - {y};
      InjectiveImageSize(s', f);
      assert (set x | x in s :: f(x)) == (set x | x in s' :: f(x)) + {f(y)};
    }
  }

  /** The elves of `g` end the round on `|g|` different cells. */
  lemma ImageSize(g: set<Pos>, i: nat)
    ensures |set p | p in g :: Dest(g, p, i)| == |g|
  {
    var f := (p: Pos) => if p in g then Dest(g, p, i) else p;
    forall a, b | a in g && b in g && a != b
      ensures f(a) != f(b)
    {
      DestInjective(g, a, b, i);
    }
    InjectiveImageSize(g, f);
    var image := set p | p in g :: f(p);
    var dests := set p | p in g :: Dest(g, p, i);
    assert |image| == |g|;
    assert image == dests;
  }

  /** The elves after round `i` of `step_once`. */
  function Round(g: set<Pos>, i: nat): (r: set<Pos>)
    ensures |r| == |g|
  {
    ImageSize(g, i);
    set p | p in g :: Dest(g, p, i)
  }

  /** The elves of `s` that step to their proposal. */
  function MovedIn(g: set<Pos>, i: nat, s: set<Pos>): set<Pos> {
    set p | p in s && Proposal(g, p, i).Some? && !Collides(g, p, i)
  }

  /** The elves that move in round `i`. */
  function Movers(g: set<Pos>, i: nat): set<Pos> {
    MovedIn(g, i, g)
  }

  /** The elves whose proposal is shared in round `i`. */
  function Colliding(g: set<Pos>, i: nat): set<Pos> {
    set p | p in g && Collides(g, p, i)
  }

  /** A round leaves the elves where they were exactly when nobody moves. */
  lemma RoundUnchanged(g: set<Pos>, i: nat)
    ensures Round(g, i) == g <==> Movers(g, i) == {}
  {
    if Movers(g, i) == {} {
      forall p | p in g
        ensures Dest(g, p, i) == p
      {
        assert p !in Movers(g, i);
      }
      assert Round(g, i) == g;
    } else {
      var p :| p in Movers(g, i);
      assert Dest(g, p, i) in Round(g, i) && Dest(g, p, i) !in g;
    }
  }

  // The loop of `step_once` visits the elves one by one, in hash order. The definitions
  // below describe the grid it has built after visiting the elves of `done`.

  /** Where the loop has put elf `p` once the elves of `done` are visited: a colliding elf
      first takes its target and is put back when its partner comes. */
  function Tentative(g: set<Pos>, i: nat, done: set<Pos>, p: Pos): Pos {
    match Proposal(g, p, i)
    case None => p
    case Some(t) => if Collides(g, p, i) && Across(p, t) in done then p else t
  }

  function Placed(g: set<Pos>, i: nat, done: set<Pos>): set<Pos> {
    set p | p in done :: Tentative(g, i, done, p)
  }

  /** Visited colliding elves whose partner is still to come. */
  function Waiting(g: set<Pos>, i: nat, done: set<Pos>): set<Pos> {
    set p | p in done && Collides(g, p, i) && Across(p, Proposal(g, p, i).value) !in done
  }

  /** Visited colliding elves whose partner is visited too. */
  function Settled(g: set<Pos>, i: nat, done: set<Pos>): set<Pos> {
    set p | p in done && Collides(g, p, i) && Across(p, Proposal(g, p, i).value) in done
  }

  /** Whether `x`'s collision partner is `p`. */
  predicate PartnerIs(g: set<Pos>, i: nat, x: Pos, p: Pos) {
    Collides(g, x, i) && Across(x, Proposal(g, x, i).value) == p
  }

  /** The partner of a colliding elf collides with it in turn. */
  lemma PartnerSymmetric(g: set<Pos>, i: nat, x: Pos)
    requires x in g && Collides(g, x, i)
    ensures var r := Across(x, Proposal(g, x, i).value);
      Collides(g, r, i) && Proposal(g, r, i) == Proposal(g, x, i) && Across(r, Proposal(g, r, i).value) == x
  {
    var t := Proposal(g, x, i).value;
    var r := Across(x, t);
    assert Across(r, t) == x;
  }

  /** Visiting an elf that proposes nothing: it stays where it is. */
  lemma {:induction false} VisitStay(g: set<Pos>, i: nat, done: set<Pos>, p: Pos)
    requires done <= g && p in g && p !in done && Proposal(g, p, i).None?
    ensures Placed(g, i, done + {p}) == Placed(g, i, done) + {p}
  {
    var done' := done + {p};
    forall x | x in done
      ensures Tentative(g, i, done', x) == Tentative(g, i, done, x)
    {
      assert !PartnerIs(g, i, x, p);
    }
    assert Tentative(g, i, done', p) == p;
  }

  /** Visiting an elf that proposes nothing changes none of the counted sets. */
  lemma {:induction false} VisitStayBooks(g: set<Pos>, i: nat, done: set<Pos>, p: Pos)
    requires done <= g && p in g && p !in done && Proposal(g, p, i).None?
    ensures MovedIn(g, i, done + {p}) == MovedIn(g, i, done)
    ensures Waiting(g, i, done + {p}) == Waiting(g, i, done)
    ensures Settled(g, i, done + {p}) == Settled(g, i, done)
  {
    var done' := done + {p};
    assert Dest(g, p, i) == p;
    assert !Collides(g, p, i);
    forall x | x in done
      ensures !PartnerIs(g, i, x, p)
    {
    }
  }

  /** When the target of `p` is still free in the grid being built, no visited elf is its
      collision partner. */
  lemma {:induction false} FreshFacts(g: set<Pos>, i: nat, done: set<Pos>, p: Pos)
    requires done <= g && p in g && p !in done && Proposal(g, p, i).Some?
    requires Proposal(g, p, i).value !in Placed(g, i, done)
    ensures Collides(g, p, i) ==> Across(p, Proposal(g, p, i).value) !in done
    ensures forall x :: x in done ==> !PartnerIs(g, i, x, p)
  {
    var t := Proposal(g, p, i).value;
    if Collides(g, p, i) && Across(p, t) in done {
      PartnerSymmetric(g, i, p);
      assert false;
    }
    forall x | x in done && PartnerIs(g, i, x, p)
      ensures false
    {
      PartnerSymmetric(g, i, x);
    }
  }

  /** Visiting an elf whose target is still free: it takes the target. */
  lemma {:induction false} VisitFresh(g: set<Pos>, i: nat, done: set<Pos>, p: Pos)
    requires done <= g && p in g && p !in done && Proposal(g, p, i).Some?
    requires Proposal(g, p, i).value !in Placed(g, i, done)
    ensures Placed(g, i, done + {p}) == Placed(g, i, done) + {Proposal(g, p, i).value}
  {
    var done' := done + {p};
    FreshFacts(g, i, done, p);
    forall x | x in done
      ensures Tentative(g, i, done', x) == Tentative(g, i, done, x)
    {
      assert !PartnerIs(g, i, x, p);
    }
    assert Tentative(g, i, done', p) == Proposal(g, p, i).value;
  }

  /** Visiting an elf whose target is still free: it counts as moved, or as waiting for its
      partner when it collides. */
  lemma {:induction false} VisitFreshBooks(g: set<Pos>, i: nat, done: set<Pos>, p: Pos)
    requires done <= g && p in g && p !in done && Proposal(g, p, i).Some?
    requires Proposal(g, p, i).value !in Placed(g, i, done)
    ensures p !in MovedIn(g, i, done) && p !in Waiting(g, i, done)
    ensures !Collides(g, p, i) ==> MovedIn(g, i, done + {p}) == MovedIn(g, i, done) + {p}
    ensures Collides(g, p, i) ==> MovedIn(g, i, done + {p}) == MovedIn(g, i, done)
    ensures !Collides(g, p, i) ==> Waiting(g, i, done + {p}) == Waiting(g, i, done)
    ensures Collides(g, p, i) ==> Waiting(g, i, done + {p}) == Waiting(g, i, done) + {p}
    ensures Settled(g, i, done + {p}) == Settled(g, i, done)
  {
    FreshFacts(g, i, done, p);
  }

  /** When the target of `p` is already taken, it was taken by `p`'s partner, which is still
      waiting; no other visited elf is involved. */
  lemma {:induction false} ClashFacts(g: set<Pos>, i: nat, done: set<Pos>, p: Pos)
    requires done <= g && p in g && p !in done && Proposal(g, p, i).Some?
    requires Proposal(g, p, i).value in Placed(g, i, done)
    ensures var r := Across(p, Proposal(g, p, i).value);
      Collides(g, p, i) && r in Waiting(g, i, done) && Across(r, Proposal(g, r, i).value) == p
    ensures var t := Proposal(g, p, i).value; var r := Across(p, t);
      forall y :: y in done && y != r ==> !PartnerIs(g, i, y, p) && Tentative(g, i, done, y) != t
  {
    var t := Proposal(g, p, i).value;
    var r := Across(p, t);
    var x :| x in done && Tentative(g, i, done, x) == t;
    assert Proposal(g, x, i) == Some(t);
    ProposersOpposite(g, p, x, i);
    PartnerSymmetric(g, i, p);
    forall y | y in done && y != r
      ensures !PartnerIs(g, i, y, p) && Tentative(g, i, done, y) != t
    {
      if PartnerIs(g, i, y, p) {
        PartnerSymmetric(g, i, y);
        ProposersOpposite(g, p, y, i);
      }
      if Tentative(g, i, done, y) == t {
        ProposersOpposite(g, p, y, i);
      }
    }
  }

  /** Splitting one elf off the cells of a set of elves. */
  lemma ImageWithout(g: set<Pos>, i: nat, ctx: set<Pos>, s: set<Pos>, r: Pos)
    requires r in s
    ensures (set y | y in s :: Tentative(g, i, ctx, y))
            == (set y | y in s - {r} :: Tentative(g, i, ctx, y)) + {Tentative(g, i, ctx, r)}
  {
  }

  /** Visiting an elf whose target is taken: the partner is pulled back to its own cell and
      the elf stays on its own (`target + dir` is the partner). */
  lemma {:induction false} VisitClash(g: set<Pos>, i: nat, done: set<Pos>, p: Pos)
    requires done <= g && p in g && p !in done && Proposal(g, p, i).Some?
    requires Proposal(g, p, i).value in Placed(g, i, done)
    ensures var t := Proposal(g, p, i).value;
      Placed(g, i, done + {p}) == Placed(g, i, done) - {t} + {p, Across(p, t)}
  {
    var t := Proposal(g, p, i).value;
    var r := Across(p, t);
    var done' := done + {p};
    ClashFacts(g, i, done, p);
    var rest := done - {r};
    forall y | y in rest
      ensures Tentative(g, i, done', y) == Tentative(g, i, done, y) != t
    {
      assert !PartnerIs(g, i, y, p);
    }
    var before := set y | y in rest :: Tentative(g, i, done, y);
    var after := set y | y in rest :: Tentative(g, i, done', y);
    assert before == after;
    assert t !in before;
    ImageWithout(g, i, done, done, r);
    assert Tentative(g, i, done, r) == t;
    assert Placed(g, i, done) == before + {t};
    ImageWithout(g, i, done', done', p);
    assert done' - {p} == done;
    ImageWithout(g, i, done', done, r);
    assert Tentative(g, i, done', r) == r;
    assert Tentative(g, i, done', p) == p;
    assert Placed(g, i, done') == after + {r} + {p};
  }

  /** Visiting an elf whose target is taken: the pair's collision is settled. */
  lemma {:induction false} VisitClashBooks(g: set<Pos>, i: nat, done: set<Pos>, p: Pos)
    requires done <= g && p in g && p !in done && Proposal(g, p, i).Some?
    requires Proposal(g, p, i).value in Placed(g, i, done)
    ensures var r := Across(p, Proposal(g, p, i).value);
      && r in Waiting(g, i, done) && p !in Settled(g, i, done) && r !in Settled(g, i, done) && p != r
      && MovedIn(g, i, done + {p}) == MovedIn(g, i, done)
      && Waiting(g, i, done + {p}) == Waiting(g, i, done) - {r}
      && Settled(g, i, done + {p}) == Settled(g, i, done) + {p, r}
  {
    var t := Proposal(g, p, i).value;
    var r := Across(p, t);
    ClashFacts(g, i, done, p);
    SettlePair(g, i, done, p, r);
  }

  /** Visiting `p` whose waiting partner is `r` settles exactly the two of them. */
  lemma SettlePair(g: set<Pos>, i: nat, done: set<Pos>, p: Pos, r: Pos)
    requires p !in done && PartnerIs(g, i, p, r) && r in Waiting(g, i, done) && PartnerIs(g, i, r, p)
    requires forall y :: y in done && y != r ==> !PartnerIs(g, i, y, p)
    ensures Settled(g, i, done + {p}) == Settled(g, i, done) + {p, r}
  {
    forall y | y in Settled(g, i, done + {p})
      ensures y in Settled(g, i, done) + {p, r}
    {
      if y != p && y != r {
        assert PartnerIs(g, i, y, Across(y, Proposal(g, y, i).value));
      }
    }
  }

  /** Once every elf is visited, the grid built is the round's outcome, every collision is
      settled and the moved elves are the movers. */
  lemma AllVisited(g: set<Pos>, i: nat)
    ensures Placed(g, i, g) == Round(g, i)
    ensures MovedIn(g, i, g) == Movers(g, i)
    ensures Waiting(g, i, g) == {}
    ensures Settled(g, i, g) == Colliding(g, i)
  {
    forall p | p in g
      ensures Tentative(g, i, g, p) == Dest(g, p, i)
    {
    }
  }

  /** How a collision is booked on the move counter: `moves -= 2` as written, which takes
      off one more than the partner's move added; `Corrected` takes off exactly that move. */
  datatype Booking = AsWritten | Corrected {
    function Penalty(): nat {
      if this == AsWritten then 2 else 1
    }

    /** What a settled collision pair costs the counter beyond undoing the partner's move,
        counted half per elf (an elf is half of a pair). */
    function Excess(settled: nat): nat {
      if this == AsWritten then settled else 0
    }
  }

  /** The loop's invariant after visiting the elves of `done`: the grid built so far, and a
      counter that has added one per moved or waiting elf and taken off the booking's excess
      for settled collisions. */
  predicate Booked(g: set<Pos>, i: nat, booking: Booking, done: set<Pos>, next: set<Pos>, moves: int) {
    && done <= g
    && next == Placed(g, i, done)
    && 2 * moves == 2 * |MovedIn(g, i, done)| + 2 * |Waiting(g, i, done)| - booking.Excess(|Settled(g, i, done)|)
  }

  lemma CardAdd(a: set<Pos>, b: set<Pos>, x: Pos)
    requires x !in a && b == a + {x}
    ensures |b| == |a| + 1
  {
  }

  lemma CardAddTwo(a: set<Pos>, b: set<Pos>, x: Pos, y: Pos)
    requires x !in a && y !in a && x != y && b == a + {x, y}
    ensures |b| == |a| + 2
  {
    CardAdd(a, a + {x}, x);
    CardAdd(a + {x}, b, y);
  }

  lemma CardRemove(a: set<Pos>, b: set<Pos>, x: Pos)
    requires x in a && b == a - {x}
    ensures |b| == |a| - 1
  {
    CardAdd(b, a, x);
  }

  lemma BookedStart(g: set<Pos>, i: nat, booking: Booking)
    ensures Booked(g, i, booking, {}, {}, 0)
  {
    assert MovedIn(g, i, {}) == {};
    assert Waiting(g, i, {}) == {};
    assert Settled(g, i, {}) == {};
  }

  lemma BookedStay(g: set<Pos>, i: nat, booking: Booking, done: set<Pos>, next: set<Pos>, moves: int, p: Pos)
    requires Booked(g, i, booking, done, next, moves) && p in g && p !in done
    requires Proposal(g, p, i).None?
    ensures Booked(g, i, booking, done + {p}, next + {p}, moves)
  {
    VisitStay(g, i, done, p);
    VisitStayBooks(g, i, done, p);
  }

  lemma BookedFresh(g: set<Pos>, i: nat, booking: Booking, done: set<Pos>, next: set<Pos>, moves: int, p: Pos)
    requires Booked(g, i, booking, done, next, moves) && p in g && p !in done
    requires Proposal(g, p, i).Some? && Proposal(g, p, i).value !in next
    ensures Booked(g, i, booking, done + {p}, next + {Proposal(g, p, i).value}, moves + 1)
  {
    var done' := done + {p};
    VisitFresh(g, i, done, p);
    VisitFreshBooks(g, i, done, p);
    if Collides(g, p, i) {
      CardAdd(Waiting(g, i, done), Waiting(g, i, done'), p);
    } else {
      CardAdd(MovedIn(g, i, done), MovedIn(g, i, done'), p);
    }
  }

  lemma BookedClashCount(g: set<Pos>, i: nat, booking: Booking, done: set<Pos>, moves: int, p: Pos)
    requires done <= g && p in g && p !in done
    requires Proposal(g, p, i).Some? && Proposal(g, p, i).value in Placed(g, i, done)
    requires 2 * moves == 2 * |MovedIn(g, i, done)| + 2 * |Waiting(g, i, done)| - booking.Excess(|Settled(g, i, done)|)
    ensures var done' := done + {p};
      2 * (moves - booking.Penalty())
      == 2 * |MovedIn(g, i, done')| + 2 * |Waiting(g, i, done')| - booking.Excess(|Settled(g, i, done')|)
  {
    var done' := done + {p};
    var r := Across(p, Proposal(g, p, i).value);
    VisitClashBooks(g, i, done, p);
    CardRemove(Waiting(g, i, done), Waiting(g, i, done'), r);
    CardAddTwo(Settled(g, i, done), Settled(g, i, done'), p, r);
  }

  lemma BookedClash(g: set<Pos>, i: nat, booking: Booking, done: set<Pos>, next: set<Pos>, moves: int, p: Pos)
    requires Booked(g, i, booking, done, next, moves) && p in g && p !in done
    requires Proposal(g, p, i).Some? && Proposal(g, p, i).value in next
    ensures var t := Proposal(g, p, i).value;
      Booked(g, i, booking, done + {p}, next - {t} + {p, Across(p, t)}, moves - booking.Penalty())
  {
    VisitClash(g, i, done, p);
    BookedClashCount(g, i, booking, done, moves, p);
  }

  lemma BookedEnd(g: set<Pos>, i: nat, booking: Booking, next: set<Pos>, moves: int)
    requires Booked(g, i, booking, g, next, moves)
    ensures next == Round(g, i)
    ensures 2 * moves == 2 * |Movers(g, i)| - booking.Excess(|Colliding(g, i)|)
  {
    AllVisited(g, i);
  }

  /** The loop of `step_once`, visiting the elves in any order (the hash order of the
      source): an elf that moves adds one to the counter; an elf that finds its target
      already taken puts itself and its partner back and takes the booking's penalty off the
      counter. */
  method Visit(g: set<Pos>, i: nat, booking: Booking) returns (next: set<Pos>, moves: int)
    ensures next == Round(g, i)
    ensures 2 * moves == 2 * |Movers(g, i)| - booking.Excess(|Colliding(g, i)|)
  {
    var rest := g;
    ghost var done: set<Pos> := {};
    next := {};
    moves := 0;
    BookedStart(g, i, booking);
    while rest != {}
      invariant rest == g - done
      invariant Booked(g, i, booking, done, next, moves)
      decreases rest
    {
      var p :| p in rest;
      assert p in g && p !in done;
      if Proposal(g, p, i).None? {
        BookedStay(g, i, booking, done, next, moves, p);
        next := next + {p};
      }
      else {
        var t := Proposal(g, p, i).value;
        if t !in next {
          BookedFresh(g, i, booking, done, next, moves, p);
          next := next + {t};
          moves := moves + 1;
        } else {
          BookedClash(g, i, booking, done, next, moves, p);
          next := next - {t} + {p, Across(p, t)};
          moves := moves - booking.Penalty();
        }
      }
      rest := rest - {p};
      done := done + {p};
    }
    assert done == g;
    BookedEnd(g, i, booking, next, moves);
  }

  /** The value a signed count takes in a `usize`: wrapping arithmetic modulo 2^64. */
  function Wrap(v: int): (r: nat)
    ensures r < U64_LIMIT
  {
    v % U64_LIMIT
  }

  /** The condition on which the source's `step` goes on after round `i`: the counter, as
      booked with `moves -= 2`, is not zero. */
  predicate Continues(g: set<Pos>, i: nat) {
    2 * |Movers(g, i)| != |Colliding(g, i)|
  }

  /** A counter smaller than 2^64 in magnitude wraps to zero only when it is zero. */
  lemma WrapZero(v: int)
    requires -(U64_LIMIT as int) < v < U64_LIMIT
    ensures Wrap(v) == 0 <==> v == 0
  {
    if v < 0 {
      assert v % U64_LIMIT == v + U64_LIMIT;
    }
  }

  lemma SubsetSize(a: set<Pos>, b: set<Pos>)
    requires a <= b
    ensures |a| <= |b|
  {
    assert b == a + (b - a);
  }

  /** `step_once` as written: one round, reporting whether the wrapped counter is positive.
      The counter is positive exactly when twice the movers differ from the colliding elves:
      a round in which one mover is offset by one collision reports no progress. */
  method StepOnce(g: set<Pos>, i: nat) returns (next: set<Pos>, more: bool)
    requires |g| < U64_LIMIT
    ensures next == Round(g, i)
    ensures more <==> Continues(g, i)
  {
    var moves;
    next, moves := Visit(g, i, AsWritten);
    SubsetSize(Movers(g, i), g);
    SubsetSize(Colliding(g, i), g);
    WrapZero(moves);
    more := Wrap(moves) > 0;
  }

  /** `step_once` with each collision taking off only the move its partner added: the counter
      is then the number of movers, so a round reports progress exactly when it changes the
      grid. */
  method StepOnceCorrected(g: set<Pos>, i: nat) returns (next: set<Pos>, moved: bool)
    ensures next == Round(g, i)
    ensures moved <==> Movers(g, i) != {}
    ensures moved <==> Round(g, i) != g
  {
    var moves;
    next, moves := Visit(g, i, Corrected);
    RoundUnchanged(g, i);
    moved := moves > 0;
  }

  /** The elves after `n` rounds, the `k`-th round using direction offset `k`. */
  function Rounds(g: set<Pos>, n: nat): (r: set<Pos>)
    ensures |r| == |g|
    decreases n
  {
    if n == 0 then g else Round(Rounds(g, n - 1), n - 1)
  }

  /** Every round up to round `n` changed the grid. */
  predicate ChangedThrough(g: set<Pos>, n: nat) {
    forall k :: 0 < k <= n ==> Rounds(g, k) != Rounds(g, k - 1)
  }

  /** Round `n - 1` was the first to leave the grid as it was. */
  predicate SettledAt(g: set<Pos>, n: nat) {
    0 < n && ChangedThrough(g, n - 1) && Rounds(g, n) == Rounds(g, n - 1)
  }

  /** One more round of `step`: it either changes the grid or settles it. */
  lemma ChangedExtend(g: set<Pos>, n: nat, moved: bool)
    requires ChangedThrough(g, n)
    requires moved <==> Round(Rounds(g, n), n) != Rounds(g, n)
    ensures moved ==> ChangedThrough(g, n + 1)
    ensures !moved ==> SettledAt(g, n + 1)
  {
  }

  /** `step` with the corrected counter: runs rounds until one changes nothing or `maxSteps`
      rounds have run, and returns the number of rounds run with the grid after them. */
  method Step(g: set<Pos>, maxSteps: nat) returns (n: nat, grid: set<Pos>)
    ensures n <= maxSteps && grid == Rounds(g, n)
    ensures forall k :: 0 < k < n ==> Rounds(g, k) != Rounds(g, k - 1)
    ensures n < maxSteps ==> 0 < n && Rounds(g, n) == Rounds(g, n - 1)
  {
    n := 0;
    grid := g;
    var moved := true;
    while n < maxSteps && moved
      invariant n <= maxSteps && grid == Rounds(g, n)
      invariant moved ==> ChangedThrough(g, n)
      invariant !moved ==> SettledAt(g, n)
      decreases maxSteps - n
    {
      var current := grid;
      grid, moved := StepOnceCorrected(current, n);
      ChangedExtend(g, n, moved);
      n := n + 1;
    }
  }

  /** The rounds before round `n` all continued. */
  predicate ContinuedBefore(g: set<Pos>, n: nat) {
    forall k :: 0 <= k < n ==> Continues(Rounds(g, k), k)
  }

  /** `step` stopped after round `n - 1`: every round before it continued, that one did not. */
  predicate StoppedAfter(g: set<Pos>, n: nat) {
    0 < n && ContinuedBefore(g, n - 1) && !Continues(Rounds(g, n - 1), n - 1)
  }

  /** One more round of `step`: it continues or stops according to its counter. */
  lemma ContinuedExtend(g: set<Pos>, n: nat, more: bool)
    requires ContinuedBefore(g, n)
    requires more <==> Continues(Rounds(g, n), n)
    ensures more ==> ContinuedBefore(g, n + 1)
    ensures !more ==> StoppedAfter(g, n + 1)
  {
  }

  /** `step` as written: stops after the first round whose counter is zero. */
  method StepAsWritten(g: set<Pos>, maxSteps: nat) returns (n: nat, grid: set<Pos>)
    requires |g| < U64_LIMIT
    ensures n <= maxSteps && grid == Rounds(g, n)
    ensures 0 < n ==> ContinuedBefore(g, n - 1)
    ensures n < maxSteps ==> StoppedAfter(g, n)
  {
    n := 0;
    grid := g;
    var more := true;
    while n < maxSteps && more
      invariant n <= maxSteps && grid == Rounds(g, n) && |grid| == |g|
      invariant more ==> ContinuedBefore(g, n)
      invariant !more ==> StoppedAfter(g, n)
      decreases maxSteps - n
    {
      var current := grid;
      grid, more := StepOnce(current, n);
      ContinuedExtend(g, n, more);
      n := n + 1;
    }
  }

  /** Six elves: a two-by-two block with a pair two rows below it. In round 0 the top row
      steps north, while the bottom row of the block and the pair below all propose the row
      between them and collide. */
  function Stall(): set<Pos> {
    {Pos(0, 0), Pos(1, 0), Pos(0, 1), Pos(1, 1), Pos(0, 3), Pos(1, 3)}
  }

  /** The cells of `Stall()`, by coordinates. */
  ghost predicate StallShape(g: set<Pos>) {
    forall p :: p in g <==> 0 <= p.x <= 1 && (0 <= p.y <= 1 || p.y == 3)
  }

  lemma StallIsShape(g: set<Pos>)
    requires g == Stall()
    ensures StallShape(g)
  {
  }

  lemma {:induction false} FirstClearFrom(g: set<Pos>, p: Pos, i: nat, k: nat, j: nat)
    requires k <= j < 4 && Clear(g, p, Tried(j, i))
    requires forall l :: k <= l < j ==> !Clear(g, p, Tried(l, i))
    ensures FirstClear(g, p, i, k) == Some(Tried(j, i))
    decreases j - k
  {
    if k < j {
      FirstClearFrom(g, p, i, k + 1, j);
    }
  }

  /** An elf with another elf on a neighbouring cell is not isolated. */
  lemma NotIsolated(g: set<Pos>, p: Pos, q: Pos)
    requires q in g && IsNeighbour(Pos(q.x - p.x, q.y - p.y))
    ensures !Isolated(g, p)
  {
  }

  /** An elf on one of the three cells of side `d` blocks that side. */
  lemma Blocked(g: set<Pos>, p: Pos, d: nat, k: nat)
    requires d < 4 && k < 3 && p.Plus(Clearance(d, k)) in g
    ensures !Clear(g, p, d)
  {
  }

  /** In round 0 an elf with a neighbour and a clear north side chooses north. */
  lemma ChoosesNorth(g: set<Pos>, p: Pos, q: Pos)
    requires q in g && IsNeighbour(Pos(q.x - p.x, q.y - p.y)) && Clear(g, p, 0)
    ensures Choice(g, p, 0) == Some(0)
  {
    NotIsolated(g, p, q);
    assert Tried(0, 0) == 0;
    FirstClearFrom(g, p, 0, 0, 0);
  }

  /** In round 0 an elf with a neighbour, a blocked north side and a clear south side chooses
      south. */
  lemma ChoosesSouth(g: set<Pos>, p: Pos, q: Pos)
    requires q in g && IsNeighbour(Pos(q.x - p.x, q.y - p.y))
    requires !Clear(g, p, 0) && Clear(g, p, 1)
    ensures Choice(g, p, 0) == Some(1)
  {
    NotIsolated(g, p, q);
    assert Tried(0, 0) == 0 && Tried(1, 0) == 1;
    FirstClearFrom(g, p, 0, 0, 1);
  }

  lemma ProposalOf(g: set<Pos>, p: Pos, i: nat, d: nat)
    requires Choice(g, p, i) == Some(d)
    ensures d < 4 && Proposal(g, p, i) == Some(p.Plus(Dir(d)))
  {
  }

  lemma StallClearNorth(g: set<Pos>)
    requires StallShape(g)
    ensures Clear(g, Pos(0, 0), 0) && Clear(g, Pos(1, 0), 0)
    ensures Clear(g, Pos(0, 3), 0) && Clear(g, Pos(1, 3), 0)
  {
  }

  lemma StallClearSouth(g: set<Pos>)
    requires StallShape(g)
    ensures Clear(g, Pos(0, 1), 1) && Clear(g, Pos(1, 1), 1)
  {
  }

  /** The local facts about `Stall()` that decide round 0. */
  ghost predicate StallSides(g: set<Pos>) {
    && Pos(0, 0) in g && Pos(1, 0) in g && Pos(0, 1) in g && Pos(1, 1) in g
    && Pos(0, 3) in g && Pos(1, 3) in g
    && Pos(0, -2) !in g && Pos(1, -2) !in g
    && Clear(g, Pos(0, 0), 0) && Clear(g, Pos(1, 0), 0)
    && Clear(g, Pos(0, 3), 0) && Clear(g, Pos(1, 3), 0)
    && Clear(g, Pos(0, 1), 1) && Clear(g, Pos(1, 1), 1)
  }

  lemma StallHasSides(g: set<Pos>)
    requires StallShape(g)
    ensures StallSides(g)
  {
    StallClearNorth(g);
    StallClearSouth(g);
  }

  /** In round 0 an elf with a clear north side and an elf beside it steps north. */
  lemma StepsNorth(g: set<Pos>, p: Pos, dx: int)
    requires (dx == 1 || dx == -1) && Pos(p.x + dx, p.y) in g && Clear(g, p, 0)
    ensures Proposal(g, p, 0) == Some(Pos(p.x, p.y - 1))
  {
    ChoosesNorth(g, p, Pos(p.x + dx, p.y));
    ProposalOf(g, p, 0, 0);
  }

  /** In round 0 an elf with an elf just north of it and a clear south side steps south. */
  lemma StepsSouth(g: set<Pos>, p: Pos)
    requires Pos(p.x, p.y - 1) in g && Clear(g, p, 1)
    ensures Proposal(g, p, 0) == Some(Pos(p.x, p.y + 1))
  {
    Blocked(g, p, 0, 1);
    ChoosesSouth(g, p, Pos(p.x, p.y - 1));
    ProposalOf(g, p, 0, 1);
  }

  lemma StallTop0(g: set<Pos>)
    requires Pos(1, 0) in g && Clear(g, Pos(0, 0), 0)
    ensures Proposal(g, Pos(0, 0), 0) == Some(Pos(0, -1))
  {
    StepsNorth(g, Pos(0, 0), 1);
  }

  lemma StallTop1(g: set<Pos>)
    requires Pos(0, 0) in g && Clear(g, Pos(1, 0), 0)
    ensures Proposal(g, Pos(1, 0), 0) == Some(Pos(1, -1))
  {
    StepsNorth(g, Pos(1, 0), -1);
  }

  lemma StallMiddle0(g: set<Pos>)
    requires Pos(0, 0) in g && Clear(g, Pos(0, 1), 1)
    ensures Proposal(g, Pos(0, 1), 0) == Some(Pos(0, 2))
  {
    StepsSouth(g, Pos(0, 1));
  }

  lemma StallMiddle1(g: set<Pos>)
    requires Pos(1, 0) in g && Clear(g, Pos(1, 1), 1)
    ensures Proposal(g, Pos(1, 1), 0) == Some(Pos(1, 2))
  {
    StepsSouth(g, Pos(1, 1));
  }

  lemma StallBottom0(g: set<Pos>)
    requires Pos(1, 3) in g && Clear(g, Pos(0, 3), 0)
    ensures Proposal(g, Pos(0, 3), 0) == Some(Pos(0, 2))
  {
    StepsNorth(g, Pos(0, 3), 1);
  }

  lemma StallBottom1(g: set<Pos>)
    requires Pos(0, 3) in g && Clear(g, Pos(1, 3), 0)
    ensures Proposal(g, Pos(1, 3), 0) == Some(Pos(1, 2))
  {
    StepsNorth(g, Pos(1, 3), -1);
  }

  lemma CollidesWith(g: set<Pos>, p: Pos, q: Pos, i: nat, t: Pos)
    requires Proposal(g, p, i) == Some(t) && Proposal(g, q, i) == Some(t)
    requires q in g && q == Across(p, t)
    ensures Collides(g, p, i)
  {
  }

  lemma CollidesWithNone(g: set<Pos>, p: Pos, i: nat, t: Pos)
    requires Proposal(g, p, i) == Some(t) && Across(p, t) !in g
    ensures !Collides(g, p, i)
  {
  }

  /** Two elves two cells apart in a column that both propose the cell between them
      collide. */
  lemma Facing(g: set<Pos>, x: int, y: int)
    requires Pos(x, y) in g && Pos(x, y + 2) in g
    requires Proposal(g, Pos(x, y), 0) == Some(Pos(x, y + 1))
    requires Proposal(g, Pos(x, y + 2), 0) == Some(Pos(x, y + 1))
    ensures Collides(g, Pos(x, y), 0) && Collides(g, Pos(x, y + 2), 0)
  {
    CollidesWith(g, Pos(x, y), Pos(x, y + 2), 0, Pos(x, y + 1));
    CollidesWith(g, Pos(x, y + 2), Pos(x, y), 0, Pos(x, y + 1));
  }

  /** An elf stepping north onto a cell with nobody beyond it does not collide. */
  lemma Unopposed(g: set<Pos>, x: int, y: int)
    requires Proposal(g, Pos(x, y), 0) == Some(Pos(x, y - 1)) && Pos(x, y - 2) !in g
    ensures Proposal(g, Pos(x, y), 0).Some? && !Collides(g, Pos(x, y), 0)
  {
    CollidesWithNone(g, Pos(x, y), 0, Pos(x, y - 1));
  }

  lemma InMovers(g: set<Pos>, i: nat, p: Pos)
    requires p in g && Proposal(g, p, i).Some? && !Collides(g, p, i)
    ensures p in Movers(g, i) && p !in Colliding(g, i)
  {
  }

  lemma InColliding(g: set<Pos>, i: nat, p: Pos)
    requires p in g && Collides(g, p, i)
    ensures p !in Movers(g, i) && p in Colliding(g, i)
  {
  }

  lemma StallColumn0(g: set<Pos>)
    requires Pos(0, 0) in g && Pos(0, 1) in g && Pos(0, 3) in g && Pos(1, 3) in g
    requires Clear(g, Pos(0, 1), 1) && Clear(g, Pos(0, 3), 0)
    ensures Collides(g, Pos(0, 1), 0) && Collides(g, Pos(0, 3), 0)
  {
    StallMiddle0(g);
    StallBottom0(g);
    Facing(g, 0, 1);
  }

  lemma StallColumn1(g: set<Pos>)
    requires Pos(1, 0) in g && Pos(1, 1) in g && Pos(1, 3) in g && Pos(0, 3) in g
    requires Clear(g, Pos(1, 1), 1) && Clear(g, Pos(1, 3), 0)
    ensures Collides(g, Pos(1, 1), 0) && Collides(g, Pos(1, 3), 0)
  {
    StallMiddle1(g);
    StallBottom1(g);
    Facing(g, 1, 1);
  }

  lemma StallFree0(g: set<Pos>)
    requires Pos(1, 0) in g && Clear(g, Pos(0, 0), 0) && Pos(0, -2) !in g
    ensures Proposal(g, Pos(0, 0), 0).Some? && !Collides(g, Pos(0, 0), 0)
  {
    StallTop0(g);
    Unopposed(g, 0, 0);
  }

  lemma StallFree1(g: set<Pos>)
    requires Pos(0, 0) in g && Clear(g, Pos(1, 0), 0) && Pos(1, -2) !in g
    ensures Proposal(g, Pos(1, 0), 0).Some? && !Collides(g, Pos(1, 0), 0)
  {
    StallTop1(g);
    Unopposed(g, 1, 0);
  }

  /** How each elf of `Stall()` fares in round 0. */
  ghost predicate StallOutcome(g: set<Pos>) {
    && Proposal(g, Pos(0, 0), 0).Some? && !Collides(g, Pos(0, 0), 0)
    && Proposal(g, Pos(1, 0), 0).Some? && !Collides(g, Pos(1, 0), 0)
    && Collides(g, Pos(0, 1), 0) && Collides(g, Pos(0, 3), 0)
    && Collides(g, Pos(1, 1), 0) && Collides(g, Pos(1, 3), 0)
  }

  lemma StallHasOutcome(g: set<Pos>)
    requires StallSides(g)
    ensures StallOutcome(g)
  {
    StallColumn0(g);
    StallColumn1(g);
    StallFree0(g);
    StallFree1(g);
  }

  /** No elf both moves and collides, and both kinds are elves. */
  lemma MoversCollidingDisjoint(g: set<Pos>, i: nat)
    ensures Movers(g, i) * Colliding(g, i) == {}
    ensures Movers(g, i) + Colliding(g, i) <= g
  {
  }

  /** Two sets of elves that share nobody, among six, holding two and four given elves:
      they hold exactly those. */
  lemma SixSorted(g: set<Pos>, m: set<Pos>, c: set<Pos>, a: Pos, b: Pos, p: Pos, q: Pos, r: Pos, t: Pos)
    requires |g| == 6 && m * c == {} && m + c <= g
    requires a != b && p != q && p != r && p != t && q != r && q != t && r != t
    requires a in m && b in m && p in c && q in c && r in c && t in c
    ensures |m| == 2 && |c| == 4
  {
    var m0, c0 := {a, b}, {p, q, r, t};
    assert |m0| == 2 && |c0| == 4;
    SubsetSize(m0, m);
    SubsetSize(c0, c);
    assert |m + c| == |m| + |c|;
    SubsetSize(m + c, g);
  }

  lemma StallSize(g: set<Pos>)
    requires g == Stall()
    ensures |g| == 6 && StallSides(g)
  {
    StallIsShape(g);
    StallHasSides(g);
  }

  lemma StallMembers(g: set<Pos>)
    requires StallSides(g)
    ensures Pos(0, 0) in Movers(g, 0) && Pos(1, 0) in Movers(g, 0)
    ensures Pos(0, 1) in Colliding(g, 0) && Pos(1, 1) in Colliding(g, 0)
    ensures Pos(0, 3) in Colliding(g, 0) && Pos(1, 3) in Colliding(g, 0)
  {
    StallHasOutcome(g);
    InMovers(g, 0, Pos(0, 0));
    InMovers(g, 0, Pos(1, 0));
    InColliding(g, 0, Pos(0, 1));
    InColliding(g, 0, Pos(1, 1));
    InColliding(g, 0, Pos(0, 3));
    InColliding(g, 0, Pos(1, 3));
  }

  /** Round 0 on `Stall()`: the top pair moves and the other four elves collide. */
  lemma StallCounts(g: set<Pos>)
    requires |g| == 6 && StallSides(g)
    ensures |Movers(g, 0)| == 2 && |Colliding(g, 0)| == 4
  {
    StallMembers(g);
    MoversCollidingDisjoint(g, 0);
    SixSorted(g, Movers(g, 0), Colliding(g, 0), Pos(0, 0), Pos(1, 0), Pos(0, 1), Pos(1, 1), Pos(0, 3), Pos(1, 3));
  }

  /** As written, `step` stops after round 0 on these elves although two of them moved:
      the counter books +2 for the movers, then +1 and -2 for each of the two collisions. */
  lemma StallStopsEarly(g: set<Pos>)
    requires g == Stall()
    ensures |Movers(g, 0)| == 2 && |Colliding(g, 0)| == 4
    ensures !Continues(g, 0)
    ensures Round(g, 0) != g
  {
    StallSize(g);
    StallCounts(g);
    RoundUnchanged(g, 0);
  }

  // Reading the grid

  /** The input's lines, trimmed, with the blank ones dropped. */
  function Rows(lines: seq<string>): (r: seq<string>)
    ensures |r| <= |lines|
    ensures forall j :: 0 <= j < |r| ==> r[j] != ""
  {
    if lines == [] then []
    else
      var t := Trim(lines[0]);
      if t == "" then Rows(lines[1..]) else [t] + Rows(lines[1..])
  }

  /** A line that is not blank and carries no padding. */
  predicate Plain(s: string) {
    0 < |s| && !IsWhitespace(s[0]) && !IsWhitespace(s[|s| - 1])
  }

  lemma RowsOfPlainHead(lines: seq<string>)
    requires lines != [] && Plain(lines[0])
    ensures Rows(lines) == [lines[0]] + Rows(lines[1..])
  {
    TrimUnchanged(lines[0]);
  }

  /** Lines that are all plain are the rows themselves. */
  lemma {:induction false} RowsOfPlainLines(lines: seq<string>)
    requires forall k :: 0 <= k < |lines| ==> Plain(lines[k])
    ensures Rows(lines) == lines
  {
    if lines != [] {
      RowsOfPlainHead(lines);
      RowsOfPlainLines(lines[1..]);
      assert lines == [lines[0]] + lines[1..];
    }
  }

  /** The elves of a picture: one at `(x, y)` for each '#' at column `x` of row `y`. */
  function Elves(rows: seq<string>): set<Pos> {
    set y, x | 0 <= y < |rows| && 0 <= x < |rows[y]| && rows[y][x] == '#' :: Pos(x, y)
  }

  /** `input_generator`: the elves of the non-blank trimmed lines. */
  function InputGenerator(lines: seq<string>): set<Pos> {
    Elves(Rows(lines))
  }

  /** The picture of the elves in the `w` by `h` rectangle at the origin. */
  function Render(g: set<Pos>, w: nat, h: nat): (rows: seq<string>)
    ensures |rows| == h
    ensures forall y :: 0 <= y < h ==> |rows[y]| == w
  {
    seq(h, y requires 0 <= y < h => seq(w, x requires 0 <= x < w => if Pos(x, y) in g then '#' else '.'))
  }

  /** Elves inside the `w` by `h` rectangle at the origin. */
  predicate Within(g: set<Pos>, w: nat, h: nat) {
    forall p :: p in g ==> 0 <= p.x < w && 0 <= p.y < h
  }

  /** Drawing elves and reading them back gives the same elves. */
  lemma ElvesOfRender(g: set<Pos>, w: nat, h: nat)
    requires Within(g, w, h)
    ensures Elves(Render(g, w, h)) == g
  {
    var rows := Render(g, w, h);
    forall p | p in g
      ensures p in Elves(rows)
    {
      assert rows[p.y][p.x] == '#';
    }
  }

  /** Reading a picture of '#' and '.' and drawing it again gives the same picture. */
  lemma RenderOfElves(rows: seq<string>, w: nat)
    requires forall y :: 0 <= y < |rows| ==> |rows[y]| == w
    requires forall y, x :: 0 <= y < |rows| && 0 <= x < w ==> rows[y][x] == '#' || rows[y][x] == '.'
    ensures Within(Elves(rows), w, |rows|)
    ensures Render(Elves(rows), w, |rows|) == rows
  {
    var r := Render(Elves(rows), w, |rows|);
    forall y | 0 <= y < |rows|
      ensures r[y] == rows[y]
    {
      forall x | 0 <= x < w
        ensures r[y][x] == rows[y][x]
      {
        if rows[y][x] == '#' {
          assert Pos(x, y) in Elves(rows);
        }
      }
    }
  }

  /** The input generator reads back every picture drawn at least one cell wide. */
  lemma InputOfRender(g: set<Pos>, w: nat, h: nat)
    requires 0 < w && Within(g, w, h)
    ensures InputGenerator(Render(g, w, h)) == g
  {
    var rows := Render(g, w, h);
    assert forall y :: 0 <= y < h ==> Plain(rows[y]);
    RowsOfPlainLines(rows);
    ElvesOfRender(g, w, h);
  }

  // The bounding rectangle

  /** The cells `(x, y)` with `x0 <= x <= x1`. */
  function Row(x0: int, x1: int, y: int): set<Pos>
    decreases x1 - x0
  {
    if x1 < x0 then {} else Row(x0, x1 - 1, y) + {Pos(x1, y)}
  }

  lemma {:induction false} RowFacts(x0: int, x1: int, y: int)
    requires x0 <= x1 + 1
    ensures forall p :: p in Row(x0, x1, y) <==> x0 <= p.x <= x1 && p.y == y
    ensures |Row(x0, x1, y)| == x1 - x0 + 1
    decreases x1 - x0
  {
    if x0 <= x1 {
      var a := Row(x0, x1 - 1, y);
      RowFacts(x0, x1 - 1, y);
      assert Row(x0, x1, y) == a + {Pos(x1, y)};
      assert Pos(x1, y) !in a;
    }
  }

  /** The cells of the rectangle spanning `x0..=x1` by `y0..=y1`. */
  function Rect(x0: int, x1: int, y0: int, y1: int): set<Pos>
    decreases y1 - y0
  {
    if y1 < y0 then {} else Rect(x0, x1, y0, y1 - 1) + Row(x0, x1, y1)
  }

  lemma {:induction false} RectFacts(x0: int, x1: int, y0: int, y1: int)
    requires x0 <= x1 + 1 && y0 <= y1 + 1
    ensures forall p :: p in Rect(x0, x1, y0, y1) <==> x0 <= p.x <= x1 && y0 <= p.y <= y1
    ensures |Rect(x0, x1, y0, y1)| == (x1 - x0 + 1) * (y1 - y0 + 1)
    decreases y1 - y0
  {
    if y0 <= y1 {
      RectFacts(x0, x1, y0, y1 - 1);
      RowFacts(x0, x1, y1);
      var a, b := Rect(x0, x1, y0, y1 - 1), Row(x0, x1, y1);
      assert a * b == {};
      assert |a + b| == |a| + |b|;
      assert (x1 - x0 + 1) * (y1 - y0) + (x1 - x0 + 1) == (x1 - x0 + 1) * (y1 - y0 + 1);
    }
  }

  /** The smallest rectangle holding every elf spans `x0..=x1` by `y0..=y1`: every elf lies
      inside and an elf lies on each of the four sides. */
  predicate Bounds(g: set<Pos>, x0: int, x1: int, y0: int, y1: int) {
    && (forall p :: p in g ==> x0 <= p.x <= x1 && y0 <= p.y <= y1)
    && (exists p :: p in g && p.x == x0) && (exists p :: p in g && p.x == x1)
    && (exists p :: p in g && p.y == y0) && (exists p :: p in g && p.y == y1)
  }

  /** The bounding rectangle of a set of elves is unique. */
  lemma BoundsUnique(g: set<Pos>, x0: int, x1: int, y0: int, y1: int,
                     a0: int, a1: int, b0: int, b1: int)
    requires Bounds(g, x0, x1, y0, y1) && Bounds(g, a0, a1, b0, b1)
    ensures x0 == a0 && x1 == a1 && y0 == b0 && y1 == b1
  {
    var p :| p in g && p.x == x0;
    var q :| q in g && q.x == a0;
    var p1 :| p1 in g && p1.x == x1;
    var q1 :| q1 in g && q1.x == a1;
    var r :| r in g && r.y == y0;
    var s :| s in g && s.y == b0;
    var r1 :| r1 in g && r1.y == y1;
    var s1 :| s1 in g && s1.y == b1;
  }

  /** Adding elf `p` to elves bounded by `x0..=x1` by `y0..=y1` stretches the bounds to
      take it in. */
  lemma BoundsAdd(g: set<Pos>, x0: int, x1: int, y0: int, y1: int, p: Pos)
    requires Bounds(g, x0, x1, y0, y1)
    ensures Bounds(g + {p}, Min(x0, p.x), Max(x1, p.x), Min(y0, p.y), Max(y1, p.y))
  {
    var h := g + {p};
    var a :| a in g && a.x == x0;
    var b :| b in g && b.x == x1;
    var c :| c in g && c.y == y0;
    var d :| d in g && d.y == y1;
    assert if p.x < x0 then p in h && p.x == Min(x0, p.x) else a in h && a.x == Min(x0, p.x);
    assert if p.x > x1 then p in h && p.x == Max(x1, p.x) else b in h && b.x == Max(x1, p.x);
    assert if p.y < y0 then p in h && p.y == Min(y0, p.y) else c in h && c.y == Min(y0, p.y);
    assert if p.y > y1 then p in h && p.y == Max(y1, p.y) else d in h && d.y == Max(y1, p.y);
  }

  /** The bounding rectangle of a non-empty set of elves, found by the four `min`/`max`
      scans of `open_spaces` (done here in one pass). */
  method BoundingBox(g: set<Pos>) returns (x0: int, x1: int, y0: int, y1: int)
    requires g != {}
    ensures Bounds(g, x0, x1, y0, y1)
  {
    var p0 :| p0 in g;
    x0, x1, y0, y1 := p0.x, p0.x, p0.y, p0.y;
    var seen := {p0};
    var rest := g - {p0};
    while rest != {}
      invariant seen <= g && rest == g - seen
      invariant Bounds(seen, x0, x1, y0, y1)
      decreases rest
    {
      var p :| p in rest;
      BoundsAdd(seen, x0, x1, y0, y1, p);
      x0, x1, y0, y1 := Min(x0, p.x), Max(x1, p.x), Min(y0, p.y), Max(y1, p.y);
      seen := seen + {p};
      rest := rest - {p};
    }
    assert seen == g by {
      forall x | x in g
        ensures x in seen
      {
        assert x !in rest;
      }
    }
  }

  /** The empty cells of the bounding rectangle number its area less the elves. */
  lemma OpenCount(g: set<Pos>, x0: int, x1: int, y0: int, y1: int)
    requires Bounds(g, x0, x1, y0, y1)
    ensures |Rect(x0, x1, y0, y1) - g| + |g| == (x1 - x0 + 1) * (y1 - y0 + 1)
  {
    var box := Rect(x0, x1, y0, y1);
    RectFacts(x0, x1, y0, y1);
    assert g <= box;
    assert box == (box - g) + g;
  }

  /** `open_spaces`: the empty cells of the smallest rectangle holding every elf; `None`
      where the source's `unwrap` fails on an empty grid. */
  method OpenSpaces(g: set<Pos>) returns (r: Option<nat>)
    ensures r.None? <==> g == {}
    ensures r.Some? ==>
      exists x0, x1, y0, y1 ::
        && Bounds(g, x0, x1, y0, y1)
        && r.value == |Rect(x0, x1, y0, y1) - g|
        && r.value + |g| == (x1 - x0 + 1) * (y1 - y0 + 1)
  {
    if g == {} {
      return None;
    }
    var x0, x1, y0, y1 := BoundingBox(g);
    OpenCount(g, x0, x1, y0, y1);
    r := Some(|Rect(x0, x1, y0, y1) - g|);
  }

  // The puzzle

  const USIZE_MAX: nat := U64_LIMIT - 1

  /** `step` with limit `maxSteps` ends after round `n`: every earlier round changed the grid,
      and unless the limit was reached round `n - 1` changed nothing. */
  predicate StopsAt(g: set<Pos>, maxSteps: nat, n: nat) {
    && n <= maxSteps
    && (forall k :: 0 < k < n ==> Rounds(g, k) != Rounds(g, k - 1))
    && (n < maxSteps ==> 0 < n && Rounds(g, n) == Rounds(g, n - 1))
  }

  /** `step` has one stopping point for each grid and limit. */
  lemma StopsAtUnique(g: set<Pos>, maxSteps: nat, n: nat, m: nat)
    requires StopsAt(g, maxSteps, n) && StopsAt(g, maxSteps, m)
    ensures n == m
  {
  }

  /** `part1`: the open cells around the elves after at most ten rounds. */
  method Part1(g: set<Pos>) returns (r: Option<nat>)
    ensures r.None? <==> g == {}
    ensures r.Some? ==>
      exists n, x0, x1, y0, y1 ::
        && StopsAt(g, 10, n)
        && Bounds(Rounds(g, n), x0, x1, y0, y1)
        && r.value == |Rect(x0, x1, y0, y1) - Rounds(g, n)|
  {
    var n, grid := Step(g, 10);
    assert StopsAt(g, 10, n);
    assert |grid| == |g|;
    r := OpenSpaces(grid);
  }

  /** `step` as written, with limit `maxSteps`, ends after round `n`: every earlier round's
      counter was positive, and unless the limit was reached round `n - 1`'s was not. */
  predicate StopsAtAsWritten(g: set<Pos>, maxSteps: nat, n: nat) {
    && n <= maxSteps
    && (0 < n ==> ContinuedBefore(g, n - 1))
    && (n < maxSteps ==> StoppedAfter(g, n))
  }

  /** `part1` as written: the open cells around the elves once the uncorrected `step`
      stops, after at most ten rounds. */
  method Part1AsWritten(g: set<Pos>) returns (r: Option<nat>)
    requires |g| < U64_LIMIT
    ensures r.None? <==> g == {}
    ensures r.Some? ==>
      exists n, x0, x1, y0, y1 ::
        && StopsAtAsWritten(g, 10, n)
        && Bounds(Rounds(g, n), x0, x1, y0, y1)
        && r.value == |Rect(x0, x1, y0, y1) - Rounds(g, n)|
  {
    var n, grid := StepAsWritten(g, 10);
    assert StopsAtAsWritten(g, 10, n);
    r := OpenSpaces(grid);
  }

  /** `part2` as written: the round after which the uncorrected `step` stops. */
  method Part2AsWritten(g: set<Pos>) returns (n: nat)
    requires |g| < U64_LIMIT
    ensures StopsAtAsWritten(g, USIZE_MAX, n)
  {
    var grid;
    n, grid := StepAsWritten(g, USIZE_MAX);
  }

  /** On `Stall()` the uncorrected `part2` answers 1, although round 0 moved two elves and
      the corrected count goes on. */
  lemma StallPart2Differs(g: set<Pos>)
    requires g == Stall()
    ensures StopsAtAsWritten(g, USIZE_MAX, 1)
    ensures !StopsAt(g, USIZE_MAX, 1)
  {
    StallStopsEarly(g);
    RoundsOne(g);
  }

  lemma RoundsOne(g: set<Pos>)
    ensures Rounds(g, 0) == g && Rounds(g, 1) == Round(g, 0)
  {
  }

  /** `part2`: the number of the first round in which no elf moves. */
  method Part2(g: set<Pos>) returns (n: nat)
    ensures StopsAt(g, USIZE_MAX, n)
  {
    var grid;
    n, grid := Step(g, USIZE_MAX);
  }
}
