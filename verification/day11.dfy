/** Monkey in the Middle (day 11): monkeys inspect their items in turn, change each item's
    worry level by their operation and throw it on according to a divisibility test. */
module Day11 {
  import opened Util
  import opened Text
  import opened Sorting

  /** A monkey's operation on the worry level `old`. */
  datatype Operation = Add(m: nat) | Sub(m: nat) | Mul(m: nat) | Div(m: nat) | Mod(m: nat) | Square

  /** The value a `u64` computation leaves in a release build: wrapped modulo 2^64. */
  function Wrap64(v: int): (r: nat)
    ensures r < U64_LIMIT
    ensures 0 <= v < U64_LIMIT ==> r == v
  {
    v % U64_LIMIT
  }

  /** Dividing a natural number, or taking its remainder, never makes it larger. */
  lemma DivModLe(n: nat, m: nat)
    requires 0 < m
    ensures n / m <= n && n % m <= n
  {
    var q, r := n / m, n % m;
    assert n == q * m + r;
    MulLe(1, m, q);
    assert q <= q * m;
  }

  /** The operation in unbounded integers: what `apply` means before any wrap. A division
      or remainder by zero has no value (0 here). */
  function Ideal(op: Operation, n: nat): int {
    match op
    case Add(m) => n + m
    case Sub(m) => n - m
    case Mul(m) => n * m
    case Div(m) => if m == 0 then 0 else n / m
    case Mod(m) => if m == 0 then 0 else n % m
    case Square => n * n
  }

  /** `Operation::apply` on `u64` as a release build runs it: additions, subtractions and
      products wrap modulo 2^64; a division or remainder by zero panics (`None`). */
  function Apply(op: Operation, n: nat): (r: Option<nat>)
    ensures r.None? <==> (op.Div? || op.Mod?) && op.m == 0
    ensures r.Some? ==> r.value < U64_LIMIT && (Ideal(op, n) - r.value) % U64_LIMIT == 0
    ensures r.Some? && 0 <= Ideal(op, n) < U64_LIMIT ==> r.value == Ideal(op, n)
  {
    if (op.Div? || op.Mod?) && op.m == 0 then None
    else
      var v := Ideal(op, n);
      assert (v - Wrap64(v)) == (v / U64_LIMIT) * U64_LIMIT;
      Some(Wrap64(v))
  }

  /** A division or remainder of a `u64` by a non-zero number is exact. */
  lemma DivModExact(op: Operation, n: nat)
    requires (op.Div? || op.Mod?) && 0 < op.m && n < U64_LIMIT
    ensures Apply(op, n) == Some(Ideal(op, n))
  {
    DivModLe(n, op.m);
  }

  /** Subtracting undoes adding. */
  lemma SubAfterAdd(m: nat, n: nat)
    requires n + m < U64_LIMIT
    ensures Apply(Add(m), n).Some? && Apply(Sub(m), Apply(Add(m), n).value) == Some(n)
  {
  }

  /** Dividing undoes multiplying by a non-zero factor, and leaves no remainder. */
  lemma DivAfterMul(m: nat, n: nat)
    requires 0 < m && n * m < U64_LIMIT
    ensures Apply(Mul(m), n).Some?
    ensures Apply(Div(m), Apply(Mul(m), n).value) == Some(n)
    ensures Apply(Mod(m), Apply(Mul(m), n).value) == Some(0)
  {
    DivModUnique(n * m, m, n, 0);
  }

  /** Squaring is multiplying by the value itself. */
  lemma SquareIsMul(n: nat)
    ensures Apply(Square, n) == Apply(Mul(n), n)
  {
  }

  /** The text before the number: `old + `, `old - `, `old * `, `old / ` or `old % `. */
  function Prefix(op: Operation): (p: string)
    requires !op.Square?
    ensures |p| == 6 && p[..4] == "old " && p[5] == ' '
  {
    match op
    case Add(_) => "old + "
    case Sub(_) => "old - "
    case Mul(_) => "old * "
    case Div(_) => "old / "
    case Mod(_) => "old % "
  }

  /** `FromStr for Operation`: `old * old` squares; `old <op> <u64>` applies `<op>` with the
      number; any other text is an error. A recognised prefix followed by a bad number is
      an error too. */
  function ParseOperation(s: string): (r: Option<Operation>)
    ensures r == Some(Square) <==> s == "old * old"
    ensures r.Some? && !r.value.Square? ==>
              6 <= |s| && s[..6] == Prefix(r.value) && ParseUnsigned(s[6..], U64_LIMIT) == Some(r.value.m)
    ensures |s| < 6 && s != "old * old" ==> r.None?
    ensures 4 <= |s| && s[..4] != "old " ==> r.None?
  {
    if s == "old * old" then Some(Square)
    else
      var rest := StripPrefix(s, "old + ");
      if rest.Some? then ParseArg(rest.value, Add(0))
      else
        var rest := StripPrefix(s, "old - ");
        if rest.Some? then ParseArg(rest.value, Sub(0))
        else
          var rest := StripPrefix(s, "old * ");
          if rest.Some? then ParseArg(rest.value, Mul(0))
          else
            var rest := StripPrefix(s, "old / ");
            if rest.Some? then ParseArg(rest.value, Div(0))
            else
              var rest := StripPrefix(s, "old % ");
              if rest.Some? then ParseArg(rest.value, Mod(0))
              else None
  }

  /** The number after a recognised prefix, as the operation `kind` stands for. */
  function ParseArg(n: string, kind: Operation): (r: Option<Operation>)
    requires !kind.Square?
    ensures r.Some? <==> ParseUnsigned(n, U64_LIMIT).Some?
    ensures r.Some? ==> r.value == kind.(m := ParseUnsigned(n, U64_LIMIT).value)
  {
    match ParseUnsigned(n, U64_LIMIT)
    case None => None
    case Some(v) => Some(kind.(m := v))
  }

  /** The operation as the input writes it. */
  function Render(op: Operation): string {
    if op.Square? then "old * old" else Prefix(op) + NatToString(op.m)
  }

  /** Parsing the rendering of an operation whose number fits in `u64` gives it back. */
  lemma ParseRender(op: Operation)
    requires !op.Square? ==> op.m < U64_LIMIT
    ensures ParseOperation(Render(op)) == Some(op)
  {
    if !op.Square? {
      var s := Render(op);
      var digits := NatToString(op.m);
      ParseUnsignedRoundTrip(op.m, U64_LIMIT);
      assert s[..6] == Prefix(op) && s[6..] == digits;
      assert s != "old * old" by {
        assert IsDigit(s[6]);
      }
    }
  }

  /** A monkey: its queue of worry levels, its operation, its test divisor, the monkeys it
      throws to when the test passes or fails, and how many items it has inspected. */
  datatype Monkey = Monkey(items: seq<nat>, op: Operation, test: nat, ifTrue: nat, ifFalse: nat,
                           inspections: nat)

  /** Number of items held by all monkeys together. */
  function TotalItems(ms: seq<Monkey>): nat {
    if |ms| == 0 then 0 else TotalItems(ms[..|ms| - 1]) + |ms[|ms| - 1].items|
  }

  /** Replacing one monkey changes the total by the difference of the two queues. */
  lemma {:induction false} TotalItemsUpdate(ms: seq<Monkey>, i: nat, m: Monkey)
    requires i < |ms|
    ensures TotalItems(ms[i := m]) + |ms[i].items| == TotalItems(ms) + |m.items|
    decreases |ms|
  {
    var ms' := ms[i := m];
    if i < |ms| - 1 {
      assert ms'[..|ms'| - 1] == ms[..|ms| - 1][i := m];
      TotalItemsUpdate(ms[..|ms| - 1], i, m);
    } else {
      assert ms'[..|ms'| - 1] == ms[..|ms| - 1];
    }
  }

  /** Every item any monkey holds is below `modulus`. */
  predicate AllBelow(ms: seq<Monkey>, modulus: nat) {
    forall j, k :: 0 <= j < |ms| && 0 <= k < |ms[j].items| ==> ms[j].items[k] < modulus
  }

  /** The product of the test divisors in unbounded integers. */
  function Divisors(ms: seq<Monkey>): nat {
    if |ms| == 0 then 1 else Divisors(ms[..|ms| - 1]) * ms[|ms| - 1].test
  }

  /** `modulus` in `do_rounds`: the `u64` product of the test divisors, which wraps in a
      release build. */
  function Modulus(ms: seq<Monkey>): (r: nat)
    ensures r < U64_LIMIT
    ensures Divisors(ms) < U64_LIMIT ==> r == Divisors(ms)
  {
    Wrap64(Divisors(ms))
  }

  /** Every test divisor divides the exact product, so reducing by it keeps every test's
      verdict. */
  lemma {:induction false} ModulusMultiple(ms: seq<Monkey>, j: nat)
    requires j < |ms|
    ensures ms[j].test == 0 || Divisors(ms) % ms[j].test == 0
    decreases |ms|
  {
    var t := ms[j].test;
    if t != 0 {
      var prefix := Divisors(ms[..|ms| - 1]);
      if j == |ms| - 1 {
        DivModUnique(prefix * t, t, prefix, 0);
      } else {
        assert ms[..|ms| - 1][j] == ms[j];
        ModulusMultiple(ms[..|ms| - 1], j);
        var q := prefix / t;
        assert prefix == q * t;
        var last := ms[|ms| - 1].test;
        assert Divisors(ms) == (q * last) * t;
        DivModUnique(Divisors(ms), t, q * last, 0);
      }
    }
  }

  /** Reducing modulo a multiple of `t` keeps the remainder by `t`. */
  lemma ModReduce(v: nat, modulus: nat, t: nat)
    requires 0 < t && 0 < modulus && modulus % t == 0
    ensures (v % modulus) % t == v % t
  {
    var q, r := v / modulus, v % modulus;
    var k := modulus / t;
    var q2, r2 := r / t, r % t;
    assert v == q * modulus + r;
    assert modulus == k * t;
    assert r == q2 * t + r2;
    Regroup(v, q, k, t, q2, r2, r);
    DivModUnique(v, t, q * k + q2, r2);
  }

  lemma Regroup(v: nat, q: nat, k: nat, t: nat, q2: nat, r2: nat, r: nat)
    requires v == q * (k * t) + r && r == q2 * t + r2
    ensures v == (q * k + q2) * t + r2
  {
    assert q * (k * t) == (q * k) * t;
  }

  /** Reducing worry levels modulo the product of the divisors sends every item to the
      monkey it would have gone to unreduced, as long as that product fits in `u64`. */
  lemma ReductionKeepsTarget(ms: seq<Monkey>, j: nat, v: nat)
    requires j < |ms| && 0 < Divisors(ms) < U64_LIMIT
    ensures TargetOf(ms[j], v % Modulus(ms)) == TargetOf(ms[j], v)
  {
    if ms[j].test != 0 {
      ModulusMultiple(ms, j);
      ModReduce(v, Modulus(ms), ms[j].test);
    }
  }

  /** A wrapped modulus can lose the tests' verdicts: with the divisors 2^32 and 2^32 the
      `u64` product is 0, and every reduction by it panics. */
  lemma ModulusWraps()
    ensures Modulus([Monkey([], Square, U32_LIMIT, 0, 0, 0), Monkey([], Square, U32_LIMIT, 0, 0, 0)]) == 0
  {
    var ms := [Monkey([], Square, U32_LIMIT, 0, 0, 0), Monkey([], Square, U32_LIMIT, 0, 0, 0)];
    assert ms[..1][..0] == [];
    assert Divisors(ms[..1]) == U32_LIMIT;
    assert Divisors(ms) == U32_LIMIT * U32_LIMIT == U64_LIMIT;
  }

  /** One inspection: the new worry level, divided by the relief `divisor` and reduced
      modulo `modulus`; `None` where the operation or the reduction panics. */
  function Inspect(m: Monkey, item: nat, divisor: nat, modulus: nat): (r: Option<nat>)
    requires 0 < divisor
    ensures r.Some? <==> Apply(m.op, item).Some? && 0 < modulus
    ensures r.Some? ==> r.value < modulus
  {
    match Apply(m.op, item)
    case None => None
    case Some(v) => if modulus == 0 then None else Some((v / divisor) % modulus)
  }

  /** The monkey a worry level goes to; `None` where the test divisor is zero (`% 0`). */
  function TargetOf(m: Monkey, worry: nat): (t: Option<nat>)
    ensures t.Some? <==> m.test != 0
    ensures t.Some? ==> (t.value == m.ifTrue || t.value == m.ifFalse)
  {
    if m.test == 0 then None
    else if worry % m.test == 0 then Some(m.ifTrue) else Some(m.ifFalse)
  }

  /** The outcome of one throw: the monkeys afterwards, where the item went and its new
      worry level. */
  datatype Thrown = Thrown(monkeys: seq<Monkey>, target: nat, worry: nat)

  /** The body of `do_rounds`' `while let`: monkey `i` takes its first item, counts an
      inspection, and appends the new worry level to its target's queue. `None` where the
      source panics, including a target that is not a monkey. */
  function Throw(ms: seq<Monkey>, i: nat, divisor: nat, modulus: nat): (r: Option<Thrown>)
    requires i < |ms| && 0 < |ms[i].items| && 0 < divisor
    ensures r.Some? <==> (Inspect(ms[i], ms[i].items[0], divisor, modulus).Some? &&
                          ms[i].test != 0 &&
                          TargetOf(ms[i], Inspect(ms[i], ms[i].items[0], divisor, modulus).value).value < |ms|)
    ensures r.Some? ==> |r.value.monkeys| == |ms| && r.value.target < |ms| && r.value.worry < modulus
    ensures r.Some? ==> r.value.worry == Inspect(ms[i], ms[i].items[0], divisor, modulus).value
    ensures r.Some? ==> (r.value.target == ms[i].ifTrue <==> r.value.worry % ms[i].test == 0) ||
                        ms[i].ifTrue == ms[i].ifFalse
    ensures r.Some? ==> (r.value.target == ms[i].ifFalse <==> r.value.worry % ms[i].test != 0) ||
                        ms[i].ifTrue == ms[i].ifFalse
    ensures r.Some? ==> r.value.monkeys[i].inspections == ms[i].inspections + 1
    ensures r.Some? ==> forall j :: 0 <= j < |ms| && j != i ==> r.value.monkeys[j].inspections == ms[j].inspections
    ensures r.Some? ==> TotalItems(r.value.monkeys) == TotalItems(ms)
    ensures r.Some? ==> 0 < |r.value.monkeys[r.value.target].items| &&
                        Last(r.value.monkeys[r.value.target].items) == r.value.worry
    ensures r.Some? && r.value.target != i ==> r.value.monkeys[i].items == ms[i].items[1..]
    ensures r.Some? && r.value.target == i ==> r.value.monkeys[i].items == ms[i].items[1..] + [r.value.worry]
    ensures r.Some? ==> forall j :: 0 <= j < |ms| ==> (r.value.monkeys[j].op == ms[j].op &&
                          r.value.monkeys[j].test == ms[j].test && r.value.monkeys[j].ifTrue == ms[j].ifTrue &&
                          r.value.monkeys[j].ifFalse == ms[j].ifFalse)
  {
    var m := ms[i];
    match Inspect(m, m.items[0], divisor, modulus)
    case None => None
    case Some(worry) =>
      match TargetOf(m, worry)
      case None => None
      case Some(t) =>
        if t >= |ms| then None
        else
          var popped := m.(items := m.items[1..], inspections := m.inspections + 1);
          var ms1 := ms[i := popped];
          var pushed := ms1[t].(items := ms1[t].items + [worry]);
          TotalItemsUpdate(ms, i, popped);
          TotalItemsUpdate(ms1, t, pushed);
          Some(Thrown(ms1[t := pushed], t, worry))
  }

  /** A throw keeps every held item below the modulus. */
  lemma ThrowBelow(ms: seq<Monkey>, i: nat, divisor: nat, modulus: nat)
    requires i < |ms| && 0 < |ms[i].items| && 0 < divisor
    requires AllBelow(ms, modulus) && Throw(ms, i, divisor, modulus).Some?
    ensures AllBelow(Throw(ms, i, divisor, modulus).value.monkeys, modulus)
  {
    var r := Throw(ms, i, divisor, modulus).value;
    var popped := ms[i].(items := ms[i].items[1..], inspections := ms[i].inspections + 1);
    var ms1 := ms[i := popped];
    assert r.monkeys == ms1[r.target := ms1[r.target].(items := ms1[r.target].items + [r.worry])];
    assert AllBelow(ms1, modulus) by {
      forall j, k | 0 <= j < |ms1| && 0 <= k < |ms1[j].items|
        ensures ms1[j].items[k] < modulus
      {
        if j == i {
          assert ms1[j].items[k] == ms[i].items[k + 1];
        }
      }
    }
  }

  /** The monkeys after one throw, with only the facts a turn needs. */
  function Pop(ms: seq<Monkey>, i: nat, divisor: nat, modulus: nat): (r: Option<seq<Monkey>>)
    requires i < |ms| && 0 < |ms[i].items| && 0 < divisor
    ensures r.Some? <==> Throw(ms, i, divisor, modulus).Some?
    ensures r.Some? ==> |r.value| == |ms| && TotalItems(r.value) == TotalItems(ms)
    ensures r.Some? ==> r.value[i].inspections == ms[i].inspections + 1
    ensures r.Some? ==> |ms[i].items| <= |r.value[i].items| + 1
    ensures r.Some? && ms[i].ifTrue != i && ms[i].ifFalse != i ==> r.value[i].items == ms[i].items[1..]
  {
    match Throw(ms, i, divisor, modulus)
    case None => None
    case Some(thrown) =>
      assert TargetOf(ms[i], thrown.worry).value == thrown.target;
      Some(thrown.monkeys)
  }

  /** What a turn leaves: the monkeys afterwards and how many items were popped. */
  datatype TurnResult = TurnResult(monkeys: seq<Monkey>, throws: nat)

  /** The most pops a turn is followed for: the `u64` inspection counter cannot count more. */
  const TURN_FUEL: nat := U64_LIMIT

  /** Monkey `i`'s turn (the `while let` loop): it pops and throws until its queue is empty.
      An item thrown to the monkey itself joins the back of its own queue and is popped
      again later. `None` where a throw panics, or when the queue is still not empty after
      `fuel` pops. */
  function Turn(ms: seq<Monkey>, i: nat, divisor: nat, modulus: nat, fuel: nat): (r: Option<TurnResult>)
    requires i < |ms| && 0 < divisor
    ensures r.Some? ==> |r.value.monkeys| == |ms| && r.value.monkeys[i].items == []
    ensures r.Some? ==> r.value.monkeys[i].inspections == ms[i].inspections + r.value.throws
    ensures r.Some? ==> |ms[i].items| <= r.value.throws <= fuel
    ensures r.Some? ==> TotalItems(r.value.monkeys) == TotalItems(ms)
    decreases fuel
  {
    if |ms[i].items| == 0 then Some(TurnResult(ms, 0))
    else if fuel == 0 then None
    else match Pop(ms, i, divisor, modulus)
      case None => None
      case Some(next) => AfterPop(Turn(next, i, divisor, modulus, fuel - 1))
  }

  /** The rest of a turn, counted with the pop that came before it. */
  function AfterPop(rest: Option<TurnResult>): (r: Option<TurnResult>)
    ensures r.Some? <==> rest.Some?
    ensures r.Some? ==> r.value.monkeys == rest.value.monkeys && r.value.throws == rest.value.throws + 1
  {
    match rest
    case None => None
    case Some(t) => Some(TurnResult(t.monkeys, t.throws + 1))
  }

  /** One pop of a turn, unfolded: the pop that gives `next`, then the rest of the turn on
      the remaining fuel `rest`. */
  lemma TurnUnfold(ms: seq<Monkey>, i: nat, divisor: nat, modulus: nat, fuel: nat, rest: nat, next: seq<Monkey>)
    requires i < |ms| && 0 < divisor && 0 < |ms[i].items| && fuel == rest + 1
    requires Pop(ms, i, divisor, modulus) == Some(next)
    ensures Turn(ms, i, divisor, modulus, fuel) == AfterPop(Turn(next, i, divisor, modulus, rest))
  {
    TurnUnfoldPop(ms, i, divisor, modulus, fuel);
    TurnArgs(next, Pop(ms, i, divisor, modulus).value, i, divisor, modulus, rest, fuel - 1);
  }

  /** Equal arguments give equal turns. */
  lemma TurnArgs(ms: seq<Monkey>, ms': seq<Monkey>, i: nat, divisor: nat, modulus: nat, fuel: nat, fuel': nat)
    requires i < |ms| && 0 < divisor && ms == ms' && fuel == fuel'
    ensures Turn(ms, i, divisor, modulus, fuel) == Turn(ms', i, divisor, modulus, fuel')
  {
  }

  /** `TurnUnfold` stated on the pop itself and the fuel it leaves. */
  lemma TurnUnfoldPop(ms: seq<Monkey>, i: nat, divisor: nat, modulus: nat, fuel: nat)
    requires i < |ms| && 0 < divisor && 0 < |ms[i].items| && 0 < fuel
    ensures Pop(ms, i, divisor, modulus).Some? ==>
              Turn(ms, i, divisor, modulus, fuel) == AfterPop(Turn(Pop(ms, i, divisor, modulus).value, i, divisor, modulus, fuel - 1))
  {
  }

  /** A finished turn with items to pop spent fuel on a pop that succeeded. */
  lemma TurnSomeStep(ms: seq<Monkey>, i: nat, divisor: nat, modulus: nat, fuel: nat)
    requires i < |ms| && 0 < divisor && 0 < |ms[i].items|
    requires Turn(ms, i, divisor, modulus, fuel).Some?
    ensures 0 < fuel && Pop(ms, i, divisor, modulus).Some?
  {
  }

  /** More fuel never changes a turn that finished. */
  lemma {:induction false} TurnFuelMonotone(ms: seq<Monkey>, i: nat, divisor: nat, modulus: nat, fuel: nat, more: nat)
    requires i < |ms| && 0 < divisor && fuel <= more
    requires Turn(ms, i, divisor, modulus, fuel).Some?
    ensures Turn(ms, i, divisor, modulus, more) == Turn(ms, i, divisor, modulus, fuel)
    decreases fuel
  {
    if |ms[i].items| > 0 {
      TurnSomeStep(ms, i, divisor, modulus, fuel);
      var next := Pop(ms, i, divisor, modulus).value;
      var rest: nat, moreRest: nat := fuel - 1, more - 1;
      TurnUnfold(ms, i, divisor, modulus, fuel, rest, next);
      TurnUnfold(ms, i, divisor, modulus, more, moreRest, next);
      TurnFuelMonotone(next, i, divisor, modulus, rest, moreRest);
    }
  }

  /** A monkey that never throws to itself pops each of its items exactly once, and the
      turn needs no more fuel than that. */
  lemma {:induction false} TurnWithoutSelfThrow(ms: seq<Monkey>, i: nat, divisor: nat, modulus: nat, fuel: nat)
    requires i < |ms| && 0 < divisor && ms[i].ifTrue != i && ms[i].ifFalse != i
    requires |ms[i].items| <= fuel
    ensures Turn(ms, i, divisor, modulus, fuel).Some? ==>
              Turn(ms, i, divisor, modulus, fuel).value.throws == |ms[i].items|
    ensures Turn(ms, i, divisor, modulus, fuel) == Turn(ms, i, divisor, modulus, |ms[i].items|)
    decreases fuel
  {
    var n := |ms[i].items|;
    if n > 0 {
      match Pop(ms, i, divisor, modulus)
      case None =>
      case Some(next) =>
        var rest: nat, nRest: nat := fuel - 1, n - 1;
        assert |next[i].items| == nRest;
        TurnUnfold(ms, i, divisor, modulus, fuel, rest, next);
        TurnUnfold(ms, i, divisor, modulus, n, nRest, next);
        TurnWithoutSelfThrow(next, i, divisor, modulus, rest);
    }
  }

  /** A self-throw does not end the turn: the item is inspected again and can leave. Monkey 0
      sends 1 + 1 = 2 (even) to itself, then 2 + 1 = 3 (odd) to monkey 1, after two pops. */
  lemma SelfThrowLeaves()
    ensures var ms := [Monkey([1], Add(1), 2, 0, 1, 0), Monkey([], Add(1), 3, 0, 0, 0)];
      && Turn(ms, 0, 1, 6, 2).Some?
      && Turn(ms, 0, 1, 6, 2).value.throws == 2
      && Turn(ms, 0, 1, 6, 2).value.monkeys[1].items == [3]
  {
    var ms := [Monkey([1], Add(1), 2, 0, 1, 0), Monkey([], Add(1), 3, 0, 0, 0)];
    var t1 := Throw(ms, 0, 1, 6).value;
    assert t1.target == 0 && t1.worry == 2;
    var t2 := Throw(t1.monkeys, 0, 1, 6).value;
    assert t2.target == 1 && t2.worry == 3;
  }

  /** A turn changes no other monkey's inspection count, and keeps every held item below
      the modulus. */
  lemma {:induction false} TurnFacts(ms: seq<Monkey>, i: nat, divisor: nat, modulus: nat, fuel: nat)
    requires i < |ms| && 0 < divisor && Turn(ms, i, divisor, modulus, fuel).Some?
    ensures forall j :: 0 <= j < |ms| && j != i ==>
              Turn(ms, i, divisor, modulus, fuel).value.monkeys[j].inspections == ms[j].inspections
    ensures AllBelow(ms, modulus) ==> AllBelow(Turn(ms, i, divisor, modulus, fuel).value.monkeys, modulus)
    decreases fuel
  {
    if |ms[i].items| > 0 {
      TurnSomeStep(ms, i, divisor, modulus, fuel);
      var next := Pop(ms, i, divisor, modulus).value;
      var rest: nat := fuel - 1;
      TurnUnfold(ms, i, divisor, modulus, fuel, rest, next);
      TurnFacts(next, i, divisor, modulus, rest);
      if AllBelow(ms, modulus) {
        ThrowBelow(ms, i, divisor, modulus);
      }
    }
  }

  /** The turns of monkeys `i .. len - 1`, in order: the rest of one round. */
  function Round(ms: seq<Monkey>, i: nat, divisor: nat, modulus: nat, fuel: nat): (r: Option<seq<Monkey>>)
    requires i <= |ms| && 0 < divisor
    ensures r.Some? ==> |r.value| == |ms| && TotalItems(r.value) == TotalItems(ms)
    decreases |ms| - i
  {
    if i == |ms| then Some(ms)
    else match Turn(ms, i, divisor, modulus, fuel)
      case None => None
      case Some(turn) => Round(turn.monkeys, i + 1, divisor, modulus, fuel)
  }

  /** Inspection counts never go down over a round, and held items stay below the modulus. */
  lemma {:induction false} RoundFacts(ms: seq<Monkey>, i: nat, divisor: nat, modulus: nat, fuel: nat)
    requires i <= |ms| && 0 < divisor && Round(ms, i, divisor, modulus, fuel).Some?
    ensures NoFewer(ms, Round(ms, i, divisor, modulus, fuel).value)
    ensures AllBelow(ms, modulus) ==> AllBelow(Round(ms, i, divisor, modulus, fuel).value, modulus)
    decreases |ms| - i
  {
    if i < |ms| {
      var next := Turn(ms, i, divisor, modulus, fuel).value.monkeys;
      var j := i + 1;
      RoundUnfold(ms, i, divisor, modulus, fuel, j, next);
      TurnFacts(ms, i, divisor, modulus, fuel);
      assert NoFewer(ms, next);
      RoundFacts(next, j, divisor, modulus, fuel);
      NoFewerTrans(ms, next, Round(next, j, divisor, modulus, fuel).value);
    }
  }

  /** One turn of a round, unfolded: monkey `i`'s turn leaves `next`, and monkey `j` goes next. */
  lemma RoundUnfold(ms: seq<Monkey>, i: nat, divisor: nat, modulus: nat, fuel: nat, j: nat, next: seq<Monkey>)
    requires i < |ms| && 0 < divisor && j == i + 1
    requires Turn(ms, i, divisor, modulus, fuel).Some? && Turn(ms, i, divisor, modulus, fuel).value.monkeys == next
    ensures Round(ms, i, divisor, modulus, fuel) == Round(next, j, divisor, modulus, fuel)
  {
  }

  /** Every monkey has inspected at least as many items in `b` as in `a`. */
  predicate NoFewer(a: seq<Monkey>, b: seq<Monkey>) {
    |a| == |b| && forall j :: 0 <= j < |a| ==> a[j].inspections <= b[j].inspections
  }

  lemma NoFewerTrans(a: seq<Monkey>, b: seq<Monkey>, c: seq<Monkey>)
    requires NoFewer(a, b) && NoFewer(b, c)
    ensures NoFewer(a, c)
  {
  }

  /** `rounds` full rounds. */
  function Rounds(ms: seq<Monkey>, rounds: nat, divisor: nat, modulus: nat, fuel: nat): (r: Option<seq<Monkey>>)
    requires 0 < divisor
    ensures r.Some? ==> |r.value| == |ms| && TotalItems(r.value) == TotalItems(ms)
    decreases rounds
  {
    if rounds == 0 then Some(ms)
    else match Round(ms, 0, divisor, modulus, fuel)
      case None => None
      case Some(next) => Rounds(next, rounds - 1, divisor, modulus, fuel)
  }

  function Inspections(ms: seq<Monkey>): (r: seq<int>)
    ensures |r| == |ms|
  {
    seq(|ms|, j requires 0 <= j < |ms| => ms[j].inspections)
  }

  /** `do_rounds::<ROUNDS, DIVISOR>`: play the rounds with worry levels reduced modulo the
      product of the test divisors, then multiply the two largest inspection counts (a
      `u64` product, wrapping). */
  function DoRounds(ms: seq<Monkey>, rounds: nat, divisor: nat, fuel: nat): (r: Option<int>)
    requires 0 < divisor
    ensures r.Some? <==> Rounds(ms, rounds, divisor, Modulus(ms), fuel).Some?
    ensures r.Some? && 2 <= |ms| ==>
              exists a, b :: r.value == Wrap64(a * b) &&
                IsTopTwo(Inspections(Rounds(ms, rounds, divisor, Modulus(ms), fuel).value), a, b)
  {
    match Rounds(ms, rounds, divisor, Modulus(ms), fuel)
    case None => None
    case Some(final) =>
      var counts := Inspections(final);
      TopTwoWhenTwo(counts);
      Some(Wrap64(ProductLargest(counts, 2)))
  }

  lemma TopTwoWhenTwo(counts: seq<int>)
    ensures 2 <= |counts| ==> exists a, b :: IsTopTwo(counts, a, b) && ProductLargest(counts, 2) == a * b
  {
    if 2 <= |counts| {
      ProductLargestTwo(counts);
    }
  }

  /** Rounds keep every held item below the modulus. */
  lemma {:induction false} RoundsBelow(ms: seq<Monkey>, rounds: nat, divisor: nat, modulus: nat, fuel: nat)
    requires 0 < divisor && AllBelow(ms, modulus) && Rounds(ms, rounds, divisor, modulus, fuel).Some?
    ensures AllBelow(Rounds(ms, rounds, divisor, modulus, fuel).value, modulus)
    decreases rounds
  {
    if rounds > 0 {
      var next := Round(ms, 0, divisor, modulus, fuel).value;
      RoundFacts(ms, 0, divisor, modulus, fuel);
      RoundsBelow(next, rounds - 1, divisor, modulus, fuel);
    }
  }

  /** `part1`: 20 rounds with the worry level divided by 3 after each inspection. */
  function Part1(ms: seq<Monkey>): Option<int> {
    DoRounds(ms, 20, 3, TURN_FUEL)
  }

  /** `part2`: 10000 rounds without relief. */
  function Part2(ms: seq<Monkey>): Option<int> {
    DoRounds(ms, 10000, 1, TURN_FUEL)
  }
}
