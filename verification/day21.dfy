/** Monkey Math (day 21): every monkey either yells a number or combines the numbers of two
    other monkeys; the values are exact rationals. */
module Day21 {
  import opened Util
  import opened Text

  /** A monkey's four-byte name. */
  type Name = string

  /** A monkey's job: a number, or one of the four operations on two other monkeys. */
  datatype Monkey =
    | Num(v: real)
    | Add(a: Name, b: Name)
    | Sub(a: Name, b: Name)
    | Mul(a: Name, b: Name)
    | Div(a: Name, b: Name)

  const ROOT: Name := "root"
  const HUMN: Name := "humn"

  /** The monkeys whose numbers a job needs. */
  function Operands(m: Monkey): set<Name> {
    if m.Num? then {} else {m.a, m.b}
  }

  /** Rational multiplication, named so that the solver sees a product of two monkeys'
      values as one term rather than unfolding non-linear real arithmetic in every proof
      that mentions `Apply`. */
  function Times(x: real, y: real): real {
    x * y
  }

  /** `Monkey::evaluate`: the number for `Num`, or the operation on the operands' values.
      `None` where the source panics: an operand not evaluated yet (map index) or a
      division by zero. */
  function Apply(m: Monkey, ev: map<Name, real>): (r: Option<real>)
    ensures r.Some? <==> Operands(m) <= ev.Keys && !(m.Div? && ev[m.b] == 0.0)
  {
    match m
    case Num(v) => Some(v)
    case Add(a, b) => if a in ev && b in ev then Some(ev[a] + ev[b]) else None
    case Sub(a, b) => if a in ev && b in ev then Some(ev[a] - ev[b]) else None
    case Mul(a, b) => if a in ev && b in ev then Some(Times(ev[a], ev[b])) else None
    case Div(a, b) => if a in ev && b in ev && ev[b] != 0.0 then Some(ev[a] / ev[b]) else None
  }

  /** A job's value depends only on its operands' values. */
  lemma ApplyAgree(m: Monkey, ev1: map<Name, real>, ev2: map<Name, real>)
    requires forall o :: o in Operands(m) ==> o in ev1 && o in ev2 && ev1[o] == ev2[o]
    ensures Apply(m, ev1) == Apply(m, ev2)
  {
    if !m.Num? {
      assert m.a in Operands(m) && m.b in Operands(m);
      assert m.a in ev1 && m.b in ev1 && ev1[m.a] == ev2[m.a] && ev1[m.b] == ev2[m.b];
    }
  }

  /** The first `k` names of an evaluation order. */
  function Prefix(order: seq<Name>, k: nat): (r: set<Name>)
    requires k <= |order|
    ensures forall n :: n in r <==> exists i :: 0 <= i < k && order[i] == n
  {
    set i | 0 <= i < k :: order[i]
  }

  /** Every name of `order` is a monkey whose operands all come earlier: the reversed
      topological order `topo_sort` produces. */
  predicate TopoOrdered(input: map<Name, Monkey>, order: seq<Name>) {
    forall i :: 0 <= i < |order| ==> order[i] in input && Operands(input[order[i]]) <= Prefix(order, i)
  }

  /** `ev` gives every monkey it covers the value its job computes from `ev` itself. */
  predicate Solved(input: map<Name, Monkey>, ev: map<Name, real>) {
    forall n :: n in ev ==> n in input && Apply(input[n], ev) == Some(ev[n])
  }

  /** The loop of `evaluate_p1` from position `k` of the order on: evaluate each monkey
      from the values so far and record it. */
  function EvalFrom(input: map<Name, Monkey>, order: seq<Name>, k: nat, ev: map<Name, real>): (r: Option<map<Name, real>>)
    requires k <= |order|
    decreases |order| - k
  {
    if k == |order| then Some(ev)
    else
      var n := order[k];
      if n !in input then None
      else match Apply(input[n], ev)
        case None => None
        case Some(v) => EvalFrom(input, order, k + 1, ev[n := v])
  }

  /** Recording a new monkey does not change the value of a job that was already
      computable. */
  lemma ApplyExtend(m: Monkey, ev: map<Name, real>, n: Name, v: real)
    requires Apply(m, ev).Some? && n !in ev
    ensures Apply(m, ev[n := v]) == Apply(m, ev)
  {
    ApplyAgree(m, ev, ev[n := v]);
  }

  /** One step of the evaluation loop keeps the recorded map a solution of exactly the
      names evaluated so far. */
  lemma EvalStep(input: map<Name, Monkey>, order: seq<Name>, k: nat, ev: map<Name, real>)
    requires k < |order| && AllDistinct(order)
    requires ev.Keys == Prefix(order, k) && Solved(input, ev)
    requires order[k] in input && Apply(input[order[k]], ev).Some?
    ensures var ev' := ev[order[k] := Apply(input[order[k]], ev).value];
      ev'.Keys == Prefix(order, k + 1) && Solved(input, ev')
  {
    var n := order[k];
    var v := Apply(input[n], ev).value;
    var ev' := ev[n := v];
    assert forall i :: 0 <= i < k ==> order[i] != n;
    assert n !in ev;
    assert ev'.Keys == Prefix(order, k + 1);
    forall m | m in ev'
      ensures m in input && Apply(input[m], ev') == Some(ev'[m])
    {
      if m != n {
        assert m in ev && Apply(input[m], ev) == Some(ev[m]);
        ApplyExtend(input[m], ev, n, v);
      } else {
        ApplyExtend(input[n], ev, n, v);
      }
    }
  }

  /** Evaluating along a duplicate-free order that succeeds leaves a map that records
      exactly the listed monkeys and solves every recorded monkey's equation. */
  lemma {:induction false} EvalFromSolves(input: map<Name, Monkey>, order: seq<Name>, k: nat, ev: map<Name, real>)
    requires k <= |order| && AllDistinct(order)
    requires ev.Keys == Prefix(order, k) && Solved(input, ev)
    requires EvalFrom(input, order, k, ev).Some?
    ensures EvalFrom(input, order, k, ev).value.Keys == Prefix(order, |order|)
    ensures Solved(input, EvalFrom(input, order, k, ev).value)
    decreases |order| - k
  {
    if k < |order| {
      var n := order[k];
      var v := Apply(input[n], ev).value;
      EvalStep(input, order, k, ev);
      assert EvalFrom(input, order, k, ev) == EvalFrom(input, order, k + 1, ev[n := v]);
      EvalFromSolves(input, order, k + 1, ev[n := v]);
    }
  }

  /** An evaluation that succeeds found every operand already evaluated: the order is
      topological from position `k` on. */
  lemma {:induction false} EvalFromOrdered(input: map<Name, Monkey>, order: seq<Name>, k: nat, ev: map<Name, real>)
    requires k <= |order| && AllDistinct(order)
    requires ev.Keys == Prefix(order, k)
    requires EvalFrom(input, order, k, ev).Some?
    ensures forall i :: k <= i < |order| ==> order[i] in input && Operands(input[order[i]]) <= Prefix(order, i)
    decreases |order| - k
  {
    if k < |order| {
      var n := order[k];
      var v := Apply(input[n], ev).value;
      assert Operands(input[n]) <= Prefix(order, k);
      assert ev[n := v].Keys == Prefix(order, k + 1);
      assert EvalFrom(input, order, k, ev) == EvalFrom(input, order, k + 1, ev[n := v]);
      EvalFromOrdered(input, order, k + 1, ev[n := v]);
    }
  }

  /** The whole evaluation loop of `evaluate_p1`, from an empty map. */
  function EvaluateAll(input: map<Name, Monkey>, order: seq<Name>): (r: Option<map<Name, real>>)
    requires AllDistinct(order)
    ensures r.Some? ==> r.value.Keys == Prefix(order, |order|) && Solved(input, r.value)
    ensures r.Some? ==> TopoOrdered(input, order)
  {
    var r := EvalFrom(input, order, 0, map[]);
    if r.Some? then
      EvalFromSolves(input, order, 0, map[]);
      EvalFromOrdered(input, order, 0, map[]);
      r
    else r
  }

  /** Two solutions that cover a topologically ordered list of monkeys agree on it: the
      value of each listed monkey is determined by the jobs alone. */
  lemma {:induction false} SolutionUnique(input: map<Name, Monkey>, order: seq<Name>, ev1: map<Name, real>, ev2: map<Name, real>, i: nat)
    requires TopoOrdered(input, order) && i < |order|
    requires Solved(input, ev1) && Solved(input, ev2)
    requires Prefix(order, |order|) <= ev1.Keys && Prefix(order, |order|) <= ev2.Keys
    ensures ev1[order[i]] == ev2[order[i]]
    decreases i
  {
    var m := input[order[i]];
    forall o | o in Operands(m)
      ensures o in ev1 && o in ev2 && ev1[o] == ev2[o]
    {
      var j :| 0 <= j < i && order[j] == o;
      SolutionUnique(input, order, ev1, ev2, j);
    }
    ApplyAgree(m, ev1, ev2);
  }

  /** `evaluate_p1`: root's number, evaluating along `order` (the output of `topo_sort`,
      which is not part of this model). */
  function EvaluateP1(input: map<Name, Monkey>, order: seq<Name>): (r: Option<real>)
    requires AllDistinct(order)
    ensures r.Some? ==> EvaluateAll(input, order).Some? && ROOT in EvaluateAll(input, order).value
    ensures r.Some? ==> r.value == EvaluateAll(input, order).value[ROOT]
  {
    match EvaluateAll(input, order)
    case None => None
    case Some(ev) => if ROOT in ev then Some(ev[ROOT]) else None
  }

  /** Root's number is the one every solution of the monkeys' equations gives it. */
  lemma EvaluateP1Unique(input: map<Name, Monkey>, order: seq<Name>, ev: map<Name, real>)
    requires AllDistinct(order) && EvaluateP1(input, order).Some?
    requires Solved(input, ev) && Prefix(order, |order|) <= ev.Keys
    ensures ev[ROOT] == EvaluateP1(input, order).value
  {
    var all := EvaluateAll(input, order).value;
    var i :| 0 <= i < |order| && order[i] == ROOT;
    SolutionUnique(input, order, ev, all, i);
  }

  /** `fixed_root_monkey`: root's job turned into a subtraction of its operands, so that it
      yields zero exactly when they are equal; a number job panics. */
  function FixRoot(m: Monkey): (r: Option<Monkey>)
    ensures r.Some? <==> !m.Num?
    ensures r.Some? ==> r.value.Sub? && r.value.a == m.a && r.value.b == m.b
  {
    match m
    case Num(_) => None
    case Add(a, b) => Some(Sub(a, b))
    case Sub(a, b) => Some(m)
    case Mul(a, b) => Some(Sub(a, b))
    case Div(a, b) => Some(Sub(a, b))
  }

  /** The jobs `do_evaluation` uses: root's fixed job, and `humn` yelling the trial value. */
  function Patch(input: map<Name, Monkey>, fixed: Monkey, h: real): (r: map<Name, Monkey>)
    ensures r.Keys == input.Keys
    ensures ROOT in input ==> r[ROOT] == fixed
    ensures HUMN in input ==> r[HUMN] == Num(h)
    ensures forall n :: n in input && n != ROOT && n != HUMN ==> r[n] == input[n]
  {
    map n | n in input :: if n == ROOT then fixed else if n == HUMN then Num(h) else input[n]
  }

  /** `do_evaluation`: root's number with the patched jobs. */
  function DoEvaluation(input: map<Name, Monkey>, order: seq<Name>, fixed: Monkey, h: real): (r: Option<real>)
    requires AllDistinct(order)
  {
    EvaluateP1(Patch(input, fixed, h), order)
  }

  /** A zero from the fixed root means the two sides of root's equation agree, with `humn`
      yelling the trial value. */
  lemma ZeroMeansEqual(input: map<Name, Monkey>, order: seq<Name>, fixed: Monkey, h: real)
    requires AllDistinct(order) && ROOT in input && fixed.Sub?
    requires DoEvaluation(input, order, fixed, h) == Some(0.0)
    ensures EvaluateAll(Patch(input, fixed, h), order).Some?
    ensures var ev := EvaluateAll(Patch(input, fixed, h), order).value;
      fixed.a in ev && fixed.b in ev && ev[fixed.a] == ev[fixed.b]
    ensures HUMN in input && HUMN in EvaluateAll(Patch(input, fixed, h), order).value ==>
      EvaluateAll(Patch(input, fixed, h), order).value[HUMN] == h
  {
    var patched := Patch(input, fixed, h);
    var ev := EvaluateAll(patched, order).value;
    assert Apply(patched[ROOT], ev) == Some(ev[ROOT]);
    if HUMN in input && HUMN in ev {
      assert Apply(patched[HUMN], ev) == Some(ev[HUMN]);
    }
  }

  /** The secant step through `(x0, r0)` and `(x1, r1)`; `None` where the two results are
      equal and the rational division panics. */
  function SecantStep(x0: real, r0: real, x1: real, r1: real): (x2: Option<real>)
    ensures x2.Some? <==> r1 != r0
  {
    if r1 == r0 then None else Some(x1 - r1 * (x1 - x0) / (r1 - r0))
  }

  /** On an affine function the secant step from two different points lands on its root:
      root's fixed job is affine in `humn` when `humn` is used once, which is why the search
      stops. */
  lemma SecantAffine(a: real, b: real, x0: real, x1: real)
    requires a != 0.0 && x0 != x1
    ensures SecantStep(x0, a * x0 + b, x1, a * x1 + b).Some?
    ensures a * SecantStep(x0, a * x0 + b, x1, a * x1 + b).value + b == 0.0
  {
    var r0, r1 := a * x0 + b, a * x1 + b;
    assert r1 - r0 == a * (x1 - x0);
    assert r1 * (x1 - x0) / (r1 - r0) == r1 / a;
    assert a * (x1 - r1 / a) + b == 0.0;
  }

  /** The loop of `evaluate_p2`: try `x1`; stop when root yields zero, otherwise take the
      secant step. The source loops until it finds a zero; `fuel` bounds the number of
      trials, and running out is `None`. */
  function Search(input: map<Name, Monkey>, order: seq<Name>, fixed: Monkey, x0: real, r0: real, x1: real, fuel: nat): (r: Option<real>)
    requires AllDistinct(order)
    ensures r.Some? ==> DoEvaluation(input, order, fixed, r.value) == Some(0.0)
    decreases fuel
  {
    if fuel == 0 then None
    else match DoEvaluation(input, order, fixed, x1)
      case None => None
      case Some(r1) =>
        if r1 == 0.0 then Some(x1)
        else match SecantStep(x0, r0, x1, r1)
          case None => None
          case Some(x2) => Search(input, order, fixed, x1, r1, x2, fuel - 1)
  }

  /** `evaluate_p2`: the number `humn` must yell for root's two operands to agree, found by
      trying 0, then 1, then secant steps. `None` where the source panics (no root, a
      number at the root, a failing evaluation) or `fuel` runs out. */
  function EvaluateP2(input: map<Name, Monkey>, order: seq<Name>, fuel: nat): (r: Option<real>)
    requires AllDistinct(order)
    ensures r.Some? ==> ROOT in input && !input[ROOT].Num?
    ensures r.Some? ==> DoEvaluation(input, order, FixRoot(input[ROOT]).value, r.value) == Some(0.0)
  {
    if ROOT !in input then None
    else match FixRoot(input[ROOT])
      case None => None
      case Some(fixed) =>
        match DoEvaluation(input, order, fixed, 0.0)
        case None => None
        case Some(r0) =>
          if r0 == 0.0 then Some(0.0)
          else Search(input, order, fixed, 0.0, r0, 1.0, fuel)
  }

  /** An `i64` in decimal. */
  function ParseI64(s: string): Option<int> {
    ParseSigned(s, I64_MIN, I64_MAX)
  }

  /** The rational `n / d`. */
  function Quotient(n: int, d: int): real
    requires d != 0
  {
    n as real / d as real
  }

  /** `Rational64::from_str`: an `i64` numerator, optionally followed by `/` and an `i64`
      denominator (split at the first `/`). `None` for a part that does not parse or a
      zero denominator. */
  function ParseRational(s: string): (r: Option<real>)
    ensures r.Some? ==> exists n, d :: I64_MIN <= n <= I64_MAX && I64_MIN <= d <= I64_MAX && d != 0 && r.value == Quotient(n, d)
  {
    match SplitOnce(s, '/')
    case None =>
      (match ParseI64(s)
       case None => None
       case Some(n) => assert Quotient(n, 1) == n as real; Some(n as real))
    case Some((num, den)) =>
      match (ParseI64(num), ParseI64(den))
      case (Some(n), Some(d)) => if d == 0 then None else Some(Quotient(n, d))
      case _ => None
  }

  /** A whole `i64` written without a slash reads back as itself. */
  lemma ParseRationalWhole(v: int)
    requires I64_MIN <= v <= I64_MAX
    ensures ParseRational(IntToString(v)) == Some(v as real)
  {
    ParseSignedRoundTrip(v, I64_MIN, I64_MAX);
    assert '/' !in IntToString(v);
  }

  /** A fraction of two `i64`s written `n/d` reads back as their quotient, and as nothing
      when the denominator is zero. */
  lemma ParseRationalFraction(n: int, d: int)
    requires I64_MIN <= n <= I64_MAX && I64_MIN <= d <= I64_MAX
    ensures ParseRational(IntToString(n) + "/" + IntToString(d)) == if d == 0 then None else Some(Quotient(n, d))
  {
    var x, y := IntToString(n), IntToString(d);
    assert '/' !in x;
    assert x + "/" + y == x + ['/'] + y;
    SplitOnceAt(x, '/', y);
    ParseSignedRoundTrip(n, I64_MIN, I64_MAX);
    ParseSignedRoundTrip(d, I64_MIN, I64_MAX);
  }

  /** One line of the input after trimming, as `input_generator` decodes it: the name is
      the first four bytes; from byte 6 on, a number when that byte is a digit, otherwise
      two four-byte operands around an operator byte. `None` where the source panics. */
  function DecodeLine(l: string): (r: Option<(Name, Monkey)>)
    ensures r.Some? ==> 4 <= |l| && |r.value.0| == 4 && r.value.0 == l[..4]
    ensures r.Some? && !r.value.1.Num? ==> |l| == 17 && r.value.1.a == l[6..10] && r.value.1.b == l[13..]
    ensures r.Some? && r.value.1.Num? ==> 6 < |l| && IsDigit(l[6])
  {
    if |l| < 7 then None
    else
      var name := l[..4];
      var suffix := l[6..];
      if IsDigit(suffix[0]) then
        match ParseRational(suffix)
        case None => None
        case Some(v) => Some((name, Num(v)))
      else if |suffix| != 11 then None
      else
        var a, b := suffix[..4], suffix[7..];
        match suffix[5]
        case '+' => Some((name, Add(a, b)))
        case '-' => Some((name, Sub(a, b)))
        case '*' => Some((name, Mul(a, b)))
        case '/' => Some((name, Div(a, b)))
        case _ => None
  }

  /** A line as the input writes it. */
  function RenderLine(name: Name, m: Monkey): string
    requires m.Num? ==> m.v.Floor as real == m.v && 0.0 <= m.v
  {
    name + ": " +
    match m
    case Num(v) => NatToString(v.Floor as nat)
    case Add(a, b) => a + " + " + b
    case Sub(a, b) => a + " - " + b
    case Mul(a, b) => a + " * " + b
    case Div(a, b) => a + " / " + b
  }

  /** The job's operator byte. */
  function OpChar(m: Monkey): char
    requires !m.Num?
  {
    match m
    case Add(_, _) => '+'
    case Sub(_, _) => '-'
    case Mul(_, _) => '*'
    case Div(_, _) => '/'
  }

  /** Decoding the rendering of a four-byte name with a non-negative whole number that fits
      in `i64`, or with two four-byte operands that do not start with a digit, gives them
      back. */
  lemma DecodeRender(name: Name, m: Monkey)
    requires |name| == 4
    requires m.Num? ==> m.v.Floor as real == m.v && 0.0 <= m.v && m.v.Floor <= I64_MAX
    requires !m.Num? ==> |m.a| == 4 && |m.b| == 4 && !IsDigit(m.a[0])
    ensures DecodeLine(RenderLine(name, m)) == Some((name, m))
  {
    var l := RenderLine(name, m);
    assert l[..4] == name;
    if m.Num? {
      DecodeRenderNum(name, m.v, l);
    } else {
      DecodeRenderOp(name, m, l);
    }
  }

  lemma DecodeRenderNum(name: Name, v: real, l: string)
    requires |name| == 4 && v.Floor as real == v && 0.0 <= v && v.Floor <= I64_MAX
    requires l == RenderLine(name, Num(v))
    ensures DecodeLine(l) == Some((name, Num(v)))
  {
    var n: nat := v.Floor as nat;
    var digits := NatToString(n);
    assert l == name + ": " + digits;
    assert l[..4] == name && l[6..] == digits;
    assert digits == IntToString(n);
    ParseRationalWhole(n);
  }

  lemma DecodeRenderOp(name: Name, m: Monkey, l: string)
    requires |name| == 4 && !m.Num? && |m.a| == 4 && |m.b| == 4 && !IsDigit(m.a[0])
    requires l == RenderLine(name, m)
    ensures DecodeLine(l) == Some((name, m))
  {
    var suffix := l[6..];
    assert l == name + ": " + (m.a + [' ', OpChar(m), ' '] + m.b);
    assert l[..4] == name;
    assert suffix == m.a + [' ', OpChar(m), ' '] + m.b;
    assert suffix[..4] == m.a && suffix[7..] == m.b && suffix[5] == OpChar(m);
  }

  /** The decoded jobs of the lines, skipping the blank ones; `None` where a line does not
      decode. */
  function DecodeLines(lines: seq<string>): (r: Option<seq<(Name, Monkey)>>)
    ensures r.Some? <==> forall k :: 0 <= k < |lines| ==> Trim(lines[k]) == "" || DecodeLine(Trim(lines[k])).Some?
    decreases |lines|
  {
    if |lines| == 0 then Some([])
    else
      var t := Trim(lines[0]);
      match DecodeLines(lines[1..])
      case None => None
      case Some(rest) =>
        if t == "" then Some(rest)
        else match DecodeLine(t)
          case None => None
          case Some(pair) => Some([pair] + rest)
  }

  /** Every decoded job is the decoding of one of the lines. */
  lemma {:induction false} DecodedFromLine(lines: seq<string>, j: nat)
    requires DecodeLines(lines).Some? && j < |DecodeLines(lines).value|
    ensures exists k :: 0 <= k < |lines| && DecodeLine(Trim(lines[k])) == Some(DecodeLines(lines).value[j])
    decreases |lines|
  {
    var t := Trim(lines[0]);
    var rest := DecodeLines(lines[1..]).value;
    if t == "" || j > 0 {
      var j' := if t == "" then j else j - 1;
      assert DecodeLines(lines).value[j] == rest[j'];
      DecodedFromLine(lines[1..], j');
      var k :| 0 <= k < |lines| - 1 && DecodeLine(Trim(lines[1..][k])) == Some(rest[j']);
      assert lines[1..][k] == lines[k + 1];
    } else {
      assert DecodeLine(Trim(lines[0])) == Some(DecodeLines(lines).value[0]);
    }
  }

  /** Collecting the pairs into a map: a later line for the same name replaces an earlier
      one. */
  function ToMap(pairs: seq<(Name, Monkey)>): map<Name, Monkey>
    decreases |pairs|
  {
    if |pairs| == 0 then map[]
    else
      var last := pairs[|pairs| - 1];
      ToMap(pairs[..|pairs| - 1])[last.0 := last.1]
  }

  /** The map has exactly the names of the pairs. */
  lemma {:induction false} ToMapKeys(pairs: seq<(Name, Monkey)>, n: Name)
    ensures n in ToMap(pairs) <==> exists j :: 0 <= j < |pairs| && pairs[j].0 == n
    decreases |pairs|
  {
    if |pairs| > 0 {
      var init := pairs[..|pairs| - 1];
      ToMapKeys(init, n);
      if exists j :: 0 <= j < |init| && init[j].0 == n {
        var j :| 0 <= j < |init| && init[j].0 == n;
        assert pairs[j] == init[j];
      }
      if exists j :: 0 <= j < |pairs| && pairs[j].0 == n {
        var j :| 0 <= j < |pairs| && pairs[j].0 == n;
        if j < |init| {
          assert init[j] == pairs[j];
        }
      }
    }
  }

  /** A name maps to the job of its last pair. */
  lemma {:induction false} ToMapLast(pairs: seq<(Name, Monkey)>, j: nat)
    requires j < |pairs| && forall l :: j < l < |pairs| ==> pairs[l].0 != pairs[j].0
    ensures pairs[j].0 in ToMap(pairs) && ToMap(pairs)[pairs[j].0] == pairs[j].1
    decreases |pairs|
  {
    if j < |pairs| - 1 {
      var init := pairs[..|pairs| - 1];
      assert init[j] == pairs[j];
      ToMapLast(init, j);
    }
  }

  /** `input_generator`: every trimmed non-blank line decoded and collected by name. */
  function InputGenerator(lines: seq<string>): (r: Option<map<Name, Monkey>>)
    ensures r.Some? <==> forall k :: 0 <= k < |lines| ==> Trim(lines[k]) == "" || DecodeLine(Trim(lines[k])).Some?
    ensures r.Some? ==> forall n :: n in r.value ==> exists k :: 0 <= k < |lines| && DecodeLine(Trim(lines[k])) == Some((n, r.value[n]))
  {
    match DecodeLines(lines)
    case None => None
    case Some(pairs) =>
      var m := ToMap(pairs);
      forall n | n in m
        ensures exists k :: 0 <= k < |lines| && DecodeLine(Trim(lines[k])) == Some((n, m[n]))
      {
        ToMapKeys(pairs, n);
        var j := LastWith(pairs, n);
        ToMapLast(pairs, j);
        DecodedFromLine(lines, j);
      }
      Some(m)
  }

  /** The last index holding name `n`. */
  function LastWith(pairs: seq<(Name, Monkey)>, n: Name): (j: nat)
    requires exists j :: 0 <= j < |pairs| && pairs[j].0 == n
    ensures j < |pairs| && pairs[j].0 == n
    ensures forall l :: j < l < |pairs| ==> pairs[l].0 != n
    decreases |pairs|
  {
    if pairs[|pairs| - 1].0 == n then |pairs| - 1
    else
      var init := pairs[..|pairs| - 1];
      var j :| 0 <= j < |pairs| && pairs[j].0 == n;
      assert init[j] == pairs[j];
      LastWith(init, n)
  }
}
