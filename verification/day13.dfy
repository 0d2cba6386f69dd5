/** Distress Signal (day 13): nested list packets, their stack-based parser and their
    custom total order, in which an integer compares like a one-element list. */
module Day13 {
  import opened Util
  import opened Text

  datatype Packet = Int(n: nat) | List(items: seq<Packet>)

  // ---------------------------------------------------------------------------------
  // Ordering
  // ---------------------------------------------------------------------------------

  function Size(p: Packet): nat
    decreases p, 1
  {
    match p
    case Int(_) => 1
    case List(items) => 1 + SizeList(items)
  }

  function SizeList(items: seq<Packet>): (r: nat)
    ensures 0 < |items| ==> Size(items[0]) < r && SizeList(items[1..]) < r
    decreases items, 0
  {
    if |items| == 0 then 0 else Size(items[0]) + 1 + SizeList(items[1..])
  }

  /** `Ord for Packet`. */
  function Cmp(x: Packet, y: Packet): Ordering
    decreases Size(x) + Size(y), 1
  {
    match (x, y)
    case (Int(a), Int(b)) => CmpInt(a, b)
    case (List(a), List(b)) => CmpList(a, b)
    case (Int(_), List(b)) =>
      if |b| == 0 then Greater else Cmp(x, b[0]).Then(CmpInt(1, |b|))
    case (List(a), Int(_)) =>
      if |a| == 0 then Less else Cmp(a[0], y).Then(CmpInt(|a|, 1))
  }

  /** `Ord for Vec<Packet>`: lexicographic, a proper prefix first. */
  function CmpList(a: seq<Packet>, b: seq<Packet>): Ordering
    decreases SizeList(a) + SizeList(b), 0
  {
    if |a| == 0 && |b| == 0 then Equal
    else if |a| == 0 then Less
    else if |b| == 0 then Greater
    else Cmp(a[0], b[0]).Then(CmpList(a[1..], b[1..]))
  }

  /** Swapping the operands reverses the verdict. */
  lemma {:induction false} CmpFlip(x: Packet, y: Packet)
    ensures Cmp(y, x) == Cmp(x, y).Flip()
    decreases Size(x) + Size(y), 1
  {
    match (x, y)
    case (Int(a), Int(b)) =>
    case (List(a), List(b)) => CmpListFlip(a, b);
    case (Int(_), List(b)) =>
      if |b| > 0 {
        CmpFlip(x, b[0]);
      }
    case (List(a), Int(_)) =>
      if |a| > 0 {
        CmpFlip(a[0], y);
      }
  }

  lemma {:induction false} CmpListFlip(a: seq<Packet>, b: seq<Packet>)
    ensures CmpList(b, a) == CmpList(a, b).Flip()
    decreases SizeList(a) + SizeList(b), 0
  {
    if |a| > 0 && |b| > 0 {
      CmpFlip(a[0], b[0]);
      CmpListFlip(a[1..], b[1..]);
    }
  }

  /** Every packet is equal to itself. */
  lemma {:induction false} CmpReflexive(x: Packet)
    ensures Cmp(x, x) == Equal
    decreases Size(x), 1
  {
    match x
    case Int(_) =>
    case List(a) => CmpListReflexive(a);
  }

  lemma {:induction false} CmpListReflexive(a: seq<Packet>)
    ensures CmpList(a, a) == Equal
    decreases SizeList(a), 0
  {
    if |a| > 0 {
      CmpReflexive(a[0]);
      CmpListReflexive(a[1..]);
    }
  }

  /** A proper prefix is smaller. */
  lemma {:induction false} PrefixLess(a: seq<Packet>, b: seq<Packet>)
    requires 0 < |b|
    ensures CmpList(a, a + b) == Less
    decreases |a|
  {
    if |a| > 0 {
      CmpReflexive(a[0]);
      assert (a + b)[0] == a[0] && (a + b)[1..] == a[1..] + b;
      PrefixLess(a[1..], b);
    }
  }

  /** How a packet behaves as a list: an integer as the one-element list holding it. */
  function View(p: Packet): seq<Packet> {
    match p
    case Int(_) => [p]
    case List(items) => items
  }

  /** Every comparison is the lexicographic comparison of the two views. */
  lemma CmpView(x: Packet, y: Packet)
    ensures Cmp(x, y) == CmpList(View(x), View(y))
  {
    match (x, y)
    case (Int(a), Int(b)) =>
      assert [x][1..] == [] && [y][1..] == [];
    case (List(a), List(b)) =>
    case (Int(_), List(b)) =>
      assert [x][1..] == [];
    case (List(a), Int(_)) =>
      assert [y][1..] == [];
  }

  /** A termination measure for transitivity: an integer weighs as much as its view. */
  ghost function Weight(p: Packet): nat
    decreases p, 1
  {
    match p
    case Int(_) => 1
    case List(items) => 1 + WeightList(items)
  }

  ghost function WeightList(items: seq<Packet>): (r: nat)
    ensures 0 < |items| ==> r == Weight(items[0]) + WeightList(items[1..])
    decreases items, 0
  {
    if |items| == 0 then 0 else Weight(items[0]) + WeightList(items[1..])
  }

  /** The order is transitive: two steps up (or level) make one step up (or level), level
      only when both steps are. */
  lemma {:induction false} CmpTrans(x: Packet, y: Packet, z: Packet)
    requires Cmp(x, y) != Greater && Cmp(y, z) != Greater
    ensures Cmp(x, z) == Cmp(x, y).Then(Cmp(y, z))
    decreases Weight(x) + Weight(y) + Weight(z), 0
  {
    if !(x.Int? && y.Int? && z.Int?) {
      CmpView(x, y);
      CmpView(y, z);
      CmpView(x, z);
      assert [x][1..] == [] && [y][1..] == [] && [z][1..] == [];
      CmpListTrans(View(x), View(y), View(z));
    }
  }

  lemma {:induction false} CmpListTrans(a: seq<Packet>, b: seq<Packet>, c: seq<Packet>)
    requires CmpList(a, b) != Greater && CmpList(b, c) != Greater
    ensures CmpList(a, c) == CmpList(a, b).Then(CmpList(b, c))
    decreases WeightList(a) + WeightList(b) + WeightList(c), 1
  {
    if |a| > 0 && |b| > 0 && |c| > 0 {
      CmpTrans(a[0], b[0], c[0]);
      if Cmp(a[0], b[0]) == Equal && Cmp(b[0], c[0]) == Equal {
        CmpListTrans(a[1..], b[1..], c[1..]);
      }
    }
  }

  /** An integer is greater than the empty list, which is less than any integer. */
  lemma EmptyList(n: nat)
    ensures Cmp(Int(n), List([])) == Greater && Cmp(List([]), Int(n)) == Less
  {
  }

  /** An integer compares like the one-element list holding it. */
  lemma {:induction false} IntAsList(n: nat, y: Packet)
    ensures Cmp(Int(n), y) == Cmp(List([Int(n)]), y)
    decreases Size(y)
  {
    match y
    case Int(b) =>
    case List(b) =>
      if |b| > 0 {
        assert [Int(n)][1..] == [];
        var tail := CmpList([], b[1..]);
        assert |b| == 1 ==> tail == Equal;
        assert |b| > 1 ==> tail == Less;
      }
  }

  /** The order is coarser than equality: `2` and `[2]` are distinct packets that compare
      `Equal`. */
  lemma EqualButDistinct()
    ensures Int(2) != List([Int(2)]) && Cmp(Int(2), List([Int(2)])) == Equal
  {
    IntAsList(2, List([Int(2)]));
    CmpReflexive(List([Int(2)]));
  }

  // ---------------------------------------------------------------------------------
  // Parser
  // ---------------------------------------------------------------------------------

  /** End of the run of decimal digits starting at `i`. */
  function DigitEnd(s: string, i: nat): (j: nat)
    requires i <= |s|
    ensures i <= j <= |s|
    ensures forall k :: i <= k < j ==> IsDigit(s[k])
    ensures j < |s| ==> !IsDigit(s[j])
    decreases |s| - i
  {
    if i < |s| && IsDigit(s[i]) then DigitEnd(s, i + 1) else i
  }

  /** Pushes `p` onto the innermost open list. */
  function AddTop(stack: seq<seq<Packet>>, p: Packet): seq<seq<Packet>>
    requires 0 < |stack|
  {
    stack[..|stack| - 1] + [stack[|stack| - 1] + [p]]
  }

  /** The `FromStr` loop from position `i` with the stack of open lists `stack`. */
  function ParseFrom(s: string, i: nat, stack: seq<seq<Packet>>): Result<Packet>
    requires i <= |s|
    decreases |s| - i
  {
    if i == |s| then Err
    else
      var c := s[i];
      if c == '[' then ParseFrom(s, i + 1, stack + [[]])
      else if c == ']' then
        if |stack| == 0 then Err
        else
          var top := List(stack[|stack| - 1]);
          var rest := stack[..|stack| - 1];
          if 0 < |rest| then ParseFrom(s, i + 1, AddTop(rest, top))
          else if i + 1 == |s| then Ok(top)
          else Err
      else if IsDigit(c) then
        if |stack| == 0 then Err
        else
          var j := DigitEnd(s, i);
          match ParseUnsigned(s[i..j], U32_LIMIT)
          case None => Err
          case Some(n) => ParseFrom(s, j, AddTop(stack, Int(n)))
      else if c == ',' || c == ' ' then ParseFrom(s, i + 1, stack)
      else Err
  }

  function Parse(s: string): Result<Packet> {
    ParseFrom(s, 0, [])
  }

  /** A successful parse ends exactly at a closing bracket. */
  lemma {:induction false} ParseEndsWithBracket(s: string, i: nat, stack: seq<seq<Packet>>)
    requires i <= |s| && ParseFrom(s, i, stack).Ok?
    ensures 0 < |s| && s[|s| - 1] == ']'
    decreases |s| - i
  {
    var c := s[i];
    if c == '[' {
      ParseEndsWithBracket(s, i + 1, stack + [[]]);
    } else if c == ']' {
      var rest := stack[..|stack| - 1];
      if 0 < |rest| {
        ParseEndsWithBracket(s, i + 1, AddTop(rest, List(stack[|stack| - 1])));
      }
    } else if IsDigit(c) {
      var j := DigitEnd(s, i);
      ParseEndsWithBracket(s, j, AddTop(stack, Int(ParseUnsigned(s[i..j], U32_LIMIT).value)));
    } else {
      ParseEndsWithBracket(s, i + 1, stack);
    }
  }

  /** Bad inputs: a bare number, trailing text, an unmatched `]`, an unclosed `[`, a
      foreign character. */
  lemma ParseErrors()
    ensures Parse("7") == Err && Parse("[]x") == Err && Parse("]") == Err
    ensures Parse("[[]") == Err && Parse("[a]") == Err
  {
    assert DigitEnd("7", 0) == 1;
  }

  /** Printing with the canonical layout: decimal integers, lists in brackets with commas. */
  function Print(p: Packet): string
    decreases p, 1
  {
    match p
    case Int(n) => NatToString(n)
    case List(items) => "[" + PrintItems(items) + "]"
  }

  function PrintItems(items: seq<Packet>): string
    decreases items, 0
  {
    if |items| == 0 then ""
    else if |items| == 1 then Print(items[0])
    else Print(items[0]) + "," + PrintItems(items[1..])
  }

  /** Every integer fits in a `u32`. */
  predicate Small(p: Packet)
    decreases p, 1
  {
    match p
    case Int(n) => n < U32_LIMIT
    case List(items) => SmallItems(items)
  }

  predicate SmallItems(items: seq<Packet>)
    decreases items, 0
  {
    forall i :: 0 <= i < |items| ==> Small(items[i])
  }

  lemma PrintStartsNonDigit(items: seq<Packet>)
    ensures Print(List(items))[0] == '[' && !IsDigit(Print(List(items))[0])
  {
  }

  /** Parsing the printed form of `p` in the middle of a larger text adds `p` to the
      innermost open list and continues right after it. */
  lemma {:induction false} ParsePrinted(p: Packet, s: string, i: nat, stack: seq<seq<Packet>>)
    requires Small(p) && 0 < |stack|
    requires i + |Print(p)| <= |s| && s[i..i + |Print(p)|] == Print(p)
    requires i + |Print(p)| < |s| ==> !IsDigit(s[i + |Print(p)|])
    ensures ParseFrom(s, i, stack) == ParseFrom(s, i + |Print(p)|, AddTop(stack, p))
    decreases p, 2
  {
    match p
    case Int(n) =>
      ParsePrintedInt(n, s, i, stack);
    case List(items) =>
      ParsePrintedList(items, s, i, stack);
  }

  /** Parsing a printed list: open a list, parse the items into it, close it. */
  lemma {:induction false} ParsePrintedList(items: seq<Packet>, s: string, i: nat, stack: seq<seq<Packet>>)
    requires SmallItems(items) && 0 < |stack|
    requires i + |Print(List(items))| <= |s| && s[i..i + |Print(List(items))|] == Print(List(items))
    ensures ParseFrom(s, i, stack) == ParseFrom(s, i + |Print(List(items))|, AddTop(stack, List(items)))
    decreases List(items), 1
  {
    ListSlices(items, s, i);
    ParseItems(items, s, i + 1, stack + [[]]);
    var st := AddTopAll(stack + [[]], items);
    assert (stack + [[]])[..|stack|] == stack;
    assert st == stack + [[] + items];
    assert st[..|st| - 1] == stack && st[|st| - 1] == items;
  }

  /** Parsing a printed integer reads back the integer. */
  lemma ParsePrintedInt(n: nat, s: string, i: nat, stack: seq<seq<Packet>>)
    requires n < U32_LIMIT && 0 < |stack|
    requires i + |Print(Int(n))| <= |s| && s[i..i + |Print(Int(n))|] == Print(Int(n))
    requires i + |Print(Int(n))| < |s| ==> !IsDigit(s[i + |Print(Int(n))|])
    ensures ParseFrom(s, i, stack) == ParseFrom(s, i + |Print(Int(n))|, AddTop(stack, Int(n)))
  {
    var w := NatToString(n);
    assert Print(Int(n)) == w;
    DigitsEnd(s, i, w);
    ParseUnsignedRoundTrip(n, U32_LIMIT);
    ReadNumber(s, i, stack, n);
  }

  /** A run of digits followed by a non-digit ends where the run ends. */
  lemma DigitsEnd(s: string, i: nat, w: string)
    requires 0 < |w| && AllDigits(w)
    requires i + |w| <= |s| && s[i..i + |w|] == w
    requires i + |w| < |s| ==> !IsDigit(s[i + |w|])
    ensures IsDigit(s[i]) && DigitEnd(s, i) == i + |w| && s[i..DigitEnd(s, i)] == w
  {
    assert forall t :: i <= t < i + |w| ==> s[t] == w[t - i];
    DigitEndAt(s, i, |w|);
  }

  /** A number in range is pushed onto the innermost open list. */
  lemma ReadNumber(s: string, i: nat, stack: seq<seq<Packet>>, n: nat)
    requires i < |s| && IsDigit(s[i]) && 0 < |stack|
    requires ParseUnsigned(s[i..DigitEnd(s, i)], U32_LIMIT) == Some(n)
    ensures ParseFrom(s, i, stack) == ParseFrom(s, DigitEnd(s, i), AddTop(stack, Int(n)))
  {
  }

  /** A printed list is an opening bracket, the printed items and a closing bracket; the
      brackets open and close the list on the parser's stack. */
  lemma ListSlices(items: seq<Packet>, s: string, i: nat)
    requires i + |Print(List(items))| <= |s| && s[i..i + |Print(List(items))|] == Print(List(items))
    ensures |Print(List(items))| == |PrintItems(items)| + 2
    ensures s[i] == '[' && s[i + 1 + |PrintItems(items)|] == ']'
    ensures s[i + 1..i + 1 + |PrintItems(items)|] == PrintItems(items)
  {
    var w := Print(List(items));
    var body := PrintItems(items);
    assert w == "[" + body + "]";
    assert s[i] == w[0];
    SubSlice(s, i, w, 1, 1 + |body|);
    assert w[1..1 + |body|] == body;
    assert s[i + 1 + |body|] == w[1 + |body|];
  }

  /** Appends `items` to the innermost open list. */
  function AddTopAll(stack: seq<seq<Packet>>, items: seq<Packet>): seq<seq<Packet>>
    requires 0 < |stack|
  {
    stack[..|stack| - 1] + [stack[|stack| - 1] + items]
  }

  lemma DigitEndAt(s: string, i: nat, k: nat)
    requires i + k <= |s| && forall t :: i <= t < i + k ==> IsDigit(s[t])
    requires i + k < |s| ==> !IsDigit(s[i + k])
    ensures DigitEnd(s, i) == i + k
    decreases k
  {
    if k > 0 {
      DigitEndAt(s, i + 1, k - 1);
    }
  }

  lemma {:induction false} ParseItems(items: seq<Packet>, s: string, i: nat, stack: seq<seq<Packet>>)
    requires SmallItems(items) && 0 < |stack|
    requires i + |PrintItems(items)| <= |s| && s[i..i + |PrintItems(items)|] == PrintItems(items)
    requires i + |PrintItems(items)| < |s| ==> !IsDigit(s[i + |PrintItems(items)|])
    ensures ParseFrom(s, i, stack) == ParseFrom(s, i + |PrintItems(items)|, AddTopAll(stack, items))
    decreases items, 1
  {
    if |items| == 0 {
      var top := stack[|stack| - 1];
      assert top + items == top;
      assert stack[..|stack| - 1] + [top] == stack;
    } else if |items| == 1 {
      ParsePrinted(items[0], s, i, stack);
      assert items == [items[0]];
    } else {
      ItemsSlices(items, s, i);
      SmallTail(items);
      ParseItemsCons(items, s, i, stack);
    }
  }

  /** Parsing two or more printed items: the first item, the comma, then the rest. */
  lemma {:induction false} ParseItemsCons(items: seq<Packet>, s: string, i: nat, stack: seq<seq<Packet>>)
    requires 1 < |items| && Small(items[0]) && SmallItems(items[1..]) && 0 < |stack|
    requires i + |Print(items[0])| + 1 + |PrintItems(items[1..])| <= |s|
    requires s[i..i + |Print(items[0])|] == Print(items[0])
    requires s[i + |Print(items[0])|] == ','
    requires s[i + |Print(items[0])| + 1..i + |Print(items[0])| + 1 + |PrintItems(items[1..])|] == PrintItems(items[1..])
    requires i + |Print(items[0])| + 1 + |PrintItems(items[1..])| < |s| ==>
               !IsDigit(s[i + |Print(items[0])| + 1 + |PrintItems(items[1..])|])
    ensures ParseFrom(s, i, stack) ==
              ParseFrom(s, i + |Print(items[0])| + 1 + |PrintItems(items[1..])|, AddTopAll(stack, items))
    decreases items, 0
  {
    var w := Print(items[0]);
    var rest := PrintItems(items[1..]);
    var j := i + |w| + 1;
    var st := AddTop(stack, items[0]);
    calc {
      ParseFrom(s, i, stack);
    == { assert !IsDigit(s[i + |w|]); ParsePrinted(items[0], s, i, stack); }
      ParseFrom(s, i + |w|, st);
    == { SkipSeparator(s, i + |w|, j, st); }
      ParseFrom(s, j, st);
    == { ParseItems(items[1..], s, j, st); }
      ParseFrom(s, j + |rest|, AddTopAll(st, items[1..]));
    == { AddTopAllStep(stack, items); }
      ParseFrom(s, j + |rest|, AddTopAll(stack, items));
    }
  }

  /** The printed items split into the first item, a comma and the printed rest. */
  lemma ItemsSlices(items: seq<Packet>, s: string, i: nat)
    requires 1 < |items|
    requires i + |PrintItems(items)| <= |s| && s[i..i + |PrintItems(items)|] == PrintItems(items)
    ensures i + |Print(items[0])| + 1 + |PrintItems(items[1..])| == i + |PrintItems(items)|
    ensures s[i..i + |Print(items[0])|] == Print(items[0])
    ensures s[i + |Print(items[0])|] == ','
    ensures s[i + |Print(items[0])| + 1..i + |PrintItems(items)|] == PrintItems(items[1..])
  {
    var w := Print(items[0]);
    var all := PrintItems(items);
    var rest := PrintItems(items[1..]);
    assert all == w + "," + rest;
    SubSlice(s, i, all, 0, |w|);
    assert all[..|w|] == w;
    assert s[i + |w|] == all[|w|] == ',';
    SubSlice(s, i, all, |w| + 1, |all|);
    assert all[|w| + 1..] == rest;
  }

  /** A comma between items is skipped. */
  lemma SkipSeparator(s: string, k: nat, next: nat, stack: seq<seq<Packet>>)
    requires k < |s| && s[k] == ',' && next == k + 1
    ensures ParseFrom(s, k, stack) == ParseFrom(s, next, stack)
  {
  }

  lemma SubSlice(s: string, i: nat, w: string, a: nat, b: nat)
    requires i + |w| <= |s| && s[i..i + |w|] == w && a <= b <= |w|
    ensures s[i + a..i + b] == w[a..b]
  {
    forall k | 0 <= k < b - a
      ensures s[i + a..i + b][k] == w[a..b][k]
    {
      assert s[i + a..i + b][k] == s[i + a + k] == s[i..i + |w|][a + k];
    }
  }

  lemma SmallTail(items: seq<Packet>)
    requires 0 < |items| && SmallItems(items)
    ensures Small(items[0]) && SmallItems(items[1..])
  {
    forall k | 0 <= k < |items[1..]|
      ensures Small(items[1..][k])
    {
      assert items[1..][k] == items[k + 1];
    }
  }

  lemma AddTopAllStep(stack: seq<seq<Packet>>, items: seq<Packet>)
    requires 0 < |stack| && 0 < |items|
    ensures AddTopAll(AddTop(stack, items[0]), items[1..]) == AddTopAll(stack, items)
  {
    var st := AddTop(stack, items[0]);
    assert st[..|st| - 1] == stack[..|stack| - 1];
    assert st[|st| - 1] == stack[|stack| - 1] + [items[0]];
    assert [items[0]] + items[1..] == items;
    assert stack[|stack| - 1] + [items[0]] + items[1..] == stack[|stack| - 1] + items;
  }

  /** Parsing the printed form of a list gives the list back. */
  lemma ParsePrintRoundTrip(items: seq<Packet>)
    requires SmallItems(items)
    ensures Parse(Print(List(items))) == Ok(List(items))
  {
    var s := Print(List(items));
    var body := PrintItems(items);
    assert s == "[" + body + "]";
    assert s[1..1 + |body|] == body;
    assert s[0] == '[' && s[1 + |body|] == ']' && |s| == |body| + 2;
    ParseItems(items, s, 1, [[]]);
    var empty: seq<Packet> := [];
    assert AddTopAll([empty], items) == [items] by {
      assert empty + items == items;
    }
    assert [] + [empty] == [empty];
    assert ParseFrom(s, 0, []) == ParseFrom(s, 1, [empty]);
    assert ParseFrom(s, 1 + |body|, [items]) == Ok(List(items));
  }

  // ---------------------------------------------------------------------------------
  // Solutions
  // ---------------------------------------------------------------------------------

  /** Sum of the 1-based indices of the pairs `k .. ` that are in the right order. */
  function PairsFrom(packets: seq<Packet>, k: nat): nat
    decreases |packets| - 2 * k
  {
    if 2 * k + 1 >= |packets| then 0
    else (if Cmp(packets[2 * k], packets[2 * k + 1]) == Less then k + 1 else 0) + PairsFrom(packets, k + 1)
  }

  /** `part1`: pairs from `chunks_exact(2)`, so an odd last packet is ignored. */
  function Part1(packets: seq<Packet>): nat {
    PairsFrom(packets, 0)
  }

  /** Both packets of every pair swapped. */
  function SwapPairs(packets: seq<Packet>): (r: seq<Packet>)
    ensures |r| == |packets|
  {
    seq(|packets|, i requires 0 <= i < |packets| =>
      if i % 2 == 0 && i + 1 < |packets| then packets[i + 1]
      else if i % 2 == 1 then packets[i - 1]
      else packets[i])
  }

  /** Sum of the 1-based indices of the pairs `k ..` whose packets are not `Equal`. */
  function UnequalFrom(packets: seq<Packet>, k: nat): nat
    decreases |packets| - 2 * k
  {
    if 2 * k + 1 >= |packets| then 0
    else (if Cmp(packets[2 * k], packets[2 * k + 1]) != Equal then k + 1 else 0) + UnequalFrom(packets, k + 1)
  }

  /** A pair counts for the input or for its swap exactly when its packets differ in the
      order, never for both. */
  lemma {:induction false} SwapPairsPart1(packets: seq<Packet>, k: nat)
    ensures PairsFrom(packets, k) + PairsFrom(SwapPairs(packets), k) == UnequalFrom(packets, k)
    decreases |packets| - 2 * k
  {
    if 2 * k + 1 < |packets| {
      var sw := SwapPairs(packets);
      assert sw[2 * k] == packets[2 * k + 1] && sw[2 * k + 1] == packets[2 * k];
      CmpFlip(packets[2 * k], packets[2 * k + 1]);
      SwapPairsPart1(packets, k + 1);
    }
  }

  /** Where insertion puts `x`: before the first element greater than it. */
  function InsertionPoint(x: Packet, s: seq<Packet>): (k: nat)
    ensures k <= |s|
    ensures forall i :: 0 <= i < k ==> Cmp(x, s[i]) != Less
    ensures k < |s| ==> Cmp(x, s[k]) == Less
  {
    if |s| == 0 || Cmp(x, s[0]) == Less then 0 else 1 + InsertionPoint(x, s[1..])
  }

  /** Stable insertion into a list sorted by `Cmp`: after every element not greater, before
      the first greater one. */
  function InsertSorted(x: Packet, s: seq<Packet>): (r: seq<Packet>)
    ensures r == s[..InsertionPoint(x, s)] + [x] + s[InsertionPoint(x, s)..]
    ensures |r| == |s| + 1
  {
    if |s| == 0 then [x]
    else if Cmp(x, s[0]) == Less then
      assert s[..0] + [x] + s[0..] == [x] + s;
      [x] + s
    else
      var rest := InsertSorted(x, s[1..]);
      ConsInsert(s, InsertionPoint(x, s[1..]), x, rest);
      [s[0]] + rest
  }

  /** Inserting behind the head of `s` is inserting one place further into `s`. */
  lemma ConsInsert(s: seq<Packet>, k: nat, x: Packet, rest: seq<Packet>)
    requires 0 < |s| && k < |s| && rest == s[1..][..k] + [x] + s[1..][k..]
    ensures [s[0]] + rest == s[..k + 1] + [x] + s[k + 1..]
  {
    assert [s[0]] + s[1..][..k] == s[..k + 1] && s[1..][k..] == s[k + 1..];
  }

  /** Putting `x` between the two halves of `s` adds one `x` to its elements. */
  lemma SplitInsert(s: seq<Packet>, k: nat, x: Packet)
    requires k <= |s|
    ensures multiset(s[..k] + [x] + s[k..]) == multiset(s) + multiset{x}
  {
    assert s == s[..k] + s[k..];
  }

  /** Neighbours are in order. */
  predicate Sorted(s: seq<Packet>) {
    forall i :: 0 <= i < |s| - 1 ==> Cmp(s[i], s[i + 1]) != Greater
  }

  lemma {:induction false} InsertSortedSorted(x: Packet, s: seq<Packet>)
    requires Sorted(s)
    ensures Sorted(InsertSorted(x, s))
    ensures 0 < |s| ==> InsertSorted(x, s)[0] == x || InsertSorted(x, s)[0] == s[0]
    decreases |s|
  {
    if |s| > 0 && Cmp(x, s[0]) != Less {
      var rest := InsertSorted(x, s[1..]);
      assert Sorted(s[1..]) by {
        forall i | 0 <= i < |s[1..]| - 1
          ensures Cmp(s[1..][i], s[1..][i + 1]) != Greater
        {
          assert s[1..][i] == s[i + 1] && s[1..][i + 1] == s[i + 2];
        }
      }
      InsertSortedSorted(x, s[1..]);
      CmpFlip(x, s[0]);
      var r := [s[0]] + rest;
      forall i | 0 <= i < |r| - 1
        ensures Cmp(r[i], r[i + 1]) != Greater
      {
        if i > 0 {
          assert r[i] == rest[i - 1] && r[i + 1] == rest[i];
        }
      }
    }
  }

  /** `sort`: a stable sort, written as insertion sort. */
  function SortPackets(s: seq<Packet>): (r: seq<Packet>)
    ensures multiset(r) == multiset(s)
    ensures |r| == |s|
    ensures Sorted(r)
  {
    if |s| == 0 then []
    else
      var init := s[..|s| - 1];
      assert s == init + [s[|s| - 1]];
      var sorted := SortPackets(init);
      InsertSortedSorted(s[|s| - 1], sorted);
      InsertSortedPerm(s[|s| - 1], sorted);
      InsertSorted(s[|s| - 1], sorted)
  }

  /** Insertion adds exactly the one packet. */
  lemma InsertSortedPerm(x: Packet, t: seq<Packet>)
    ensures multiset(InsertSorted(x, t)) == multiset(t) + multiset{x}
  {
    SplitInsert(t, InsertionPoint(x, t), x);
  }

  /** Sorted neighbours make a sorted list: no packet is greater than a later one. */
  lemma {:induction false} SortedOrdered(t: seq<Packet>, i: nat, j: nat)
    requires Sorted(t) && i <= j < |t|
    ensures Cmp(t[i], t[j]) != Greater
    decreases j - i
  {
    if i == j {
      CmpReflexive(t[i]);
    } else {
      SortedOrdered(t, i + 1, j);
      CmpTrans(t[i], t[i + 1], t[j]);
    }
  }

  /** In a sorted list everything from the insertion point on is greater than `x`. */
  lemma {:induction false} AboveInsertion(x: Packet, t: seq<Packet>, j: nat)
    requires Sorted(t) && InsertionPoint(x, t) <= j < |t|
    ensures Cmp(x, t[j]) == Less
    decreases j
  {
    if j > InsertionPoint(x, t) {
      AboveInsertion(x, t, j - 1);
      CmpTrans(x, t[j - 1], t[j]);
    }
  }

  /** The packets of `s` that compare `Equal` to `p`, in their order in `s`. */
  function EqualTo(s: seq<Packet>, p: Packet): seq<Packet> {
    if |s| == 0 then []
    else EqualTo(s[..|s| - 1], p) + (if Cmp(Last(s), p) == Equal then [Last(s)] else [])
  }

  lemma {:induction false} EqualToAppend(a: seq<Packet>, b: seq<Packet>, p: Packet)
    ensures EqualTo(a + b, p) == EqualTo(a, p) + EqualTo(b, p)
    decreases |b|
  {
    if |b| > 0 {
      var b' := b[..|b| - 1];
      assert (a + b)[..|a + b| - 1] == a + b';
      EqualToAppend(a, b', p);
    } else {
      assert a + b == a;
    }
  }

  /** Nothing past the insertion point of a packet equal to `p` is equal to `p`. */
  lemma NoneEqualAbove(x: Packet, t: seq<Packet>, p: Packet)
    requires Sorted(t) && Cmp(x, p) == Equal
    ensures EqualTo(t[InsertionPoint(x, t)..], p) == []
  {
    var k := InsertionPoint(x, t);
    CmpFlip(x, p);
    forall j | k <= j < |t|
      ensures Cmp(t[j], p) == Greater
    {
      AboveInsertion(x, t, j);
      CmpTrans(p, x, t[j]);
      CmpFlip(p, t[j]);
    }
    NoneEqual(t[k..], p);
  }

  lemma {:induction false} NoneEqual(s: seq<Packet>, p: Packet)
    requires forall j :: 0 <= j < |s| ==> Cmp(s[j], p) != Equal
    ensures EqualTo(s, p) == []
    decreases |s|
  {
    if |s| > 0 {
      NoneEqual(s[..|s| - 1], p);
    }
  }

  /** Filtering a list with one packet placed between two parts: the filter of each
      part, with the packet's own contribution in between. */
  lemma FilterAround(a: seq<Packet>, x: Packet, b: seq<Packet>, p: Packet)
    ensures EqualTo(a + [x] + b, p) == EqualTo(a, p) + EqualTo([x], p) + EqualTo(b, p)
    ensures EqualTo(a + b, p) == EqualTo(a, p) + EqualTo(b, p)
  {
    EqualToAppend(a + [x], b, p);
    EqualToAppend(a, [x], p);
    EqualToAppend(a, b, p);
  }

  /** A single packet is kept exactly when it is equal to `p`. */
  lemma FilterOne(x: Packet, p: Packet)
    ensures Cmp(x, p) == Equal ==> EqualTo([x], p) == [x]
    ensures Cmp(x, p) != Equal ==> EqualTo([x], p) == []
  {
    assert [x][..0] == [];
  }

  /** Placing a packet equal to `p` in front of a part with no packet equal to `p` adds it
      after the packets equal to `p` already there. */
  lemma InsertEqual(a: seq<Packet>, x: Packet, b: seq<Packet>, p: Packet)
    requires Cmp(x, p) == Equal && EqualTo(b, p) == []
    ensures EqualTo(a + [x] + b, p) == EqualTo(a + b, p) + [x]
  {
    FilterAround(a, x, b, p);
    FilterOne(x, p);
    var ea := EqualTo(a, p);
    assert ea + [x] + [] == ea + [] + [x];
  }

  /** Placing a packet not equal to `p` anywhere leaves the packets equal to `p` as they
      were. */
  lemma InsertUnequal(a: seq<Packet>, x: Packet, b: seq<Packet>, p: Packet)
    requires Cmp(x, p) != Equal
    ensures EqualTo(a + [x] + b, p) == EqualTo(a + b, p)
  {
    FilterAround(a, x, b, p);
    FilterOne(x, p);
    var ea, eb := EqualTo(a, p), EqualTo(b, p);
    assert ea + [] + eb == ea + eb;
  }

  /** Inserting into a sorted list splits it in two around the new packet, and when the
      packet is equal to `p`, nothing after it is equal to `p`. */
  lemma InsertSortedSplit(x: Packet, t: seq<Packet>, p: Packet) returns (a: seq<Packet>, b: seq<Packet>)
    requires Sorted(t)
    ensures t == a + b && InsertSorted(x, t) == a + [x] + b
    ensures Cmp(x, p) == Equal ==> EqualTo(b, p) == []
  {
    var k := InsertionPoint(x, t);
    a, b := t[..k], t[k..];
    if Cmp(x, p) == Equal {
      NoneEqualAbove(x, t, p);
    }
  }

  /** Inserting into a sorted list keeps the packets equal to `p` in order, the inserted one
      last among them. */
  lemma InsertStable(x: Packet, t: seq<Packet>, p: Packet)
    requires Sorted(t)
    ensures Cmp(x, p) == Equal ==> EqualTo(InsertSorted(x, t), p) == EqualTo(t, p) + [x]
    ensures Cmp(x, p) != Equal ==> EqualTo(InsertSorted(x, t), p) == EqualTo(t, p)
  {
    var a, b := InsertSortedSplit(x, t, p);
    if Cmp(x, p) == Equal {
      InsertEqual(a, x, b, p);
    } else {
      InsertUnequal(a, x, b, p);
    }
  }

  /** The sort is stable: for every packet `p`, the packets equal to `p` come out in the
      order they went in. */
  lemma {:induction false} SortStable(s: seq<Packet>, p: Packet)
    ensures EqualTo(SortPackets(s), p) == EqualTo(s, p)
    decreases |s|
  {
    if |s| > 0 {
      SortStable(s[..|s| - 1], p);
      InsertStable(Last(s), SortPackets(s[..|s| - 1]), p);
    }
  }

  /** `position(|p| p == x)`: the first index holding `x`. */
  function Position(s: seq<Packet>, x: Packet): (r: Option<nat>)
    ensures r.Some? ==> r.value < |s| && s[r.value] == x && forall k :: 0 <= k < r.value ==> s[k] != x
    ensures r.None? <==> x !in s
  {
    if |s| == 0 then None
    else if s[0] == x then Some(0)
    else match Position(s[1..], x)
      case None => None
      case Some(k) => Some(k + 1)
  }

  const DIVIDER1: Packet := List([List([Int(2)])])
  const DIVIDER2: Packet := List([List([Int(6)])])

  lemma DividersPresent(packets: seq<Packet>)
    ensures DIVIDER1 in SortPackets(packets + [DIVIDER1, DIVIDER2])
    ensures DIVIDER2 in SortPackets(packets + [DIVIDER1, DIVIDER2])
  {
    var all := packets + [DIVIDER1, DIVIDER2];
    assert all[|packets|] == DIVIDER1 && all[|packets| + 1] == DIVIDER2;
    assert DIVIDER1 in multiset(all) && DIVIDER2 in multiset(all);
    assert DIVIDER1 in multiset(SortPackets(all)) && DIVIDER2 in multiset(SortPackets(all));
  }

  /** The 0-based positions of the dividers in the sorted packets, dividers included: each
      position holds its divider, no earlier position does, and the sorted list is an
      ordered permutation of the input and the dividers. */
  function DividerPositions(packets: seq<Packet>): (r: (nat, nat))
    ensures var sorted := SortPackets(packets + [DIVIDER1, DIVIDER2]);
      && multiset(sorted) == multiset(packets + [DIVIDER1, DIVIDER2]) && Sorted(sorted)
      && r.0 < |sorted| && sorted[r.0] == DIVIDER1 && (forall k :: 0 <= k < r.0 ==> sorted[k] != DIVIDER1)
      && r.1 < |sorted| && sorted[r.1] == DIVIDER2 && (forall k :: 0 <= k < r.1 ==> sorted[k] != DIVIDER2)
  {
    var sorted := SortPackets(packets + [DIVIDER1, DIVIDER2]);
    DividersPresent(packets);
    (Position(sorted, DIVIDER1).value, Position(sorted, DIVIDER2).value)
  }

  function Mul(a: nat, b: nat): nat {
    a * b
  }

  /** `part2`: the product of the 1-based divider positions. */
  function Part2(packets: seq<Packet>): nat {
    var (i, j) := DividerPositions(packets);
    Mul(i + 1, j + 1)
  }

  /** The dividers parse from their text. */
  lemma Dividers()
    ensures Parse("[[2]]") == Ok(DIVIDER1) && Parse("[[6]]") == Ok(DIVIDER2)
  {
    ParsePrintRoundTrip([List([Int(2)])]);
    ParsePrintRoundTrip([List([Int(6)])]);
    assert Print(DIVIDER1) == "[[2]]";
    assert Print(DIVIDER2) == "[[6]]";
  }
}
