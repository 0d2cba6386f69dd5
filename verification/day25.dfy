/** Full of Hot Air (day 25): SNAFU numbers, balanced base five written most significant
    digit first with the digits `=`, `-`, `0`, `1`, `2` worth -2 .. 2. */
module Day25 {
  import opened Util

  /** `from_snafu_digit`; any other character panics. */
  function SnafuDigit(c: char): (r: Option<int>)
    ensures r.Some? <==> IsDigit(c)
    ensures r.Some? ==> -2 <= r.value <= 2
  {
    match c
    case '2' => Some(2)
    case '1' => Some(1)
    case '0' => Some(0)
    case '-' => Some(-1)
    case '=' => Some(-2)
    case _ => None
  }

  /** `to_snafu_digit`: the digit for a remainder of `n + 2` modulo 5. */
  function DigitFor(d: nat): (c: char)
    requires d < 5
    ensures SnafuDigit(c) == Some(d - 2)
  {
    match d
    case 0 => '='
    case 1 => '-'
    case 2 => '0'
    case 3 => '1'
    case 4 => '2'
  }

  /** One of the five SNAFU digits. */
  predicate IsDigit(c: char) {
    c == '=' || c == '-' || c == '0' || c == '1' || c == '2'
  }

  predicate IsSnafu(s: string) {
    forall i :: 0 <= i < |s| ==> IsDigit(s[i])
  }

  /** The value of a well-formed numeral: Horner's rule over the digits. */
  function Value(s: string): int
    requires IsSnafu(s)
  {
    if |s| == 0 then 0 else 5 * Value(s[..|s| - 1]) + SnafuDigit(s[|s| - 1]).value
  }

  /** `from_snafu`, with the panic on a foreign character as `None`. */
  function FromSnafu(s: string): (r: Option<int>)
    ensures r.Some? <==> IsSnafu(s)
    ensures r.Some? ==> r.value == Value(s)
  {
    if IsSnafu(s) then Some(Value(s)) else None
  }

  /** The digits of a positive `n`, most significant first: the loop that inserts
      `(n + 2) % 5` in front and continues with `(n + 2) / 5`. */
  function Digits(n: nat): (s: string)
    ensures IsSnafu(s)
    ensures n == 0 <==> |s| == 0
    decreases n
  {
    if n == 0 then [] else Digits((n + 2) / 5) + [DigitFor((n + 2) % 5)]
  }

  /** `to_snafu` on a non-negative value (negative values are unimplemented). */
  function ToSnafu(n: nat): (s: string)
    ensures IsSnafu(s) && 0 < |s|
  {
    if n == 0 then "0" else Digits(n)
  }

  lemma {:induction false} DigitsValue(n: nat)
    ensures Value(Digits(n)) == n
    decreases n
  {
    if n > 0 {
      var s := Digits(n);
      DigitsValue((n + 2) / 5);
      assert s[..|s| - 1] == Digits((n + 2) / 5);
    }
  }

  /** Reading back a rendered value gives the value: `from_snafu(to_snafu(n)) == n`. */
  lemma RoundTrip(n: nat)
    ensures FromSnafu(ToSnafu(n)) == Some(n)
  {
    DigitsValue(n);
  }

  /** The rendering of a positive value starts with `1` or `2`; zero renders as `0`. */
  lemma {:induction false} LeadingDigit(n: nat)
    ensures ToSnafu(0) == "0"
    ensures n > 0 ==> ToSnafu(n)[0] == '1' || ToSnafu(n)[0] == '2'
    decreases n
  {
    if n > 0 {
      var q := (n + 2) / 5;
      if q == 0 {
        assert Digits(n) == [DigitFor(n + 2)];
      } else {
        LeadingDigit(q);
        assert Digits(n)[0] == Digits(q)[0];
      }
    }
  }

  /** A canonical numeral: `0`, or no leading `0`, `-` or `=`. */
  predicate Canonical(s: string) {
    IsSnafu(s) && (s == "0" || (0 < |s| && (s[0] == '1' || s[0] == '2')))
  }

  function Pow5(k: nat): nat {
    if k == 0 then 1 else 5 * Pow5(k - 1)
  }

  /** A numeral that starts with `1` or `2` is worth more than half of `5^(|s| - 1)`. */
  lemma {:induction false} LeadingValue(s: string)
    requires IsSnafu(s) && 0 < |s| && (s[0] == '1' || s[0] == '2')
    ensures 2 * Value(s) >= Pow5(|s| - 1) + 1
    decreases |s|
  {
    if |s| > 1 {
      var p := s[..|s| - 1];
      assert p[0] == s[0];
      LeadingValue(p);
    }
  }

  /** Every canonical numeral is the rendering of its value, so `ToSnafu` and `FromSnafu`
      are inverse bijections between naturals and canonical numerals. */
  lemma CanonicalRoundTrip(s: string)
    requires Canonical(s) && Value(s) >= 0
    ensures ToSnafu(Value(s)) == s
  {
    if s != "0" {
      DigitsOfValue(s);
    }
  }

  /** A numeral with a leading `1` or `2` is the digit string of its (positive) value. */
  lemma {:induction false} DigitsOfValue(s: string)
    requires IsSnafu(s) && 0 < |s| && (s[0] == '1' || s[0] == '2')
    ensures Value(s) >= 1 && Digits(Value(s)) == s
    decreases |s|
  {
    var p := s[..|s| - 1];
    if |p| == 0 {
      DigitsStep(s, 0);
    } else {
      assert p[0] == s[0];
      DigitsOfValue(p);
      DigitsStep(s, Value(p));
    }
  }

  /** One more digit on the right of a numeral that is its value's digit string. */
  lemma DigitsStep(s: string, q: nat)
    requires IsSnafu(s) && 0 < |s|
    requires var p := s[..|s| - 1]; q == Value(p) && Digits(q) == p
    requires if |s| == 1 then s[0] == '1' || s[0] == '2' else q >= 1
    ensures Value(s) >= 1 && Digits(Value(s)) == s
  {
    var p, c := s[..|s| - 1], s[|s| - 1];
    var d := SnafuDigit(c).value;
    assert Value(s) == 5 * q + d;
    DigitsLast(q, d);
    DigitForSnafu(c);
    assert s == p + [c];
  }

  /** The digit a numeral ends with is the one its remainder selects. */
  lemma DigitForSnafu(c: char)
    requires IsDigit(c)
    ensures DigitFor(SnafuDigit(c).value + 2) == c
  {
  }

  /** Appending digit `d` multiplies by five and adds `d`. */
  lemma DigitsLast(q: nat, d: int)
    requires -2 <= d <= 2 && 5 * q + d > 0
    ensures Digits(5 * q + d) == Digits(q) + [DigitFor(d + 2)]
  {
    var n := 5 * q + d;
    assert (n + 2) % 5 == d + 2 && (n + 2) / 5 == q;
  }

  /** The examples `0 ..= 10`, rendered. */
  lemma ToExamples()
    ensures ToSnafu(0) == "0" && ToSnafu(1) == "1" && ToSnafu(2) == "2"
    ensures ToSnafu(3) == "1=" && ToSnafu(4) == "1-" && ToSnafu(5) == "10"
    ensures ToSnafu(6) == "11" && ToSnafu(7) == "12" && ToSnafu(8) == "2="
    ensures ToSnafu(9) == "2-" && ToSnafu(10) == "20"
  {
    TwoDigits(1, -2);
    TwoDigits(1, -1);
    TwoDigits(1, 0);
    TwoDigits(1, 1);
    TwoDigits(1, 2);
    TwoDigits(2, -2);
    TwoDigits(2, -1);
    TwoDigits(2, 0);
  }

  /** The rendering of `5 q + d` for a single leading digit `q`. */
  lemma TwoDigits(q: nat, d: int)
    requires 1 <= q <= 2 && -2 <= d <= 2
    ensures ToSnafu(q) == [DigitFor(q + 2)]
    ensures ToSnafu(5 * q + d) == [DigitFor(q + 2), DigitFor(d + 2)]
  {
    DigitsLast(0, q);
    DigitsLast(q, d);
  }

  /** The examples `0 ..= 10`, read back. */
  lemma FromExamples()
    ensures FromSnafu("0") == Some(0) && FromSnafu("1") == Some(1) && FromSnafu("2") == Some(2)
    ensures FromSnafu("1=") == Some(3) && FromSnafu("1-") == Some(4) && FromSnafu("10") == Some(5)
    ensures FromSnafu("11") == Some(6) && FromSnafu("12") == Some(7) && FromSnafu("2=") == Some(8)
    ensures FromSnafu("2-") == Some(9) && FromSnafu("20") == Some(10)
  {
    assert "1="[..1] == "1" && "1-"[..1] == "1" && "10"[..1] == "1" && "11"[..1] == "1" && "12"[..1] == "1";
    assert "2="[..1] == "2" && "2-"[..1] == "2" && "20"[..1] == "2";
    assert "1"[..0] == "" && "2"[..0] == "" && "0"[..0] == "";
  }

  /** Sum of the values of every line; `None` when some line is not a numeral. */
  function SumValues(lines: seq<string>): (r: Option<int>)
    ensures r.Some? <==> forall i :: 0 <= i < |lines| ==> IsSnafu(lines[i])
  {
    if |lines| == 0 then Some(0)
    else match (SumValues(lines[..|lines| - 1]), FromSnafu(lines[|lines| - 1]))
      case (Some(a), Some(b)) => Some(a + b)
      case _ => None
  }

  /** `part1`: the sum rendered back; `None` on a bad digit or a negative sum. */
  function Part1(lines: seq<string>): (r: Option<string>)
    ensures r.Some? ==> SumValues(lines).Some? && FromSnafu(r.value) == SumValues(lines)
    ensures r.Some? ==> Canonical(r.value)
    ensures r.None? <==> SumValues(lines).None? || SumValues(lines).value < 0
  {
    match SumValues(lines)
    case Some(total) =>
      if total < 0 then None
      else
        RoundTrip(total);
        LeadingDigit(total);
        Some(ToSnafu(total))
    case None => None
  }
}
