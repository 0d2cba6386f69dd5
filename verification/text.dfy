/** Text helpers modelling the parts of Rust's `str` API the solvers rely on:
    integer parsing, trimming, prefix stripping and splitting. */
module Text {
  import opened Util

  predicate IsDigit(c: char) {
    '0' <= c <= '9'
  }

  function DigitValue(c: char): nat
    requires IsDigit(c)
  {
    (c as int) - ('0' as int)
  }

  function DigitChar(d: nat): (c: char)
    requires d < 10
    ensures IsDigit(c) && DigitValue(c) == d
  {
    ('0' as int + d) as char
  }

  predicate AllDigits(s: string) {
    forall i :: 0 <= i < |s| ==> IsDigit(s[i])
  }

  /** Decimal value of a digit string, most significant digit first. */
  function DigitsValue(s: string): nat
    requires AllDigits(s)
  {
    if |s| == 0 then 0 else 10 * DigitsValue(s[..|s| - 1]) + DigitValue(s[|s| - 1])
  }

  /** Unsigned parse (`u32::from_str`, `u64::from_str`, `usize::from_str`): an optional
      leading `+`, at least one digit, nothing else, and a value below `limit`
      (the type's `MAX + 1`); anything else is an error. */
  function ParseUnsigned(s: string, limit: nat): (r: Option<nat>)
    ensures r.Some? ==> r.value < limit
    ensures r.Some? ==> 0 < |s|
  {
    var body := if 0 < |s| && s[0] == '+' then s[1..] else s;
    if |body| == 0 || !AllDigits(body) then None
    else if DigitsValue(body) < limit then Some(DigitsValue(body))
    else None
  }

  /** Signed parse (`i32::from_str`, `isize::from_str`): an optional `+` or `-`, at least
      one digit, and a value in `[lo, hi]`. */
  function ParseSigned(s: string, lo: int, hi: int): (r: Option<int>)
    ensures r.Some? ==> lo <= r.value <= hi
  {
    var neg := 0 < |s| && s[0] == '-';
    var body := if 0 < |s| && (s[0] == '-' || s[0] == '+') then s[1..] else s;
    if |body| == 0 || !AllDigits(body) then None
    else
      var v := if neg then -(DigitsValue(body) as int) else DigitsValue(body);
      if lo <= v <= hi then Some(v) else None
  }

  const U32_LIMIT: nat := 0x1_0000_0000
  const U64_LIMIT: nat := 0x1_0000_0000_0000_0000
  const I32_MIN: int := -0x8000_0000
  const I32_MAX: int := 0x7FFF_FFFF
  const I64_MIN: int := -0x8000_0000_0000_0000
  const I64_MAX: int := 0x7FFF_FFFF_FFFF_FFFF

  /** Canonical decimal rendering of a natural number (no sign, no leading zeros). */
  function NatToString(n: nat): (s: string)
    ensures 0 < |s| && AllDigits(s)
    ensures s[0] != '+'
    decreases n
  {
    if n < 10 then [DigitChar(n)] else NatToString(n / 10) + [DigitChar(n % 10)]
  }

  lemma {:induction false} NatToStringValue(n: nat)
    ensures DigitsValue(NatToString(n)) == n
    decreases n
  {
    if n >= 10 {
      var s := NatToString(n);
      assert s[..|s| - 1] == NatToString(n / 10);
      NatToStringValue(n / 10);
    }
  }

  /** Parsing the rendering of a value that fits gives the value back. */
  lemma ParseUnsignedRoundTrip(n: nat, limit: nat)
    requires n < limit
    ensures ParseUnsigned(NatToString(n), limit) == Some(n)
  {
    NatToStringValue(n);
  }

  /** Decimal rendering of an integer, with a leading `-` when negative. */
  function IntToString(v: int): (s: string)
    ensures 0 < |s|
    ensures forall i :: 0 <= i < |s| ==> IsDigit(s[i]) || s[i] == '-'
  {
    if v < 0 then "-" + NatToString(-v) else NatToString(v)
  }

  /** Parsing the rendering of a value in range gives the value back. */
  lemma ParseSignedRoundTrip(v: int, lo: int, hi: int)
    requires lo <= v <= hi
    ensures ParseSigned(IntToString(v), lo, hi) == Some(v)
  {
    var s := IntToString(v);
    if v < 0 {
      var digits := NatToString(-v);
      assert s[0] == '-' && s[1..] == digits;
      NatToStringValue(-v);
    } else {
      assert IsDigit(s[0]);
      NatToStringValue(v);
    }
  }

  predicate IsWhitespace(c: char) {
    c == ' ' || c == '\t' || c == '\n' || c == '\r' || c == '\U{000B}' || c == '\U{000C}'
  }

  /** Number of whitespace characters at the front of `s`. */
  function LeadingWhitespace(s: string): (k: nat)
    ensures k <= |s|
    ensures forall i :: 0 <= i < k ==> IsWhitespace(s[i])
    ensures k < |s| ==> !IsWhitespace(s[k])
  {
    if 0 < |s| && IsWhitespace(s[0]) then 1 + LeadingWhitespace(s[1..]) else 0
  }

  /** Number of whitespace characters at the back of `s`. */
  function TrailingWhitespace(s: string): (k: nat)
    ensures k <= |s|
    ensures forall i :: |s| - k <= i < |s| ==> IsWhitespace(s[i])
    ensures k < |s| ==> !IsWhitespace(s[|s| - k - 1])
  {
    if 0 < |s| && IsWhitespace(s[|s| - 1]) then 1 + TrailingWhitespace(s[..|s| - 1]) else 0
  }

  /** `str::trim` over ASCII whitespace: the slice between the leading and the trailing
      whitespace runs. */
  function Trim(s: string): (r: string)
    ensures |r| <= |s|
    ensures 0 < |r| ==> !IsWhitespace(r[0]) && !IsWhitespace(r[|r| - 1])
    ensures LeadingWhitespace(s) + |r| <= |s|
    ensures forall i :: 0 <= i < |r| ==> r[i] == s[LeadingWhitespace(s) + i]
  {
    var t := s[LeadingWhitespace(s)..];
    t[..|t| - TrailingWhitespace(t)]
  }

  /** A string that neither starts nor ends with whitespace is its own trim. */
  lemma TrimUnchanged(s: string)
    requires 0 < |s| && !IsWhitespace(s[0]) && !IsWhitespace(s[|s| - 1])
    ensures Trim(s) == s
  {
    assert LeadingWhitespace(s) == 0;
    assert s[0..] == s;
    assert TrailingWhitespace(s) == 0;
  }

  /** Number of non-whitespace characters at the front of `s`. */
  function WordLength(s: string): (k: nat)
    ensures k <= |s|
    ensures forall i :: 0 <= i < k ==> !IsWhitespace(s[i])
    ensures k < |s| ==> IsWhitespace(s[k])
  {
    if 0 < |s| && !IsWhitespace(s[0]) then 1 + WordLength(s[1..]) else 0
  }

  predicate IsWord(w: string) {
    0 < |w| && forall i :: 0 <= i < |w| ==> !IsWhitespace(w[i])
  }

  /** `str::split_whitespace`: the maximal runs of non-whitespace characters. */
  function Words(s: string): (r: seq<string>)
    ensures forall i :: 0 <= i < |r| ==> IsWord(r[i])
    decreases |s|
  {
    var t := s[LeadingWhitespace(s)..];
    if |t| == 0 then []
    else
      var k := WordLength(t);
      [t[..k]] + Words(t[k..])
  }

  /** `str::strip_prefix`. */
  function StripPrefix(s: string, p: string): (r: Option<string>)
    ensures r.Some? <==> |p| <= |s| && s[..|p|] == p
    ensures r.Some? ==> p + r.value == s
  {
    if |p| <= |s| && s[..|p|] == p then
      assert s == s[..|p|] + s[|p|..];
      Some(s[|p|..])
    else None
  }

  /** Index of the first occurrence of `c` in `s`. */
  function IndexOf(s: string, c: char): (r: Option<nat>)
    ensures r.Some? ==> r.value < |s| && s[r.value] == c
    ensures r.Some? ==> forall i :: 0 <= i < r.value ==> s[i] != c
    ensures r.None? <==> c !in s
  {
    if |s| == 0 then None
    else if s[0] == c then Some(0)
    else match IndexOf(s[1..], c)
      case None => None
      case Some(i) => Some(i + 1)
  }

  /** `str::split_once` on a single character. */
  function SplitOnce(s: string, c: char): (r: Option<(string, string)>)
    ensures r.None? <==> c !in s
    ensures r.Some? ==> r.value.0 + [c] + r.value.1 == s && c !in r.value.0
  {
    match IndexOf(s, c)
    case None => None
    case Some(i) =>
      assert s == s[..i] + [c] + s[i + 1..];
      Some((s[..i], s[i + 1..]))
  }

  /** Splitting at a separator that the first part does not contain finds that part. */
  lemma SplitOnceAt(x: string, c: char, y: string)
    requires c !in x
    ensures SplitOnce(x + [c] + y, c) == Some((x, y))
  {
    var s := x + [c] + y;
    IndexOfFirst(s, c, |x|);
    assert s[..|x|] == x && s[|x| + 1..] == y;
  }

  lemma {:induction false} IndexOfFirst(s: string, c: char, k: nat)
    requires k < |s| && s[k] == c && forall i :: 0 <= i < k ==> s[i] != c
    ensures IndexOf(s, c) == Some(k)
    decreases k
  {
    if k > 0 {
      IndexOfFirst(s[1..], c, k - 1);
    }
  }

  /** Glues pieces back together with the separator between neighbours. */
  function Join(pieces: seq<string>, c: char): string
    requires 0 < |pieces|
  {
    if |pieces| == 1 then pieces[0] else pieces[0] + [c] + Join(pieces[1..], c)
  }

  /** `str::splitn(n, c)`: at most `n` pieces; the last keeps any further separators. */
  function SplitN(s: string, n: nat, c: char): (r: seq<string>)
    requires 1 <= n
    ensures 1 <= |r| <= n
    ensures forall i :: 0 <= i < |r| - 1 ==> c !in r[i]
    ensures |r| < n ==> c !in r[|r| - 1]
    decreases n
  {
    if n == 1 then [s]
    else match SplitOnce(s, c)
      case None => [s]
      case Some((a, b)) =>
        var rest := SplitN(b, n - 1, c);
        ConsNoSeparator(a, rest, c);
        var r := [a] + rest;
        assert |r| < n ==> c !in r[|r| - 1] by {
          if |r| < n {
            assert r[|r| - 1] == rest[|rest| - 1];
          }
        }
        r
  }

  /** A piece without the separator in front of pieces whose all but last lack it. */
  lemma ConsNoSeparator(a: string, rest: seq<string>, c: char)
    requires c !in a && 0 < |rest|
    requires forall i :: 0 <= i < |rest| - 1 ==> c !in rest[i]
    ensures forall i :: 0 <= i < |rest| ==> c !in ([a] + rest)[i]
    ensures ([a] + rest)[|rest|] == rest[|rest| - 1]
  {
    forall i | 0 <= i < |rest|
      ensures c !in ([a] + rest)[i]
    {
      if i > 0 {
        assert ([a] + rest)[i] == rest[i - 1];
      }
    }
  }

  /** `splitn(2, c)` cuts at the first separator. */
  lemma SplitTwoAt(x: string, c: char, y: string)
    requires c !in x
    ensures SplitN(x + [c] + y, 2, c) == [x, y]
  {
    SplitOnceAt(x, c, y);
  }

  /** The pieces of `splitn` re-assemble to the input. */
  lemma {:induction false} SplitNJoin(s: string, n: nat, c: char)
    requires 1 <= n
    ensures Join(SplitN(s, n, c), c) == s
    decreases n
  {
    if n > 1 {
      match SplitOnce(s, c)
      case None =>
      case Some((a, b)) =>
        SplitNJoin(b, n - 1, c);
        SplitNJoinStep(s, n, c, a, b);
    }
  }

  /** One cut of `SplitNJoin`: the first piece, the separator, then the rest re-joined. */
  lemma SplitNJoinStep(s: string, n: nat, c: char, a: string, b: string)
    requires 1 < n && SplitOnce(s, c) == Some((a, b))
    requires Join(SplitN(b, n - 1, c), c) == b
    ensures Join(SplitN(s, n, c), c) == s
  {
    var rest := SplitN(b, n - 1, c);
    assert SplitN(s, n, c) == [a] + rest;
    assert ([a] + rest)[1..] == rest;
  }
}
