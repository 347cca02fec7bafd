/** The few .NET string operations the agent relies on, over `seq<char>`:
    `char.IsWhiteSpace`, `Trim`, ordinal `StartsWith` and `Contains`,
    `Split(char)` (with `String.Join` as its inverse) and the decimal
    rendering of whole numbers and of numbers with one decimal place. */
module Text {

  /** `char.IsWhiteSpace`: the Unicode space separators, the line and
      paragraph separators, U+0009..U+000D and U+0085. */
  predicate IsWhiteSpace(c: char) {
    ('\t' <= c <= '\r') || c == ' ' || c == '\U{0085}' || c == '\U{00A0}' || c == '\U{1680}'
    || ('\U{2000}' <= c <= '\U{200A}') || c == '\U{2028}' || c == '\U{2029}'
    || c == '\U{202F}' || c == '\U{205F}' || c == '\U{3000}'
  }

  /** `s[i..j]` is white space only. */
  predicate WhiteSpaceBetween(s: string, i: int, j: int) {
    forall k :: 0 <= i <= k < j <= |s| ==> IsWhiteSpace(s[k])
  }

  /** Number of white-space characters at the start of `s`. */
  function LeadingWhiteSpace(s: string): (n: nat)
    ensures n <= |s|
    ensures WhiteSpaceBetween(s, 0, n)
    ensures n < |s| ==> !IsWhiteSpace(s[n])
    decreases |s|
  {
    if |s| > 0 && IsWhiteSpace(s[0]) then 1 + LeadingWhiteSpace(s[1..]) else 0
  }

  /** Number of white-space characters at the end of `s`. */
  function TrailingWhiteSpace(s: string): (n: nat)
    ensures n <= |s|
    ensures WhiteSpaceBetween(s, |s| - n, |s|)
    ensures n < |s| ==> !IsWhiteSpace(s[|s| - 1 - n])
    decreases |s|
  {
    if |s| > 0 && IsWhiteSpace(s[|s| - 1]) then 1 + TrailingWhiteSpace(s[..|s| - 1]) else 0
  }

  /** `r` stands in `s` at position `a` with only white space around it. */
  ghost predicate IsFactorAt(s: string, r: string, a: int) {
    0 <= a <= |s| - |r| && r == s[a..a + |r|] && WhiteSpaceBetween(s, 0, a) && WhiteSpaceBetween(s, a + |r|, |s|)
  }

  /** `String.Trim()`: the factor of `s` that is left once the white space
      on both ends is removed; it neither starts nor ends with white space. */
  function Trim(s: string): (r: string)
    ensures |r| <= |s|
    ensures r == [] || (!IsWhiteSpace(r[0]) && !IsWhiteSpace(r[|r| - 1]))
    ensures exists a :: IsFactorAt(s, r, a)
  {
    var a := LeadingWhiteSpace(s);
    var t := s[a..];
    var b := TrailingWhiteSpace(t);
    var r := t[..|t| - b];
    assert r == s[a..a + |r|];
    assert IsFactorAt(s, r, a);
    r
  }

  /** A string that neither starts nor ends with white space is its own
      `Trim`; in particular `Trim` is idempotent. */
  lemma TrimOfTrimmed(s: string)
    requires s == [] || (!IsWhiteSpace(s[0]) && !IsWhiteSpace(s[|s| - 1]))
    ensures Trim(s) == s
  {
  }

  /** Ordinal `StartsWith`. */
  predicate StartsWith(s: string, prefix: string) {
    |prefix| <= |s| && s[..|prefix|] == prefix
  }

  /** Ordinal `Contains`: `sub` occurs somewhere in `s`. */
  predicate Contains(s: string, sub: string)
    decreases |s|
  {
    StartsWith(s, sub) || (|s| > 0 && Contains(s[1..], sub))
  }

  /** `sub` stands in `s` at position `i`. */
  predicate OccursAt(s: string, sub: string, i: int) {
    0 <= i <= |s| - |sub| && s[i..i + |sub|] == sub
  }

  /** Contains means an occurrence at some position. */
  lemma {:induction false} ContainsIffOccurs(s: string, sub: string)
    ensures Contains(s, sub) <==> exists i :: OccursAt(s, sub, i)
    decreases |s|
  {
    if |s| > 0 {
      ContainsIffOccurs(s[1..], sub);
      forall i | OccursAt(s[1..], sub, i)
        ensures OccursAt(s, sub, i + 1)
      {
        assert s[1..][i..i + |sub|] == s[i + 1..i + 1 + |sub|];
      }
      forall i | OccursAt(s, sub, i) && i > 0
        ensures OccursAt(s[1..], sub, i - 1)
      {
        assert s[1..][i - 1..i - 1 + |sub|] == s[i..i + |sub|];
      }
    }
    if StartsWith(s, sub) {
      assert OccursAt(s, sub, 0);
    }
  }

  /** Position of the first occurrence of `c` in `s`. */
  function IndexOf(s: string, c: char): (i: nat)
    requires c in s
    ensures i < |s| && s[i] == c && c !in s[..i]
    decreases |s|
  {
    if s[0] == c then 0
    else
      var i := 1 + IndexOf(s[1..], c);
      assert s[..i] == [s[0]] + s[1..][..i - 1];
      i
  }

  /** `String.Join(c, parts)`. */
  function Join(parts: seq<string>, c: char): string
    decreases |parts|
  {
    if parts == [] then ""
    else if |parts| == 1 then parts[0]
    else parts[0] + [c] + Join(parts[1..], c)
  }

  /** `String.Split(c)`: the fields of `s` between occurrences of `c`. There
      is one field more than there are separators, no field holds `c`, and
      joining the fields again with `c` gives back `s`. */
  function Split(s: string, c: char): (parts: seq<string>)
    ensures |parts| >= 1
    ensures forall k :: 0 <= k < |parts| ==> c !in parts[k]
    ensures |parts| >= 2 <==> c in s
    ensures Join(parts, c) == s
    decreases |s|
  {
    if c !in s then [s]
    else
      var i := IndexOf(s, c);
      var rest := Split(s[i + 1..], c);
      assert s == s[..i] + [c] + s[i + 1..];
      [s[..i]] + rest
  }

  /** The other round trip: splitting a join of separator-free fields gives
      back those fields. */
  lemma {:induction false} SplitJoin(parts: seq<string>, c: char)
    requires |parts| >= 1
    requires forall k :: 0 <= k < |parts| ==> c !in parts[k]
    ensures Split(Join(parts, c), c) == parts
    decreases |parts|
  {
    if |parts| > 1 {
      var p, rest := parts[0], parts[1..];
      var tail := Join(rest, c);
      var s := p + [c] + tail;
      assert Join(parts, c) == s;
      FirstSeparator(p, c, tail);
      assert Split(s, c) == [p] + Split(tail, c);
      SplitJoin(rest, c);
      assert parts == [p] + rest;
    } else {
      assert c !in parts[0];
    }
  }

  /** In `p + [c] + t` with no `c` in `p`, the first `c` follows `p`. */
  lemma FirstSeparator(p: string, c: char, t: string)
    requires c !in p
    ensures c in p + [c] + t && IndexOf(p + [c] + t, c) == |p|
    ensures (p + [c] + t)[..|p|] == p && (p + [c] + t)[|p| + 1..] == t
  {
    var s := p + [c] + t;
    assert s[..|p|] == p;
    assert s[|p|] == c;
  }

  /** Two separator-free fields joined by one separator split back into
      those two fields. */
  lemma SplitTwoFields(p: string, c: char, u: string)
    requires c !in p && c !in u
    ensures Split(p + [c] + u, c) == [p, u]
  {
    assert Join([p, u], c) == p + [c] + u;
    SplitJoin([p, u], c);
  }

  /** `s[i]` is the first `c` in `s`, and `j` is the position of the second
      one, or the end of `s` when there is none. */
  ghost predicate BoundsSecondField(s: string, c: char, i: int, j: int) {
    0 <= i < j <= |s| && s[i] == c && c !in s[..i] && c !in s[i + 1..j]
    && (j == |s| || s[j] == c)
  }

  /** `Split(c)[1]` is the text between the first and the second `c`, or
      between the first `c` and the end. */
  lemma {:induction false} SecondFieldBetweenSeparators(s: string, c: char)
    requires c in s
    ensures |Split(s, c)| >= 2
    ensures exists i, j :: BoundsSecondField(s, c, i, j) && Split(s, c)[1] == s[i + 1..j]
  {
    var i := IndexOf(s, c);
    var t := s[i + 1..];
    assert Split(s, c) == [s[..i]] + Split(t, c);
    assert Split(s, c)[1] == Split(t, c)[0];
    var k := FirstFieldLength(t, c);
    assert s[i + 1..i + 1 + k] == t[..k];
    assert BoundsSecondField(s, c, i, i + 1 + k);
  }

  /** `Split(c)[0]` is the text before the first `c`, or all of `t`. */
  lemma FirstFieldLength(t: string, c: char) returns (k: nat)
    ensures k <= |t| && Split(t, c)[0] == t[..k] && c !in t[..k] && (k == |t| || t[k] == c)
  {
    if c in t {
      k := IndexOf(t, c);
    } else {
      k := |t|;
      assert t[..k] == t;
    }
  }

  predicate IsDigit(c: char) {
    '0' <= c <= '9'
  }

  function DigitChar(d: nat): (c: char)
    requires d < 10
  {
    (48 + d) as char
  }

  function DigitValue(c: char): nat
    requires IsDigit(c)
  {
    c as int - 48
  }

  /** Every character is a decimal digit. */
  predicate AllDigits(s: string) {
    forall k :: 0 <= k < |s| ==> IsDigit(s[k])
  }

  /** The value of a string of decimal digits. */
  function DecimalValue(s: string): nat
    requires AllDigits(s)
    decreases |s|
  {
    if s == [] then 0 else 10 * DecimalValue(s[..|s| - 1]) + DigitValue(s[|s| - 1])
  }

  /** A whole number as .NET prints it: decimal digits, no leading zero. */
  function NatToString(n: nat): (s: string)
    ensures |s| >= 1
    ensures AllDigits(s)
    ensures |s| > 1 ==> s[0] != '0'
    decreases n
  {
    if n < 10 then [DigitChar(n)] else NatToString(n / 10) + [DigitChar(n % 10)]
  }

  /** Reading the digits back gives the number: NatToString is injective. */
  lemma {:induction false} DecimalRoundTrip(n: nat)
    ensures DecimalValue(NatToString(n)) == n
    decreases n
  {
    var s := NatToString(n);
    if n >= 10 {
      DecimalRoundTrip(n / 10);
      assert s[..|s| - 1] == NatToString(n / 10);
    }
  }

  /** A number held in tenths, printed with at most one decimal place and no
      trailing zero: 160 becomes "16", 25 becomes "2.5", -159 becomes "-15.9".
      Nothing is lost: the text parses back to the number, so two different
      numbers are never printed alike. */
  function TenthsToString(t: int): (s: string)
    ensures ParseTenths(s) == t
    ensures t == 0 ==> s == "0"
    ensures '.' in s <==> t % 10 != 0
    ensures '.' in s ==> |s| >= 3 && s[|s| - 2] == '.' && s[|s| - 1] != '0'
    ensures |s| >= 1 && (t < 0 <==> s[0] == '-')
    ensures var w := if t < 0 then s[1..] else s;
            |w| >= 1 && IsDigit(w[0]) && (w[0] == '0' ==> |w| == 1 || w[1] == '.')
  {
    var m := if t < 0 then -t else t;
    var u := UnsignedTenthsToString(m);
    UnsignedTenthsRoundTrip(m);
    TenthsOfNegation(t);
    if t < 0 then
      MinusPrefix(u);
      "-" + u
    else
      assert u[0] == NatToString(m / 10)[0];
      u
  }

  /** What putting a '-' in front of a text keeps. */
  lemma MinusPrefix(u: string)
    ensures ("-" + u)[0] == '-' && ("-" + u)[1..] == u
    ensures '.' in "-" + u <==> '.' in u
    ensures |u| >= 2 ==> ("-" + u)[|u| - 1] == u[|u| - 2] && ("-" + u)[|u|] == u[|u| - 1]
  {
    var s := "-" + u;
    assert s[1..] == u;
    assert forall k :: 1 <= k < |s| ==> s[k] == u[k - 1];
  }

  /** A number and its negation have their last decimal digit zero together. */
  lemma TenthsOfNegation(t: int)
    ensures (-t) % 10 == 0 <==> t % 10 == 0
  {
    var q, r := t / 10, t % 10;
    assert t == 10 * q + r;
    if r != 0 {
      assert -t == 10 * (-q - 1) + (10 - r);
    }
  }

  /** The unsigned part: the whole digits, then '.' and the tenths digit
      only when that digit is not zero. */
  function UnsignedTenthsToString(m: nat): (u: string)
    ensures '.' in u <==> m % 10 != 0
    ensures '.' in u ==> |u| >= 3 && u[|u| - 2] == '.' && u[|u| - 1] != '0'
    ensures |u| >= 1 && IsDigit(u[0]) && (u[0] == '0' ==> |u| == 1 || u[1] == '.')
  {
    var q := NatToString(m / 10);
    assert '.' !in q by {
      assert forall k :: 0 <= k < |q| ==> q[k] != '.';
    }
    if m % 10 == 0 then q
    else
      var u := q + ['.', DigitChar(m % 10)];
      assert u[0] == q[0] && u[|u| - 2] == '.';
      assert |q| == 1 ==> u[1] == '.';
      u
  }

  /** Reads back a number printed by TenthsToString: an optional '-', digits,
      and an optional '.' followed by one digit; the result is in tenths. */
  function ParseTenths(s: string): int {
    if |s| > 0 && s[0] == '-' then -(ParseUnsignedTenths(s[1..]) as int) else ParseUnsignedTenths(s)
  }

  function ParseUnsignedTenths(s: string): nat {
    if |s| >= 2 && s[|s| - 2] == '.' && AllDigits(s[..|s| - 2]) && IsDigit(s[|s| - 1]) then
      10 * DecimalValue(s[..|s| - 2]) + DigitValue(s[|s| - 1])
    else if AllDigits(s) then 10 * DecimalValue(s)
    else 0
  }

  lemma UnsignedTenthsRoundTrip(m: nat)
    ensures ParseUnsignedTenths(UnsignedTenthsToString(m)) == m
  {
    var q := NatToString(m / 10);
    DecimalRoundTrip(m / 10);
    if m % 10 == 0 {
      assert UnsignedTenthsToString(m) == q;
      assert |q| >= 2 ==> IsDigit(q[|q| - 2]);
    } else {
      var u := q + ['.', DigitChar(m % 10)];
      assert UnsignedTenthsToString(m) == u;
      assert u[..|u| - 2] == q;
      assert u[|u| - 2] == '.' && u[|u| - 1] == DigitChar(m % 10);
    }
  }
}
