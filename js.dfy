/** The few ECMAScript string and number builtins the core relies on:
    String.prototype.trim, startsWith, indexOf, toLowerCase (ASCII letters only),
    Number.parseInt with radix 10, and the decimal rendering of an integer. */
module Js {
  import opened Wrappers

  /** WhiteSpace or LineTerminator in ECMA-262 (sections 12.2 and 12.3):
      the characters that trim removes and that parseInt skips. */
  predicate IsWhitespace(c: char) {
    var n := c as int;
    n == 0x09 || n == 0x0B || n == 0x0C || n == 0x20 || n == 0xA0 || n == 0xFEFF
    || n == 0x1680 || (0x2000 <= n <= 0x200A) || n == 0x202F || n == 0x205F || n == 0x3000
    || n == 0x0A || n == 0x0D || n == 0x2028 || n == 0x2029
  }

  /** String.prototype.trimStart */
  function TrimStart(s: string): (r: string)
    ensures |r| <= |s| && r == s[|s| - |r|..]
    ensures forall i :: 0 <= i < |s| - |r| ==> IsWhitespace(s[i])
    ensures r == [] || !IsWhitespace(r[0])
  {
    if |s| > 0 && IsWhitespace(s[0]) then TrimStart(s[1..]) else s
  }

  /** String.prototype.trimEnd */
  function TrimEnd(s: string): (r: string)
    ensures |r| <= |s| && r == s[..|r|]
    ensures forall i :: |r| <= i < |s| ==> IsWhitespace(s[i])
    ensures r == [] || !IsWhitespace(r[|r| - 1])
  {
    if |s| > 0 && IsWhitespace(s[|s| - 1]) then TrimEnd(s[..|s| - 1]) else s
  }

  /** String.prototype.trim: the longest infix with no whitespace at either end. */
  function Trim(s: string): (r: string)
  {
    TrimEnd(TrimStart(s))
  }

  /** Where trim cuts s: before i and from j on, whitespace only. */
  lemma TrimSpan(s: string) returns (i: nat, j: nat)
    ensures 0 <= i <= j <= |s| && Trim(s) == s[i..j]
    ensures forall k :: 0 <= k < i ==> IsWhitespace(s[k])
    ensures forall k :: j <= k < |s| ==> IsWhitespace(s[k])
  {
    var t := TrimStart(s);
    var r := TrimEnd(t);
    i, j := |s| - |t|, |s| - |t| + |r|;
    assert Trim(s) == s[i..j] by {
      assert t == s[i..] && r == t[..|r|];
    }
    forall k | j <= k < |s| ensures IsWhitespace(s[k]) {
      assert s[k] == t[k - i];
    }
  }

  /** What trim promises: it cuts whitespace only, and none is left at the ends. */
  lemma TrimCharacterised(s: string)
    ensures exists i, j ::
      (0 <= i <= j <= |s| && Trim(s) == s[i..j]
      && (forall k :: 0 <= k < i ==> IsWhitespace(s[k]))
      && (forall k :: j <= k < |s| ==> IsWhitespace(s[k])))
    ensures Trim(s) == [] || (!IsWhitespace(Trim(s)[0]) && !IsWhitespace(Trim(s)[|Trim(s)| - 1]))
  {
    var i, j := TrimSpan(s);
    var t := TrimStart(s);
    if TrimEnd(t) != [] {
      assert t != [] && t[0] == TrimEnd(t)[0];
    }
  }

  /** A string without whitespace at either end is its own trim. */
  predicate Unpadded(s: string) {
    s == [] || (!IsWhitespace(s[0]) && !IsWhitespace(s[|s| - 1]))
  }

  lemma TrimNoop(s: string)
    requires Unpadded(s)
    ensures Trim(s) == s
  {
  }

  lemma UnpaddedConcat(a: string, b: string)
    requires a != [] && !IsWhitespace(a[0]) && b != [] && Unpadded(b)
    ensures Unpadded(a + b)
  {
    assert (a + b)[|a + b| - 1] == b[|b| - 1];
  }

  /** A character that is not whitespace survives trimming. */
  lemma TrimKeeps(s: string, k: nat)
    requires k < |s| && !IsWhitespace(s[k])
    ensures s[k] in Trim(s)
  {
    var t := TrimStart(s);
    var i := |s| - |t|;
    assert s[k] == t[k - i];
    var r := TrimEnd(t);
    assert t[k - i] == r[k - i];
  }

  /** Trimming twice is trimming once. */
  lemma {:induction false} TrimIdempotent(s: string)
    ensures Trim(Trim(s)) == Trim(s)
  {
    var r := Trim(s);
    TrimCharacterised(s);
    if r != [] {
      assert TrimStart(r) == r;
      assert TrimEnd(r) == r;
    }
  }

  predicate StartsWith(s: string, prefix: string) {
    |prefix| <= |s| && s[..|prefix|] == prefix
  }

  /** String.prototype.indexOf for a single character, searching from `from`. */
  function IndexOfFrom(s: string, c: char, from: nat): (r: Option<nat>)
    requires from <= |s|
    ensures r.Some? ==>
      from <= r.value < |s| && s[r.value] == c && forall k :: from <= k < r.value ==> s[k] != c
    ensures r.None? ==> forall k :: from <= k < |s| ==> s[k] != c
    decreases |s| - from
  {
    if from == |s| then None
    else if s[from] == c then Some(from)
    else IndexOfFrom(s, c, from + 1)
  }

  function IndexOf(s: string, c: char): (r: Option<nat>)
  {
    IndexOfFrom(s, c, 0)
  }

  /** String.prototype.lastIndexOf for a single character. */
  function LastIndexOf(s: string, c: char): (r: Option<nat>)
    ensures r.Some? ==>
      r.value < |s| && s[r.value] == c && forall k :: r.value < k < |s| ==> s[k] != c
    ensures r.None? ==> forall k :: 0 <= k < |s| ==> s[k] != c
  {
    if s == [] then None
    else if s[|s| - 1] == c then Some(|s| - 1)
    else LastIndexOf(s[..|s| - 1], c)
  }

  /** toLowerCase restricted to the ASCII letters. */
  function LowerChar(c: char): char {
    if 'A' <= c <= 'Z' then (c as int + 32) as char else c
  }

  function Lower(s: string): (r: string)
    ensures |r| == |s| && forall i :: 0 <= i < |s| ==> r[i] == LowerChar(s[i])
  {
    seq(|s|, i requires 0 <= i < |s| => LowerChar(s[i]))
  }

  /** A string without upper-case ASCII letters is its own lower case. */
  lemma LowerNoop(s: string)
    requires forall i :: 0 <= i < |s| ==> !('A' <= s[i] <= 'Z')
    ensures Lower(s) == s
  {
  }

  predicate IsDigit(c: char) { '0' <= c <= '9' }

  function DigitValue(c: char): nat
    requires IsDigit(c)
  {
    c as int - '0' as int
  }

  function DigitChar(d: nat): (c: char)
    requires d < 10
    ensures IsDigit(c) && DigitValue(c) == d
  {
    ('0' as int + d) as char
  }

  predicate AllDigits(s: string) {
    forall i :: 0 <= i < |s| ==> IsDigit(s[i])
  }

  /** The decimal numeral of a natural number, as `${n}` renders it. */
  function NatToDecimal(n: nat): (r: string)
    ensures |r| >= 1 && AllDigits(r)
  {
    if n < 10 then [DigitChar(n)] else NatToDecimal(n / 10) + [DigitChar(n % 10)]
  }

  /** `${i}` for an integer-valued number. */
  function IntToDecimal(i: int): string {
    if i < 0 then "-" + NatToDecimal(-i) else NatToDecimal(i)
  }

  /** The value of a numeral, read most significant digit first. */
  function DecimalValue(s: string): nat
    requires AllDigits(s)
  {
    if s == [] then 0 else 10 * DecimalValue(s[..|s| - 1]) + DigitValue(s[|s| - 1])
  }

  lemma {:induction false} DecimalRoundTrip(n: nat)
    ensures DecimalValue(NatToDecimal(n)) == n
  {
    if n >= 10 {
      var r := NatToDecimal(n);
      assert r[..|r| - 1] == NatToDecimal(n / 10);
      DecimalRoundTrip(n / 10);
    }
  }

  /** The number of decimal digits at the start of s. */
  function LeadingDigits(s: string): (k: nat)
    ensures k <= |s| && AllDigits(s[..k])
    ensures k < |s| ==> !IsDigit(s[k])
  {
    if |s| > 0 && IsDigit(s[0]) then 1 + LeadingDigits(s[1..]) else 0
  }

  /** Number.parseInt(s, 10) over the integers: skip leading whitespace, take an optional
      sign, then the longest run of decimal digits; with no digit the result is NaN (None). */
  function ParseInt(s: string): Option<int>
  {
    var t := TrimStart(s);
    var signed := |t| > 0 && (t[0] == '-' || t[0] == '+');
    var body := if signed then t[1..] else t;
    var k := LeadingDigits(body);
    if k == 0 then None
    else
      var magnitude: int := DecimalValue(body[..k]);
      Some(if t[0] == '-' then -magnitude else magnitude)
  }

  lemma {:induction false} LeadingDigitsOfNumeral(d: string, tail: string)
    requires AllDigits(d)
    requires tail == [] || !IsDigit(tail[0])
    ensures LeadingDigits(d + tail) == |d|
  {
    if d != [] {
      assert (d + tail)[1..] == d[1..] + tail;
      LeadingDigitsOfNumeral(d[1..], tail);
    }
  }

  lemma ParseNumeral(m: nat, tail: string)
    requires tail == [] || !IsDigit(tail[0])
    ensures var d := NatToDecimal(m);
      LeadingDigits(d + tail) == |d| && (d + tail)[..|d|] == d && DecimalValue(d) == m
  {
    var d := NatToDecimal(m);
    LeadingDigitsOfNumeral(d, tail);
    DecimalRoundTrip(m);
    assert (d + tail)[..|d|] == d;
  }

  /** parseInt of a string that starts with its digits. */
  lemma ParseUnsigned(s: string, k: nat, v: nat)
    requires s != [] && IsDigit(s[0]) && LeadingDigits(s) == k
    requires DecimalValue(s[..k]) == v
    ensures ParseInt(s) == Some(v)
  {
    assert !IsWhitespace(s[0]);
    assert TrimStart(s) == s;
  }

  /** parseInt of a string that is a minus sign followed by its digits. */
  lemma ParseMinus(s: string, k: nat, v: nat)
    requires |s| > 1 && s[0] == '-' && IsDigit(s[1]) && LeadingDigits(s[1..]) == k
    requires DecimalValue(s[1..][..k]) == v
    ensures ParseInt(s) == Some(-(v as int))
  {
    assert !IsWhitespace(s[0]);
    assert TrimStart(s) == s;
  }

  lemma ParseNumeralOnly(m: nat, tail: string)
    requires tail == [] || !IsDigit(tail[0])
    ensures ParseInt(NatToDecimal(m) + tail) == Some(m)
  {
    var d := NatToDecimal(m);
    var s := d + tail;
    ParseNumeral(m, tail);
    assert s[0] == d[0];
    ParseUnsigned(s, |d|, m);
  }

  lemma ParseNegativeNumeral(m: nat, tail: string)
    requires tail == [] || !IsDigit(tail[0])
    ensures ParseInt("-" + (NatToDecimal(m) + tail)) == Some(-(m as int))
  {
    var d := NatToDecimal(m);
    var s := "-" + (d + tail);
    ParseNumeral(m, tail);
    assert s[1..] == d + tail;
    assert s[1] == d[0];
    ParseMinus(s, |d|, m);
  }

  lemma NegativeNumeral(i: int, tail: string)
    requires i < 0
    ensures IntToDecimal(i) + tail == "-" + (NatToDecimal(-i) + tail)
  {
    ConcatAssoc("-", NatToDecimal(-i), tail);
  }

  lemma ConcatAssoc<T>(a: seq<T>, b: seq<T>, c: seq<T>)
    ensures a + (b + c) == a + b + c
  {
  }

  lemma ParseNegative(i: int, tail: string)
    requires i < 0 && (tail == [] || !IsDigit(tail[0]))
    ensures ParseInt(IntToDecimal(i) + tail) == Some(i)
  {
    var m: nat := -i;
    var a := IntToDecimal(i) + tail;
    var b := "-" + (NatToDecimal(m) + tail);
    assert a == b by {
      NegativeNumeral(i, tail);
    }
    assert ParseInt(b) == Some(i) by {
      ParseNegativeNumeral(m, tail);
    }
    ParseSame(a, b);
  }

  lemma ParseSame(a: string, b: string)
    requires a == b
    ensures ParseInt(a) == ParseInt(b)
  {
  }

  lemma ParseNonNegative(i: int, tail: string)
    requires i >= 0 && (tail == [] || !IsDigit(tail[0]))
    ensures ParseInt(IntToDecimal(i) + tail) == Some(i)
  {
    assert IntToDecimal(i) == NatToDecimal(i);
    ParseNumeralOnly(i, tail);
  }

  /** parseInt reads back what `${i}` wrote, and stops at the first non-digit after it. */
  lemma ParseIntRoundTrip(i: int, tail: string)
    requires tail == [] || !IsDigit(tail[0])
    ensures ParseInt(IntToDecimal(i) + tail) == Some(i)
  {
    if i < 0 {
      ParseNegative(i, tail);
    } else {
      ParseNonNegative(i, tail);
    }
  }
}
