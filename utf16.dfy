/** JavaScript strings as sequences of UTF-16 code units, and the UTF-8 byte length that
    Node's Buffer.byteLength(s, "utf8") reports for them. */
module Utf16 {

  /** One UTF-16 code unit. */
  type CodeUnit = x: int | 0 <= x < 0x1_0000

  /** A JavaScript string value, unit by unit (lone surrogates included). */
  type Text = seq<CodeUnit>

  predicate IsHighSurrogate(u: CodeUnit) { 0xD800 <= u <= 0xDBFF }

  predicate IsLowSurrogate(u: CodeUnit) { 0xDC00 <= u <= 0xDFFF }

  /** UTF-8 length of a code unit that is not half of a surrogate pair (section 3 of RFC 3629).
      A lone surrogate is encoded as U+FFFD, which takes three bytes. */
  function UnitBytes(u: CodeUnit): (n: nat)
    ensures 1 <= n <= 3
  {
    if u < 0x80 then 1 else if u < 0x800 then 2 else 3
  }

  /** Buffer.byteLength(s, "utf8"): a high surrogate followed by a low one is one
      supplementary character of four bytes (section 2.2 of RFC 2781). */
  function ByteLength(s: Text): nat
  {
    if |s| == 0 then 0
    else if |s| >= 2 && IsHighSurrogate(s[0]) && IsLowSurrogate(s[1]) then 4 + ByteLength(s[2..])
    else UnitBytes(s[0]) + ByteLength(s[1..])
  }

  lemma ByteLengthUnit(u: CodeUnit, rest: Text)
    requires !IsHighSurrogate(u) || rest == [] || !IsLowSurrogate(rest[0])
    ensures ByteLength([u] + rest) == UnitBytes(u) + ByteLength(rest)
  {
    assert ([u] + rest)[1..] == rest;
  }

  lemma ByteLengthPair(h: CodeUnit, l: CodeUnit, rest: Text)
    requires IsHighSurrogate(h) && IsLowSurrogate(l)
    ensures ByteLength([h, l] + rest) == 4 + ByteLength(rest)
  {
    assert ([h, l] + rest)[2..] == rest;
  }

  /** Extending a prefix by one code unit never shortens its encoding: the step that
      completes a surrogate pair turns a three-byte U+FFFD into a four-byte character. */
  lemma {:induction false} PrefixStep(s: Text, k: nat)
    requires k < |s|
    ensures ByteLength(s[..k]) <= ByteLength(s[..k + 1])
  {
    if k == 0 {
      assert s[..0] == [];
    } else if |s| >= 2 && IsHighSurrogate(s[0]) && IsLowSurrogate(s[1]) {
      if k == 1 {
        assert s[..1][1..] == [];
        assert s[..2][2..] == [];
      } else {
        PrefixStep(s[2..], k - 2);
        assert s[..k][2..] == s[2..][..k - 2];
        assert s[..k + 1][2..] == s[2..][..k - 1];
      }
    } else {
      PrefixStep(s[1..], k - 1);
      assert s[..k][1..] == s[1..][..k - 1];
      assert s[..k + 1][1..] == s[1..][..k];
    }
  }

  /** The byte length of a prefix is non-decreasing in the prefix length. */
  lemma {:induction false} PrefixMonotone(s: Text, i: nat, j: nat)
    requires i <= j <= |s|
    ensures ByteLength(s[..i]) <= ByteLength(s[..j])
    decreases j - i
  {
    if i < j {
      PrefixStep(s, i);
      PrefixMonotone(s, i + 1, j);
    }
  }

  /** Number of UTF-8 bytes of one Unicode scalar value (section 3 of RFC 3629). */
  function ScalarBytes(c: char): nat {
    if c as int < 0x80 then 1 else if c as int < 0x800 then 2 else if c as int < 0x1_0000 then 3 else 4
  }

  /** UTF-8 length of a well-formed string, character by character. */
  function Utf8Length(s: string): nat {
    if s == [] then 0 else ScalarBytes(s[0]) + Utf8Length(s[1..])
  }

  /** UTF-16 encoding of one scalar value (section 2.1 of RFC 2781). */
  function EncodeChar(c: char): (r: Text)
    ensures |r| == 1 || |r| == 2
  {
    var n := c as int;
    if n < 0x1_0000 then [n]
    else
      var v := n - 0x1_0000;
      [0xD800 + v / 0x400, 0xDC00 + v % 0x400]
  }

  /** UTF-16 encoding of a well-formed string. */
  function Encode(s: string): Text {
    if s == [] then [] else EncodeChar(s[0]) + Encode(s[1..])
  }

  /** On well-formed text, Buffer.byteLength is exactly the RFC 3629 length. */
  lemma {:induction false} ByteLengthOfEncoded(s: string)
    ensures ByteLength(Encode(s)) == Utf8Length(s)
  {
    if s != [] {
      var e := EncodeChar(s[0]);
      var rest := Encode(s[1..]);
      ByteLengthOfEncoded(s[1..]);
      if |e| == 1 {
        assert (e + rest)[1..] == rest;
      } else {
        assert (e + rest)[2..] == rest;
      }
    }
  }
}
