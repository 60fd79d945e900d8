/** Bytes, byte classes and the notion of a text occurring at a position.

    A C pointer into the input is an index; a C inclusive range is a `Text`.
    Byte values are integers below 256, so the C bit operations appear as the
    division and remainder they compute. */
module Bytes {

  type Byte = b: int | 0 <= b < 256
  type Text = seq<Byte>

  const MAX_NESTING: nat := 128

  const QUOTE: Byte := 0x22
  const PLUS: Byte := 0x2B
  const COMMA: Byte := 0x2C
  const MINUS: Byte := 0x2D
  const DOT: Byte := 0x2E
  const ZERO: Byte := 0x30
  const COLON: Byte := 0x3A
  const LBRACKET: Byte := 0x5B
  const BACKSLASH: Byte := 0x5C
  const RBRACKET: Byte := 0x5D
  const LOWER_U: Byte := 0x75
  const LBRACE: Byte := 0x7B
  const RBRACE: Byte := 0x7D

  /** The byte at `i`, or -1 past the end. */
  function At(s: Text, i: nat): int {
    if i < |s| then s[i] else -1
  }

  predicate IsDigit(c: int) {
    0x30 <= c <= 0x39
  }

  /** kason_hex_value: the digit's value, or -1. */
  function HexValue(c: int): (v: int)
    ensures -1 <= v < 16
  {
    if 0x30 <= c <= 0x39 then c - 0x30
    else if 0x61 <= c <= 0x66 then c - 0x61 + 10
    else if 0x41 <= c <= 0x46 then c - 0x41 + 10
    else -1
  }

  predicate IsHexDigit(c: int) {
    IsDigit(c) || 0x61 <= c <= 0x66 || 0x41 <= c <= 0x46
  }

  predicate IsControl(c: int) {
    0 <= c < 0x20
  }

  predicate IsWhitespace(c: int) {
    c == 0x20 || c == 0x0A || c == 0x09 || c == 0x0D
  }

  /** The escape letters of section 7 of RFC 8259 other than `u`. */
  predicate IsSimpleEscape(c: int) {
    c == 0x22 || c == 0x5C || c == 0x2F || c == 0x62 ||
    c == 0x66 || c == 0x6E || c == 0x72 || c == 0x74
  }

  predicate AllWhitespace(t: Text) {
    forall k | 0 <= k < |t| :: IsWhitespace(t[k])
  }

  predicate AllDigits(t: Text) {
    forall k | 0 <= k < |t| :: IsDigit(t[k])
  }

  predicate Occurs(s: Text, i: nat, t: Text) {
    i + |t| <= |s| && s[i..i + |t|] == t
  }

  lemma OccursConcat(s: Text, i: nat, a: Text, b: Text)
    ensures Occurs(s, i, a + b) <==> Occurs(s, i, a) && Occurs(s, i + |a|, b)
  {
    if i + |a| + |b| <= |s| {
      var w := s[i..i + |a| + |b|];
      assert w == s[i..i + |a|] + s[i + |a|..i + |a| + |b|];
      assert w[..|a|] == s[i..i + |a|];
      assert w[|a|..] == s[i + |a|..i + |a| + |b|];
      assert (a + b)[..|a|] == a && (a + b)[|a|..] == b;
    }
  }

  lemma OccursSlice(s: Text, i: nat, j: nat)
    requires i <= j <= |s|
    ensures Occurs(s, i, s[i..j])
  {
  }

  lemma OccursNothing(s: Text, i: nat)
    requires i <= |s|
    ensures Occurs(s, i, [])
  {
  }

  lemma OccursAt(s: Text, i: nat, t: Text, k: nat)
    requires Occurs(s, i, t) && k < |t|
    ensures i + k < |s| && s[i + k] == t[k]
  {
    assert s[i..i + |t|][k] == s[i + k];
  }

  lemma OccursByte(s: Text, i: nat, b: Byte)
    ensures Occurs(s, i, [b]) <==> i < |s| && s[i] == b
  {
    if i < |s| {
      assert s[i..i + 1] == [s[i]];
    }
  }

  /** Index of the first byte at or after `i` that is not whitespace. */
  function SkipWs(s: Text, i: nat): (j: nat)
    ensures i <= j
    ensures i <= |s| ==> j <= |s|
    ensures !IsWhitespace(At(s, j))
    ensures forall k | i <= k < j :: k < |s| && IsWhitespace(s[k])
    decreases |s| - i
  {
    if i < |s| && IsWhitespace(s[i]) then SkipWs(s, i + 1) else i
  }

  lemma {:induction false} SkipWsTo(s: Text, i: nat, w: Text)
    requires Occurs(s, i, w) && AllWhitespace(w)
    requires !IsWhitespace(At(s, i + |w|))
    ensures SkipWs(s, i) == i + |w|
    decreases |w|
  {
    if w == [] {
    } else {
      assert w == [w[0]] + w[1..];
      OccursConcat(s, i, [w[0]], w[1..]);
      OccursByte(s, i, w[0]);
      SkipWsTo(s, i + 1, w[1..]);
    }
  }
}
