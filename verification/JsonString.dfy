/** JSON string bodies: UTF-8, escapes and surrogate pairs.

    `NextScalar` is the decoder of kason.c; `Char` with `PrintChar` is the
    grammar of section 7 of RFC 8259 (with the UTF-8 of section 4 of RFC 3629),
    written independently of it. */
module JsonString {
  import opened Bytes

  // ---------------------------------------------------------------- UTF-8

  predicate IsScalar(c: int) {
    0 <= c < 0xD800 || 0xE000 <= c <= 0x10FFFF
  }

  type Scalar = c: int | 0 <= c < 0xD800 || 0xE000 <= c <= 0x10FFFF

  /** A continuation byte carrying the low six bits of `v`. */
  function Tail(v: nat): (b: Byte)
    ensures 0x80 <= b < 0xC0 && b % 64 == v % 64
  {
    0x80 + v % 64
  }

  function LeadByte(mark: nat, bits: nat): (b: Byte)
    requires mark + bits < 256
    ensures b == mark + bits
  {
    mark + bits
  }

  /** kason_utf8_encode; `v >> 6`, `v >> 12` and `v >> 18` are repeated divisions by 64. */
  function Utf8(v: Scalar): (t: Text)
    ensures 1 <= |t| <= 4
  {
    var v6 := v / 64;
    var v12 := v6 / 64;
    if v <= 0x7F then [LeadByte(0, v)]
    else if v <= 0x7FF then [LeadByte(0xC0, v6), Tail(v)]
    else if v <= 0xFFFF then [LeadByte(0xE0, v12), Tail(v6), Tail(v)]
    else [LeadByte(0xF0, v12 / 64), Tail(v12), Tail(v6), Tail(v)]
  }

  predicate IsContinuation(b: int) {
    0x80 <= b < 0xC0
  }

  /** Number of bytes announced by a lead byte at or above 0x80; 0 if it cannot lead. */
  function LeadLength(b: Byte): (n: nat)
    ensures n == 0 || 2 <= n <= 4
  {
    if 0xC2 <= b <= 0xDF then 2
    else if 0xE0 <= b <= 0xEF then 3
    else if 0xF0 <= b <= 0xF4 then 4
    else 0
  }

  /** Payload bits of a lead byte. */
  function LeadBits(b: Byte): nat {
    if 0xC2 <= b <= 0xDF then b % 32
    else if 0xE0 <= b <= 0xEF then b % 16
    else b % 8
  }

  /** Smallest scalar value that needs `n` bytes. */
  function LeadMinimum(n: nat): nat {
    if n == 2 then 0x80 else if n == 3 then 0x800 else 0x10000
  }

  /** The value accumulated by a lead byte and the first `k` continuation bytes. */
  function Accumulated(s: Text, i: nat, k: nat): (v: nat)
    requires i + k < |s|
  {
    if k == 0 then LeadBits(s[i]) else Accumulated(s, i, k - 1) * 64 + s[i + k] % 64
  }

  datatype Next = NextError | NextEnd | NextValue(scalar: int, next: nat)

  predicate ContinuedBy(s: Text, lo: nat, hi: nat)
    requires hi <= |s|
  {
    forall k | lo <= k < hi :: IsContinuation(s[k])
  }

  function NextMultiByte(s: Text, i: nat): (r: Next)
    requires i < |s|
    ensures r.NextValue? ==> IsScalar(r.scalar) && i < r.next <= |s|
    ensures !r.NextEnd?
  {
    var n := LeadLength(s[i]);
    if n == 0 || |s| - i < n then NextError
    else if !ContinuedBy(s, i + 1, i + n) then NextError
    else
      var scalar := Accumulated(s, i, n - 1);
      if scalar < LeadMinimum(n) || !IsScalar(scalar) then NextError else NextValue(scalar, i + n)
  }

  // -------------------------------------------------------------- escapes

  /** Value of four hexadecimal digits, or -1. */
  function Hex4(a: int, b: int, c: int, d: int): (v: int)
    ensures -1 <= v < 0x10000
    ensures v >= 0 <==> HexValue(a) >= 0 && HexValue(b) >= 0 && HexValue(c) >= 0 && HexValue(d) >= 0
  {
    if HexValue(a) < 0 || HexValue(b) < 0 || HexValue(c) < 0 || HexValue(d) < 0 then -1
    else HexValue(a) * 4096 + HexValue(b) * 256 + HexValue(c) * 16 + HexValue(d)
  }

  function Hex4At(s: Text, i: nat): (v: int)
    ensures -1 <= v < 0x10000
  {
    Hex4(At(s, i), At(s, i + 1), At(s, i + 2), At(s, i + 3))
  }

  predicate IsHighSurrogate(v: int) {
    0xD800 <= v <= 0xDBFF
  }

  predicate IsLowSurrogate(v: int) {
    0xDC00 <= v <= 0xDFFF
  }

  function Combine(high: int, low: int): int {
    0x10000 + (high - 0xD800) * 1024 + (low - 0xDC00)
  }

  function SimpleEscapeValue(c: Byte): (v: Scalar)
    requires IsSimpleEscape(c)
  {
    if c == 0x62 then 8
    else if c == 0x66 then 12
    else if c == 0x6E then 10
    else if c == 0x72 then 13
    else if c == 0x74 then 9
    else c
  }

  function NextUnicodeEscape(s: Text, i: nat): (r: Next)
    requires i < |s|
    ensures r.NextValue? ==> IsScalar(r.scalar) && i < r.next <= |s|
    ensures !r.NextEnd?
  {
    var v := Hex4At(s, i + 2);
    if |s| - i < 6 || v < 0 then NextError
    else if IsHighSurrogate(v) then
      var low := Hex4At(s, i + 8);
      if |s| - i < 12 || s[i + 6] != BACKSLASH || s[i + 7] != LOWER_U || !IsLowSurrogate(low) then NextError
      else NextValue(Combine(v, low), i + 12)
    else if IsLowSurrogate(v) then NextError
    else NextValue(v, i + 6)
  }

  /** kason_string_next_internal: one decoded scalar value of the body `s`, from
      position `i`. `strict` also refuses control characters and quotes. */
  function NextScalar(s: Text, i: nat, strict: bool): (r: Next)
    ensures r.NextValue? ==> IsScalar(r.scalar) && i < r.next <= |s|
    ensures r.NextEnd? <==> i >= |s|
  {
    if i >= |s| then NextEnd
    else if s[i] == BACKSLASH then
      if |s| - i < 2 then NextError
      else if IsSimpleEscape(s[i + 1]) then NextValue(SimpleEscapeValue(s[i + 1]), i + 2)
      else if s[i + 1] == LOWER_U then NextUnicodeEscape(s, i)
      else NextError
    else if s[i] < 0x80 then
      if strict && (IsControl(s[i]) || s[i] == QUOTE) then NextError else NextValue(s[i], i + 1)
    else NextMultiByte(s, i)
  }

  /** kason_string_is_valid, from position `i` of the body on. */
  predicate ValidFrom(s: Text, i: nat)
    decreases |s| - i
  {
    match NextScalar(s, i, true)
    case NextEnd => true
    case NextError => false
    case NextValue(_, n) => ValidFrom(s, n)
  }

  predicate ValidBody(s: Text) {
    ValidFrom(s, 0)
  }

  /** The decoded scalar values of a body (as far as it can be decoded). */
  function ScalarsFrom(s: Text, i: nat, strict: bool): (r: seq<Scalar>)
    decreases |s| - i
  {
    match NextScalar(s, i, strict)
    case NextValue(v, n) => [v] + ScalarsFrom(s, n, strict)
    case _ => []
  }

  function Scalars(s: Text): (r: seq<Scalar>) {
    ScalarsFrom(s, 0, true)
  }

  function Utf8All(scalars: seq<Scalar>): (t: Text) {
    if scalars == [] then [] else Utf8(scalars[0]) + Utf8All(scalars[1..])
  }

  // -------------------------------------------------------------- grammar

  /** One character of a string as section 7 of RFC 8259 writes it. */
  datatype Char =
    | Plain(scalar: int)
    | Short(letter: int)
    | Unicode(hex: Text)
    | Pair(high: Text, low: Text)

  function HexText(t: Text): int {
    if |t| == 4 then Hex4(t[0], t[1], t[2], t[3]) else -1
  }

  predicate CharOk(c: Char) {
    match c
    case Plain(v) => IsScalar(v) && v >= 0x20 && v != QUOTE && v != BACKSLASH
    case Short(b) => IsSimpleEscape(b)
    case Unicode(h) => HexText(h) >= 0 && IsScalar(HexText(h))
    case Pair(h, l) => IsHighSurrogate(HexText(h)) && IsLowSurrogate(HexText(l))
  }

  function ScalarOf(c: Char): (v: Scalar)
    requires CharOk(c)
  {
    match c
    case Plain(v) => v
    case Short(b) => SimpleEscapeValue(b)
    case Unicode(h) => HexText(h)
    case Pair(h, l) => Combine(HexText(h), HexText(l))
  }

  function PrintChar(c: Char): (t: Text)
    requires CharOk(c)
    ensures |t| >= 1
  {
    match c
    case Plain(v) => Utf8(v)
    case Short(b) => [BACKSLASH, b]
    case Unicode(h) => [BACKSLASH, LOWER_U] + h
    case Pair(h, l) => [BACKSLASH, LOWER_U] + h + [BACKSLASH, LOWER_U] + l
  }

  predicate CharsOk(cs: seq<Char>) {
    forall k | 0 <= k < |cs| :: CharOk(cs[k])
  }

  function PrintChars(cs: seq<Char>): (t: Text)
    requires CharsOk(cs)
  {
    if cs == [] then [] else PrintChar(cs[0]) + PrintChars(cs[1..])
  }

  function ScalarsOf(cs: seq<Char>): (r: seq<Scalar>)
    requires CharsOk(cs)
    ensures |r| == |cs|
  {
    if cs == [] then [] else [ScalarOf(cs[0])] + ScalarsOf(cs[1..])
  }

  /** The character the decoder read at `i`. */
  function CharAt(s: Text, i: nat): (c: Char)
    requires NextScalar(s, i, true).NextValue?
  {
    if s[i] == BACKSLASH then
      if s[i + 1] != LOWER_U then Short(s[i + 1])
      else if IsHighSurrogate(Hex4At(s, i + 2)) then Pair(s[i + 2..i + 6], s[i + 8..i + 12])
      else Unicode(s[i + 2..i + 6])
    else Plain(NextScalar(s, i, true).scalar)
  }

  // --------------------------------------------------- UTF-8 is invertible

  lemma AccumulatedUnrolled(s: Text, i: nat, n: nat)
    requires 2 <= n <= 4 && i + n <= |s|
    ensures n == 2 ==> Accumulated(s, i, n - 1) == LeadBits(s[i]) * 64 + s[i + 1] % 64
    ensures n == 3 ==> Accumulated(s, i, n - 1) == (LeadBits(s[i]) * 64 + s[i + 1] % 64) * 64 + s[i + 2] % 64
    ensures n == 4 ==>
      Accumulated(s, i, n - 1) == ((LeadBits(s[i]) * 64 + s[i + 1] % 64) * 64 + s[i + 2] % 64) * 64 + s[i + 3] % 64
  {
    assert Accumulated(s, i, 0) == LeadBits(s[i]);
    assert Accumulated(s, i, 1) == LeadBits(s[i]) * 64 + s[i + 1] % 64;
    if n >= 3 {
      assert Accumulated(s, i, 2) == Accumulated(s, i, 1) * 64 + s[i + 2] % 64;
    }
  }

  lemma OccursAll(s: Text, i: nat, t: Text)
    requires Occurs(s, i, t)
    ensures |t| >= 1 ==> s[i] == t[0]
    ensures |t| >= 2 ==> s[i + 1] == t[1]
    ensures |t| >= 3 ==> s[i + 2] == t[2]
    ensures |t| >= 4 ==> s[i + 3] == t[3]
  {
    if |t| >= 1 { OccursAt(s, i, t, 0); }
    if |t| >= 2 { OccursAt(s, i, t, 1); }
    if |t| >= 3 { OccursAt(s, i, t, 2); }
    if |t| >= 4 { OccursAt(s, i, t, 3); }
  }

  lemma OccursShort(s: Text, i: nat, t: Text)
    requires |t| <= 4 && i + |t| <= |s|
    requires |t| >= 1 ==> s[i] == t[0]
    requires |t| >= 2 ==> s[i + 1] == t[1]
    requires |t| >= 3 ==> s[i + 2] == t[2]
    requires |t| >= 4 ==> s[i + 3] == t[3]
    ensures Occurs(s, i, t)
  {
    var w := s[i..i + |t|];
    forall k | 0 <= k < |t| ensures w[k] == t[k] {
      if k == 0 { } else if k == 1 { } else if k == 2 { } else { }
    }
  }

  lemma Utf8Ascii(v: Scalar)
    requires v < 0x80
    ensures Utf8(v) == [v]
  {
  }

  lemma LeadOfUtf8(v: Scalar)
    requires v >= 0x80
    ensures LeadLength(Utf8(v)[0]) == |Utf8(v)| >= 2
    ensures LeadMinimum(|Utf8(v)|) <= v
    ensures Utf8(v)[0] >= 0x80
    ensures |Utf8(v)| == 2 ==> LeadBits(Utf8(v)[0]) == v / 64
    ensures |Utf8(v)| == 3 ==> LeadBits(Utf8(v)[0]) == v / 64 / 64
    ensures |Utf8(v)| == 4 ==> LeadBits(Utf8(v)[0]) == v / 64 / 64 / 64
  {
  }

  /** Decoding what `Utf8` wrote gives the scalar value back, whatever follows. */
  lemma DecodeUtf8(s: Text, i: nat, v: Scalar)
    requires v >= 0x80 && Occurs(s, i, Utf8(v))
    ensures NextMultiByte(s, i) == NextValue(v, i + |Utf8(v)|)
    ensures s[i] >= 0x80
  {
    OccursAll(s, i, Utf8(v));
    LeadOfUtf8(v);
    AccumulatedUnrolled(s, i, |Utf8(v)|);
  }

  lemma ShiftIn(q: nat, b: Byte)
    requires IsContinuation(b)
    ensures (q * 64 + b % 64) / 64 == q
    ensures Tail(q * 64 + b % 64) == b
  {
  }

  lemma Encode2(a: Byte, b: Byte, v: Scalar)
    requires LeadLength(a) == 2 && IsContinuation(b) && v == LeadBits(a) * 64 + b % 64
    ensures v >= 0x80 && Utf8(v) == [a, b]
  {
    ShiftIn(LeadBits(a), b);
  }

  lemma Encode3(a: Byte, b: Byte, c: Byte, v: Scalar)
    requires LeadLength(a) == 3 && IsContinuation(b) && IsContinuation(c)
    requires v == (LeadBits(a) * 64 + b % 64) * 64 + c % 64 && v >= 0x800
    ensures Utf8(v) == [a, b, c]
  {
    ShiftIn(LeadBits(a), b);
    ShiftIn(LeadBits(a) * 64 + b % 64, c);
  }

  lemma Encode4(a: Byte, b: Byte, c: Byte, d: Byte, v: Scalar)
    requires LeadLength(a) == 4 && IsContinuation(b) && IsContinuation(c) && IsContinuation(d)
    requires v == ((LeadBits(a) * 64 + b % 64) * 64 + c % 64) * 64 + d % 64 && v >= 0x10000
    ensures Utf8(v) == [a, b, c, d]
  {
    ShiftIn(LeadBits(a), b);
    ShiftIn(LeadBits(a) * 64 + b % 64, c);
    ShiftIn((LeadBits(a) * 64 + b % 64) * 64 + c % 64, d);
  }

  /** What the decoder accepted at `i` is the encoding of the scalar it returned. */
  lemma EncodeDecoded(s: Text, i: nat)
    requires i < |s| && s[i] >= 0x80 && NextMultiByte(s, i).NextValue?
    ensures Occurs(s, i, Utf8(NextMultiByte(s, i).scalar))
    ensures NextMultiByte(s, i).next == i + |Utf8(NextMultiByte(s, i).scalar)|
    ensures NextMultiByte(s, i).scalar >= 0x80
  {
    var v := NextMultiByte(s, i).scalar;
    var n := LeadLength(s[i]);
    AccumulatedUnrolled(s, i, n);
    if n == 2 {
      Encode2(s[i], s[i + 1], v);
    } else if n == 3 {
      Encode3(s[i], s[i + 1], s[i + 2], v);
    } else {
      Encode4(s[i], s[i + 1], s[i + 2], s[i + 3], v);
    }
    OccursShort(s, i, Utf8(v));
  }

  // ------------------------------------- the decoder reads the grammar

  /** The decoder reads a printed character back, whatever follows it. */
  lemma NextOfChar(s: Text, i: nat, c: Char)
    requires CharOk(c) && Occurs(s, i, PrintChar(c))
    ensures NextScalar(s, i, true) == NextValue(ScalarOf(c), i + |PrintChar(c)|)
    ensures CharAt(s, i) == c
  {
    hide Utf8, NextMultiByte, Hex4, Accumulated;
    var t := PrintChar(c);
    OccursAll(s, i, t);
    match c
    case Plain(v) =>
      if v >= 0x80 {
        DecodeUtf8(s, i, v);
      } else {
        Utf8Ascii(v);
      }
    case Short(b) =>
    case Unicode(h) =>
      OccursConcat(s, i, [BACKSLASH, LOWER_U], h);
      OccursAll(s, i + 2, h);
    case Pair(h, l) =>
      var a, b := [BACKSLASH, LOWER_U] + h, [BACKSLASH, LOWER_U] + l;
      assert t == a + b;
      OccursConcat(s, i, a, b);
      OccursConcat(s, i, [BACKSLASH, LOWER_U], h);
      OccursConcat(s, i + 6, [BACKSLASH, LOWER_U], l);
      OccursAll(s, i + 2, h);
      OccursAll(s, i + 6, b);
      OccursAll(s, i + 8, l);
  }

  lemma UnicodeEscapeOccurs(s: Text, i: nat)
    requires i + 6 <= |s| && s[i] == BACKSLASH && s[i + 1] == LOWER_U
    ensures Occurs(s, i, [BACKSLASH, LOWER_U] + s[i + 2..i + 6])
    ensures HexText(s[i + 2..i + 6]) == Hex4At(s, i + 2)
  {
    hide Hex4;
    OccursShort(s, i, [BACKSLASH, LOWER_U]);
    OccursConcat(s, i, [BACKSLASH, LOWER_U], s[i + 2..i + 6]);
  }

  lemma CharOfUnicodeEscape(s: Text, i: nat)
    requires i < |s| && NextUnicodeEscape(s, i).NextValue?
    requires s[i] == BACKSLASH && s[i + 1] == LOWER_U
    ensures var c := CharAt(s, i); CharOk(c) && Occurs(s, i, PrintChar(c))
    ensures var c := CharAt(s, i); NextUnicodeEscape(s, i) == NextValue(ScalarOf(c), i + |PrintChar(c)|)
  {
    hide Hex4, Hex4At, HexText, Utf8, NextMultiByte;
    UnicodeEscapeOccurs(s, i);
    var h := s[i + 2..i + 6];
    if IsHighSurrogate(Hex4At(s, i + 2)) {
      UnicodeEscapeOccurs(s, i + 6);
      var l := s[i + 8..i + 12];
      OccursConcat(s, i, [BACKSLASH, LOWER_U] + h, [BACKSLASH, LOWER_U] + l);
      assert PrintChar(Pair(h, l)) == [BACKSLASH, LOWER_U] + h + ([BACKSLASH, LOWER_U] + l);
    }
  }

  /** Whatever the decoder accepts is a character of the grammar. */
  lemma CharOfNext(s: Text, i: nat)
    requires NextScalar(s, i, true).NextValue?
    ensures var c := CharAt(s, i); CharOk(c) && Occurs(s, i, PrintChar(c))
    ensures var c := CharAt(s, i); NextScalar(s, i, true) == NextValue(ScalarOf(c), i + |PrintChar(c)|)
  {
    hide Hex4, NextMultiByte, Utf8, NextUnicodeEscape;
    if s[i] == BACKSLASH {
      if s[i + 1] == LOWER_U {
        CharOfUnicodeEscape(s, i);
      } else {
        OccursShort(s, i, [BACKSLASH, s[i + 1]]);
      }
    } else if s[i] < 0x80 {
      OccursShort(s, i, [s[i]]);
      Utf8Ascii(s[i]);
    } else {
      EncodeDecoded(s, i);
    }
  }

  /** The characters of a whole body, as far as it can be decoded. */
  function CharsFrom(s: Text, i: nat): (cs: seq<Char>)
    decreases |s| - i
  {
    match NextScalar(s, i, true)
    case NextValue(_, n) => [CharAt(s, i)] + CharsFrom(s, n)
    case _ => []
  }

  lemma {:induction false} ValidIsPrinted(s: Text, i: nat)
    requires ValidFrom(s, i) && i <= |s|
    ensures CharsOk(CharsFrom(s, i)) && PrintChars(CharsFrom(s, i)) == s[i..]
    ensures ScalarsOf(CharsFrom(s, i)) == ScalarsFrom(s, i, true)
    decreases |s| - i
  {
    hide NextScalar, CharOk, PrintChar, ScalarOf, CharAt;
    match NextScalar(s, i, true)
    case NextEnd =>
    case NextValue(_, n) =>
      CharOfNext(s, i);
      ValidIsPrinted(s, n);
      var c, rest := CharAt(s, i), CharsFrom(s, n);
      assert ([c] + rest)[1..] == rest;
      assert s[i..] == s[i..n] + s[n..];
  }

  lemma {:induction false} PrintedIsValid(s: Text, i: nat, cs: seq<Char>)
    requires CharsOk(cs) && i <= |s| && s[i..] == PrintChars(cs)
    ensures ValidFrom(s, i) && CharsFrom(s, i) == cs
    decreases |cs|
  {
    hide NextScalar, CharOk, PrintChar, ScalarOf, CharAt;
    if cs == [] {
      assert |s[i..]| == 0;
    } else {
      var t := PrintChar(cs[0]);
      assert Occurs(s, i, t + PrintChars(cs[1..])) by {
        assert s[i..i + |s[i..]|] == s[i..];
      }
      OccursConcat(s, i, t, PrintChars(cs[1..]));
      NextOfChar(s, i, cs[0]);
      assert s[i + |t|..] == PrintChars(cs[1..]);
      PrintedIsValid(s, i + |t|, cs[1..]);
    }
  }

  /** kason_string_is_valid accepts exactly the bodies the grammar can write. */
  lemma ValidBodyIffPrinted(s: Text)
    ensures ValidBody(s) <==> exists cs :: CharsOk(cs) && PrintChars(cs) == s
  {
    if ValidBody(s) {
      ValidIsPrinted(s, 0);
      assert s[0..] == s;
    }
    forall cs | CharsOk(cs) && PrintChars(cs) == s ensures ValidBody(s) {
      assert s[0..] == s;
      PrintedIsValid(s, 0, cs);
    }
  }

  // ------------------------------------------- a body inside a document

  datatype Body = NoBody | Body(chars: seq<Char>, close: nat)

  /** The string body that starts at `i` and ends before the quote at `close`. */
  function ReadBody(s: Text, i: nat): (r: Body)
    ensures r.Body? ==> i <= r.close < |s|
    decreases |s| - i
  {
    if i >= |s| then NoBody
    else if s[i] == QUOTE then Body([], i)
    else
      match NextScalar(s, i, true)
      case NextValue(_, n) =>
        var rest := ReadBody(s, n);
        if rest.NoBody? then NoBody else Body([CharAt(s, i)] + rest.chars, rest.close)
      case _ => NoBody
  }

  lemma {:induction false} ReadBodySound(s: Text, i: nat)
    requires ReadBody(s, i).Body?
    ensures var r := ReadBody(s, i);
      CharsOk(r.chars) && Occurs(s, i, PrintChars(r.chars)) && r.close == i + |PrintChars(r.chars)| && s[r.close] == QUOTE
    decreases |s| - i
  {
    if s[i] != QUOTE {
      var n := NextScalar(s, i, true).next;
      var c, rest := CharAt(s, i), ReadBody(s, n).chars;
      CharOfNext(s, i);
      ReadBodySound(s, n);
      assert ([c] + rest)[1..] == rest;
      OccursConcat(s, i, PrintChar(c), PrintChars(rest));
    }
  }

  lemma FirstByteNotQuote(c: Char)
    requires CharOk(c)
    ensures PrintChar(c)[0] != QUOTE
    ensures PrintChar(c)[0] >= 0x20
  {
    if c.Plain? && c.scalar >= 0x80 {
      LeadOfUtf8(c.scalar);
    }
  }

  lemma {:induction false} ReadBodyComplete(s: Text, i: nat, cs: seq<Char>)
    requires CharsOk(cs) && Occurs(s, i, PrintChars(cs)) && At(s, i + |PrintChars(cs)|) == QUOTE
    ensures ReadBody(s, i) == Body(cs, i + |PrintChars(cs)|)
    decreases |cs|
  {
    hide NextScalar, CharOk, PrintChar, ScalarOf, CharAt, Occurs;
    if cs == [] {
    } else {
      var t := PrintChar(cs[0]);
      OccursConcat(s, i, t, PrintChars(cs[1..]));
      NextOfChar(s, i, cs[0]);
      FirstByteNotQuote(cs[0]);
      OccursAt(s, i, t, 0);
      ReadBodyComplete(s, i + |t|, cs[1..]);
    }
  }

  // ------------------------------------------------- the loops of kason.c

  /** kason_decode_hex4. */
  method DecodeHex4(s: Text, i: nat) returns (value: int)
    requires i + 4 <= |s|
    ensures value == Hex4At(s, i)
  {
    value := 0;
    for k := 0 to 4
      invariant forall j | i <= j < i + k :: HexValue(s[j]) >= 0
      invariant k == 1 ==> value == HexValue(s[i])
      invariant k == 2 ==> value == HexValue(s[i]) * 16 + HexValue(s[i + 1])
      invariant k == 3 ==> value == HexValue(s[i]) * 256 + HexValue(s[i + 1]) * 16 + HexValue(s[i + 2])
      invariant k == 4 ==> value == Hex4At(s, i)
      invariant k == 0 ==> value == 0
    {
      var digit := HexValue(s[i + k]);
      if digit < 0 {
        return -1;
      }
      value := value * 16 + digit;
    }
  }

  /** kason_string_next_internal. */
  method StringNext(s: Text, cursor: nat, strict: bool) returns (r: Next)
    ensures r == NextScalar(s, cursor, strict)
  {
    if cursor >= |s| {
      return NextEnd;
    }
    var available := |s| - cursor;
    var first := s[cursor];
    if first == BACKSLASH {
      if available < 2 {
        return NextError;
      }
      if IsSimpleEscape(s[cursor + 1]) {
        return NextValue(SimpleEscapeValue(s[cursor + 1]), cursor + 2);
      }
      if s[cursor + 1] != LOWER_U || available < 6 {
        return NextError;
      }
      var scalar := DecodeHex4(s, cursor + 2);
      if scalar < 0 {
        return NextError;
      }
      if IsHighSurrogate(scalar) {
        if available < 12 || s[cursor + 6] != BACKSLASH || s[cursor + 7] != LOWER_U {
          return NextError;
        }
        var low := DecodeHex4(s, cursor + 8);
        if !IsLowSurrogate(low) {
          return NextError;
        }
        return NextValue(Combine(scalar, low), cursor + 12);
      }
      return if IsLowSurrogate(scalar) then NextError else NextValue(scalar, cursor + 6);
    }
    if first < 0x80 {
      return if strict && (first < 0x20 || first == QUOTE) then NextError else NextValue(first, cursor + 1);
    }
    var length := LeadLength(first);
    if length == 0 || available < length {
      return NextError;
    }
    var scalar := LeadBits(first);
    for k := 1 to length
      invariant ContinuedBy(s, cursor + 1, cursor + k)
      invariant scalar == Accumulated(s, cursor, k - 1)
    {
      if !IsContinuation(s[cursor + k]) {
        return NextError;
      }
      scalar := scalar * 64 + s[cursor + k] % 64;
    }
    return if scalar < LeadMinimum(length) || !IsScalar(scalar) then NextError else NextValue(scalar, cursor + length);
  }

  /** kason_string_is_valid. */
  method StringIsValid(body: Text) returns (valid: bool)
    ensures valid <==> ValidBody(body)
    ensures valid <==> exists cs :: CharsOk(cs) && PrintChars(cs) == body
  {
    var r := StringNext(body, 0, true);
    var ptr := 0;
    while r.NextValue?
      invariant ptr <= |body|
      invariant r == NextScalar(body, ptr, true)
      invariant ValidBody(body) == ValidFrom(body, ptr)
      decreases |body| - ptr
    {
      ptr := r.next;
      r := StringNext(body, ptr, true);
    }
    valid := r == NextEnd;
    ValidBodyIffPrinted(body);
  }
}
