/** Writing strings and integers: the JSON text of a value arrives whole, or the
    writer says why it does not. */
module JsonWriter {
  import opened Bytes
  import opened JsonString
  import opened Number
  import opened Convert
  import opened UnitText
  import W = Writer

  // --------------------------------------------------------------- integers

  /** Decimal digits without a superfluous zero. */
  function DigitsText(n: nat): (t: Text)
    ensures |t| >= 1 && AllDigits(t)
  {
    if n < 10 then [ZERO + n] else DigitsText(n / 10) + [ZERO + n % 10]
  }

  function IntegerText(v: int): Text {
    if v < 0 then [MINUS] + DigitsText(-v) else DigitsText(v)
  }

  function IntegerNumber(v: int): Number {
    Number(v < 0, DigitsText(if v < 0 then -v else v), [], NoExponent)
  }

  lemma {:induction false} DigitsRoundTrip(n: nat)
    ensures NatOf(DigitsText(n)) == n && (DigitsText(n)[0] == ZERO <==> n == 0) && (n < 10 <==> |DigitsText(n)| == 1)
    decreases n
  {
    if n < 10 {
      assert NatOf([ZERO + n][..0]) == 0;
    } else {
      DigitsRoundTrip(n / 10);
      NatOfSnoc(DigitsText(n / 10), ZERO + n % 10);
    }
  }

  /** What is written is a JSON number, and converting it gives the value back. */
  lemma IntegerRoundTrip(v: int)
    ensures NumberOk(IntegerNumber(v)) && PrintNumber(IntegerNumber(v)) == IntegerText(v)
    ensures -MAX_INT64 - 1 <= v <= MAX_INT64 ==> SignedValue(IntegerNumber(v)) == Value(v)
    ensures 0 <= v <= MAX_UINT64 ==> UnsignedValue(IntegerNumber(v)) == Value(v)
  {
    hide NatOf;
    var m := if v < 0 then -v else v;
    DigitsRoundTrip(m);
    assert DigitsText(m) + ([] + []) == DigitsText(m);
    assert [] + DigitsText(m) == DigitsText(m);
  }

  function Pow10(k: nat): nat {
    if k == 0 then 1 else 10 * Pow10(k - 1)
  }

  lemma TwentyDigits(k: nat, value: nat)
    requires value * Pow10(k) <= MAX_UINT64 && value > 0
    ensures k < 20
  {
    PowTwenty();
    if k >= 20 {
      Multiplied(value, Pow10(k));
      PowGrows(20, k);
    }
  }

  lemma PowTwenty()
    ensures Pow10(20) == 100_000_000_000_000_000_000
  {
    assert Pow10(5) == 100_000;
    assert Pow10(10) == 10_000_000_000;
    assert Pow10(15) == 1_000_000_000_000_000;
  }

  lemma Multiplied(value: nat, p: nat)
    requires value > 0
    ensures value * p >= p
  {
  }

  lemma {:induction false} PowGrows(j: nat, k: nat)
    requires j <= k
    ensures Pow10(j) <= Pow10(k)
    decreases k - j
  {
    if j < k {
      PowGrows(j, k - 1);
    }
  }

  lemma NextDigit(value: nat, k: nat)
    ensures value / 10 * Pow10(k + 1) <= value * Pow10(k)
  {
    var q, p := value / 10, Pow10(k);
    assert 10 * q <= value;
    assert q * (10 * p) == 10 * q * p;
    assert 10 * q * p <= value * p;
  }

  function Backwards(t: Text): (r: Text)
    ensures |r| == |t|
  {
    if t == [] then [] else Backwards(t[1..]) + [t[0]]
  }

  lemma {:induction false} BackwardsAt(t: Text, k: nat)
    requires k < |t|
    ensures Backwards(t)[k] == t[|t| - 1 - k]
    decreases |t|
  {
    if k < |t| - 1 {
      BackwardsAt(t[1..], k);
    }
  }

  lemma {:induction false} BackwardsSnoc(t: Text, c: Byte)
    ensures Backwards(t + [c]) == [c] + Backwards(t)
    decreases |t|
  {
    if t == [] {
      assert [c][1..] == [];
      assert Backwards([c]) == Backwards([]) + [c];
    } else {
      assert (t + [c])[1..] == t[1..] + [c];
      BackwardsSnoc(t[1..], c);
    }
  }

  /** kason_schema_unsigned_text: the digits from the last to the first, then turned
      round; never more than twenty. */
  method UnsignedText(value: nat, output: array<Byte>, at: nat) returns (length: nat)
    requires value <= MAX_UINT64 && at + 20 <= output.Length
    modifies output
    ensures 1 <= length <= 20 && output[..at] == old(output[..at]) && output[at..at + length] == DigitsText(value)
  {
    hide Backwards, Pow10, DigitsText;
    var reversed := new Byte[32];
    length := 0;
    var rest: nat := value;
    DigitsStart(value);
    while true
      invariant 0 <= length < 20 && rest * Pow10(length) <= MAX_UINT64
      invariant DigitsText(rest) + Backwards(reversed[..length]) == DigitsText(value)
      invariant output[..] == old(output[..])
      decreases rest
    {
      ghost var before := reversed[..length];
      ghost var last := rest;
      reversed[length] := ZERO + rest % 10;
      assert reversed[..length + 1] == before + [ZERO + rest % 10];
      BackwardsSnoc(before, ZERO + rest % 10);
      DigitsStep(rest, Backwards(before));
      NextDigit(rest, length);
      length := length + 1;
      rest := rest / 10;
      if rest == 0 {
        break;
      }
      TwentyDigits(length, rest);
    }
    TurnRound(reversed, length, output, at);
  }

  method TurnRound(reversed: array<Byte>, length: nat, output: array<Byte>, at: nat)
    requires reversed != output && length <= reversed.Length && at + length <= output.Length
    modifies output
    ensures output[..at] == old(output[..at]) && output[at..at + length] == Backwards(reversed[..length])
  {
    hide Backwards;
    for i := 0 to length
      invariant output[..at] == old(output[..at])
      invariant forall k | 0 <= k < i :: output[at + k] == Backwards(reversed[..length])[k]
    {
      BackwardsAt(reversed[..length], i);
      output[at + i] := reversed[length - i - 1];
    }
  }

  lemma DigitsStart(n: nat)
    ensures n * Pow10(0) == n && DigitsText(n) + Backwards([]) == DigitsText(n)
  {
  }

  /** The last digit moves from the number to the digits already split off. */
  lemma DigitsStep(n: nat, tail: Text)
    ensures var tail' := [ZERO + n % 10] + tail;
      DigitsText(n) + tail == if n / 10 == 0 then tail' else DigitsText(n / 10) + tail'
  {
    if n >= 10 {
      assert DigitsText(n / 10) + [ZERO + n % 10] + tail == DigitsText(n / 10) + ([ZERO + n % 10] + tail);
    }
  }

  /** kason_writer_unsigned. */
  method WriteUnsigned(w: W.Writer, value: nat) returns (r: W.Status)
    requires w.Valid() && w.status == W.Success && value <= MAX_UINT64
    modifies w, w.buffer, w.scratch
    ensures w.Valid() && w.earlier == old(w.earlier) && w.status == r
    ensures if r == W.Success then w.written == old(w.written) + IntegerText(value)
      else w.written == old(w.written) && w.Blocked(r, |w.written| + |IntegerText(value)|)
  {
    var output := new Byte[32];
    var length := UnsignedText(value, output, 0);
    assert output[..length] == output[0..0 + length];
    r := w.Write(output[..length]);
  }

  /** kason_writer_signed; the magnitude of the smallest integer does not overflow. */
  method WriteSigned(w: W.Writer, value: int) returns (r: W.Status)
    requires w.Valid() && w.status == W.Success && -MAX_INT64 - 1 <= value <= MAX_INT64
    modifies w, w.buffer, w.scratch
    ensures w.Valid() && w.earlier == old(w.earlier) && w.status == r
    ensures if r == W.Success then w.written == old(w.written) + IntegerText(value)
      else w.written == old(w.written) && w.Blocked(r, |w.written| + |IntegerText(value)|)
  {
    hide W.Writer.Valid, W.Writer.Blocked, DigitsText;
    var output := new Byte[32];
    var length, magnitude := 0, 0;
    if value < 0 {
      output[0] := MINUS;
      length := 1;
      assert 0 <= -(value + 1) <= MAX_INT64;
      magnitude := -(value + 1) + 1;
    } else {
      magnitude := value;
    }
    var digits := UnsignedText(magnitude, output, length);
    assert output[..length + digits] == output[..length] + output[length..length + digits];
    assert output[..length + digits] == IntegerText(value);
    r := w.Write(output[..length + digits]);
  }

  // ---------------------------------------------------------------- strings

  /** The bytes written for one scalar value. */
  function CharText(v: Scalar): Text {
    PrintChar(WrittenChar(v))
  }

  /** The text written so far when a string is cut short. */
  function Opened(ss: seq<Scalar>): Text {
    [QUOTE] + JsonBody(ss)
  }

  lemma OpenedMore(ss: seq<Scalar>, v: Scalar)
    ensures Opened(ss + [v]) == Opened(ss) + CharText(v)
  {
    hide JsonBody, PrintChar, WrittenChar;
    JsonBodySnoc(ss, v);
  }

  /** The escape sequence of a quote, a backslash or a control character. */
  method WriteEscape(w: W.Writer, c: Byte) returns (r: W.Status)
    requires w.Valid() && w.status == W.Success && (c == QUOTE || c == BACKSLASH || c < 0x20)
    modifies w, w.buffer, w.scratch
    ensures w.Valid() && w.earlier == old(w.earlier) && w.status == r
    ensures if r == W.Success then w.written == old(w.written) + CharText(c)
      else w.written == old(w.written) && w.Blocked(r, |w.written| + |CharText(c)|)
  {
    if c == QUOTE || c == BACKSLASH {
      r := w.Write([BACKSLASH, c]);
      return;
    }
    var simple: Text := [];
    var unicode: Text := [BACKSLASH, LOWER_U, ZERO, ZERO, ZERO, ZERO];
    if c == 8 {
      simple := [BACKSLASH, 0x62];
    } else if c == 12 {
      simple := [BACKSLASH, 0x66];
    } else if c == 10 {
      simple := [BACKSLASH, 0x6E];
    } else if c == 13 {
      simple := [BACKSLASH, 0x72];
    } else if c == 9 {
      simple := [BACKSLASH, 0x74];
    } else {
      unicode := unicode[4 := LowerHex(c / 16)][5 := LowerHex(c % 16)];
      assert unicode == CharText(c);
    }
    r := w.Write(if simple != [] then simple else unicode);
  }

  /** kason_writer_json_scalar: anything that is no scalar value is a type error. */
  method WriteScalar(w: W.Writer, scalar: nat) returns (r: W.Status)
    requires w.Valid() && w.status == W.Success
    modifies w, w.buffer, w.scratch
    ensures w.Valid() && w.earlier == old(w.earlier) && w.status == r
    ensures !IsScalar(scalar) ==> r == W.TypeError && w.written == old(w.written)
    ensures IsScalar(scalar) ==>
      if r == W.Success then w.written == old(w.written) + CharText(scalar)
      else w.written == old(w.written) && w.Blocked(r, |w.written| + |CharText(scalar)|)
  {
    if scalar == QUOTE || scalar == BACKSLASH || scalar < 0x20 {
      r := WriteEscape(w, scalar);
      return;
    }
    var encoded: Text;
    if scalar <= 0x7F {
      encoded := [scalar];
    } else if scalar <= 0x7FF {
      encoded := [0xC0 + scalar / 64, 0x80 + scalar % 64];
    } else if scalar <= 0xFFFF && !(0xD800 <= scalar <= 0xDFFF) {
      encoded := [0xE0 + scalar / 64 / 64, 0x80 + scalar / 64 % 64, 0x80 + scalar % 64];
    } else if 0x10000 <= scalar <= 0x10FFFF {
      encoded := [0xF0 + scalar / 64 / 64 / 64, 0x80 + scalar / 64 / 64 % 64, 0x80 + scalar / 64 % 64, 0x80 + scalar % 64];
    } else {
      w.status := W.TypeError;
      return w.status;
    }
    assert encoded == Utf8(scalar);
    r := w.Write(encoded);
  }

  /** What became of writing `text` behind `before`: all of it is written, or the reason
      why not, which for a malformed string is its type. */
  ghost predicate Wrote(w: W.Writer, before: Text, r: W.Status, text: Text, valid: bool)
    reads w, w.buffer, w.scratch
  {
    w.Valid() && w.status == r &&
    if r == W.Success then valid && w.written == before + text
    else (r == W.TypeError && !valid) || w.Blocked(r, |before| + |text|)
  }

  /** Where a part is blocked, so is the whole. */
  lemma BlockedPart(w: W.Writer, code: W.Status, part: nat, whole: nat)
    requires w.Blocked(code, part) && part <= whole
    ensures w.Blocked(code, whole)
  {
  }

  lemma {:induction false} OpenedPrefix(ss: seq<Scalar>, rest: seq<Scalar>)
    ensures |Opened(ss)| < |QuotedText(ss + rest)|
    decreases |rest|
  {
    hide JsonBody, CharText;
    if rest == [] {
      assert ss + rest == ss;
    } else {
      OpenedMore(ss, rest[0]);
      assert ss + rest == (ss + [rest[0]]) + rest[1..];
      OpenedPrefix(ss + [rest[0]], rest[1..]);
    }
  }

  lemma NothingOpened()
    ensures Opened([]) == [QUOTE]
  {
  }

  lemma OpenedIsQuoted(ss: seq<Scalar>)
    ensures Opened(ss) + [QUOTE] == QuotedText(ss)
  {
  }

  /** One character is decoded: it joins those already written. */
  lemma CharacterStep(width: Width, u: seq<int>, i: nat, ss: seq<Scalar>)
    requires UnitsOk(width, u) && NextUnit(width, u, i).NextValue?
    ensures var next := NextUnit(width, u, i);
      UnitsValidFrom(width, u, i) == UnitsValidFrom(width, u, next.next) &&
      ss + UnitScalarsFrom(width, u, i) == ss + [next.scalar] + UnitScalarsFrom(width, u, next.next)
  {
    hide NextUnit;
  }

  lemma CharactersEnd(width: Width, u: seq<int>, i: nat, ss: seq<Scalar>)
    requires UnitsOk(width, u) && !NextUnit(width, u, i).NextValue?
    ensures UnitsValidFrom(width, u, i) == NextUnit(width, u, i).NextEnd?
    ensures ss + UnitScalarsFrom(width, u, i) == ss
  {
    hide NextUnit;
  }

  /** kason_schema_utf8_sequence. */
  method Utf8Sequence(value: Text, offset: nat) returns (ok: bool, length: nat)
    requires offset < |value|
    ensures ok == NextUnit(W8, value, offset).NextValue?
    ensures ok ==> NextUnit(W8, value, offset).next == offset + length
  {
    var first := value[offset];
    if first < 0x80 {
      return true, 1;
    }
    length := LeadLength(first);
    if length == 0 || length > |value| - offset {
      return false, 0;
    }
    var scalar := LeadBits(first);
    for k := 1 to length
      invariant ContinuedBy(value, offset + 1, offset + k)
      invariant scalar == Accumulated(value, offset, k - 1)
    {
      if !IsContinuation(value[offset + k]) {
        return false, 0;
      }
      scalar := scalar * 64 + value[offset + k] % 64;
    }
    ok := scalar >= LeadMinimum(length) && IsScalar(scalar);
  }

  /** A character that needs no escape is written as its own bytes. */
  lemma OwnBytes(value: Text, offset: nat)
    requires offset < |value| && NextUnit(W8, value, offset).NextValue?
    requires value[offset] != QUOTE && value[offset] != BACKSLASH && value[offset] >= 0x20
    ensures var read := NextUnit(W8, value, offset); value[offset..read.next] == CharText(read.scalar)
  {
    hide NextMultiByte, Utf8;
    NextIsEncoded(W8, value, offset);
    if value[offset] >= 0x80 {
      EncodeDecoded(value, offset);
    }
  }

  /** One round of kason_writer_json_string: an escape, or the character's own bytes. */
  method WriteCharacter(w: W.Writer, value: Text, offset: nat) returns (r: W.Status, next: nat)
    requires w.Valid() && w.status == W.Success && offset < |value|
    modifies w, w.buffer, w.scratch
    ensures w.Valid() && w.earlier == old(w.earlier) && w.status == r
    ensures !NextUnit(W8, value, offset).NextValue? ==> r == W.TypeError
    ensures NextUnit(W8, value, offset).NextValue? ==>
      var read := NextUnit(W8, value, offset);
      if r == W.Success then next == read.next && w.written == old(w.written) + CharText(read.scalar)
      else w.Blocked(r, |old(w.written)| + |CharText(read.scalar)|)
  {
    hide W.Writer.Blocked, Utf8, Accumulated, NextMultiByte, W.Joined;
    var c := value[offset];
    if c == QUOTE || c == BACKSLASH || c < 0x20 {
      r := WriteEscape(w, c);
      return r, offset + 1;
    }
    var ok, length := Utf8Sequence(value, offset);
    if !ok {
      w.status := W.TypeError;
      return w.status, offset;
    }
    OwnBytes(value, offset);
    r := w.Write(value[offset..offset + length]);
    next := offset + length;
  }

  /** kason_writer_json_string. */
  method WriteJsonString(w: W.Writer, value: Text) returns (r: W.Status)
    requires w.Valid() && w.status == W.Success
    modifies w, w.buffer, w.scratch
    ensures w.earlier == old(w.earlier)
    ensures Wrote(w, old(w.written), r, QuotedText(UnitScalars(W8, value)), UnitsValid(W8, value))
  {
    hide UnitScalarsFrom, UnitsValidFrom, NextUnit, JsonBody, CharText, Opened, W.Writer.Valid, W.Writer.Blocked, QuotedText;
    ghost var before, all, ss: seq<Scalar> := w.written, UnitScalars(W8, value), [];
    NothingOpened();
    OpenedPrefix([], all);
    assert [] + all == all;
    r := w.Write([QUOTE]);
    if r != W.Success {
      BlockedPart(w, r, |before| + 1, |before| + |QuotedText(all)|);
      return;
    }
    var offset := 0;
    while offset < |value|
      invariant offset <= |value| && w.Valid() && w.status == W.Success && w.earlier == old(w.earlier)
      invariant all == ss + UnitScalarsFrom(W8, value, offset) && UnitsValid(W8, value) == UnitsValidFrom(W8, value, offset)
      invariant w.written == before + Opened(ss)
      decreases |value| - offset
    {
      ghost var next := NextUnit(W8, value, offset);
      ghost var at := |w.written|;
      ghost var i := offset;
      r, offset := WriteCharacter(w, value, offset);
      if next.NextValue? {
        CharacterStep(W8, value, i, ss);
        OpenedMore(ss, next.scalar);
        OpenedPrefix(ss + [next.scalar], UnitScalarsFrom(W8, value, next.next));
      } else {
        CharactersEnd(W8, value, i, ss);
      }
      if r != W.Success {
        if next.NextValue? {
          BlockedPart(w, r, at + |CharText(next.scalar)|, |before| + |QuotedText(all)|);
        }
        return;
      }
      ss := ss + [next.scalar];
    }
    CharactersEnd(W8, value, offset, ss);
    OpenedIsQuoted(ss);
    ghost var at := |w.written|;
    r := w.Write([QUOTE]);
    if r != W.Success {
      BlockedPart(w, r, at + 1, |before| + |QuotedText(all)|);
    }
  }

  method BoundedLength(u: seq<int>) returns (length: nat)
    ensures length == ZeroAt(u)
  {
    length := 0;
    while length < |u|
      invariant length <= |u| && ZeroAt(u) == length + ZeroAt(u[length..])
    {
      if u[length] == 0 {
        return;
      }
      assert u[length..][1..] == u[length + 1..];
      length := length + 1;
    }
  }

  /** kason_schema_utf16_valid. */
  method Utf16Valid(u: seq<int>) returns (valid: bool)
    requires UnitsOk(W16, u)
    ensures valid == UnitsValid(W16, u)
  {
    var index := 0;
    while index < |u|
      invariant index <= |u| && UnitsValid(W16, u) == UnitsValidFrom(W16, u, index)
    {
      var unit := u[index];
      index := index + 1;
      if unit == 0 || 0xDC00 <= unit <= 0xDFFF {
        return false;
      }
      if 0xD800 <= unit <= 0xDBFF {
        if index >= |u| || u[index] < 0xDC00 || u[index] > 0xDFFF {
          return false;
        }
        index := index + 1;
      }
    }
    return true;
  }

  /** kason_schema_utf32_valid. */
  method Utf32Valid(u: seq<int>) returns (valid: bool)
    requires UnitsOk(W32, u)
    ensures valid == UnitsValid(W32, u)
  {
    for index := 0 to |u|
      invariant UnitsValid(W32, u) == UnitsValidFrom(W32, u, index)
    {
      if u[index] == 0 || u[index] > 0x10FFFF || 0xD800 <= u[index] <= 0xDFFF {
        return false;
      }
    }
    return true;
  }

  /** What the loops of the UTF-16 and UTF-32 writers keep. */
  ghost predicate Writing(w: W.Writer, before: Text, width: Width, u: seq<int>, i: nat, ss: seq<Scalar>)
    reads w, w.buffer, w.scratch
    requires UnitsOk(width, u)
  {
    w.Valid() && w.status == W.Success && i <= |u| && UnitsValidFrom(width, u, i) &&
    UnitScalars(width, u) == ss + UnitScalarsFrom(width, u, i) && w.written == before + Opened(ss)
  }

  /** The opening quote. */
  method WriteOpening(w: W.Writer, ghost width: Width, ghost u: seq<int>) returns (r: W.Status)
    requires w.Valid() && w.status == W.Success && UnitsOk(width, u) && UnitsValid(width, u)
    modifies w, w.buffer, w.scratch
    ensures w.Valid() && w.status == r && w.earlier == old(w.earlier)
    ensures if r == W.Success then Writing(w, old(w.written), width, u, 0, [])
      else w.Blocked(r, |old(w.written)| + |QuotedText(UnitScalars(width, u))|)
  {
    hide UnitScalarsFrom, UnitsValidFrom, JsonBody, Opened, W.Writer.Valid, W.Writer.Blocked, QuotedText;
    NothingOpened();
    ghost var all, before := UnitScalars(width, u), |w.written|;
    assert [] + all == all;
    OpenedPrefix([], all);
    r := w.Write([QUOTE]);
    if r != W.Success {
      BlockedPart(w, r, before + 1, before + |QuotedText(all)|);
    }
  }

  /** One character of a valid string. */
  method WriteNext(w: W.Writer, scalar: nat, ghost width: Width, ghost u: seq<int>, ghost i: nat,
    ghost before: Text, ghost ss: seq<Scalar>) returns (r: W.Status)
    requires UnitsOk(width, u) && Writing(w, before, width, u, i, ss)
    requires NextUnit(width, u, i).NextValue? && NextUnit(width, u, i).scalar == scalar
    modifies w, w.buffer, w.scratch
    ensures w.Valid() && w.status == r && w.earlier == old(w.earlier)
    ensures if r == W.Success then Writing(w, before, width, u, NextUnit(width, u, i).next, ss + [scalar])
      else w.Blocked(r, |before| + |QuotedText(UnitScalars(width, u))|)
  {
    hide UnitScalarsFrom, UnitsValidFrom, NextUnit, JsonBody, CharText, Opened, W.Writer.Valid, W.Writer.Blocked, QuotedText;
    CharacterStep(width, u, i, ss);
    OpenedMore(ss, scalar);
    OpenedPrefix(ss + [scalar], UnitScalarsFrom(width, u, NextUnit(width, u, i).next));
    ghost var at := |w.written|;
    r := WriteScalar(w, scalar);
    if r != W.Success {
      BlockedPart(w, r, at + |CharText(scalar)|, |before| + |QuotedText(UnitScalars(width, u))|);
    }
  }

  /** The closing quote. */
  method WriteClosing(w: W.Writer, ghost width: Width, ghost u: seq<int>, ghost i: nat,
    ghost before: Text, ghost ss: seq<Scalar>) returns (r: W.Status)
    requires UnitsOk(width, u) && Writing(w, before, width, u, i, ss) && i == |u|
    modifies w, w.buffer, w.scratch
    ensures w.earlier == old(w.earlier) && Wrote(w, before, r, QuotedText(UnitScalars(width, u)), true)
  {
    hide UnitScalarsFrom, UnitsValidFrom, NextUnit, JsonBody, Opened, W.Writer.Valid, W.Writer.Blocked, QuotedText;
    CharactersEnd(width, u, i, ss);
    OpenedIsQuoted(ss);
    ghost var at := |w.written|;
    r := w.Write([QUOTE]);
    if r != W.Success {
      BlockedPart(w, r, at + 1, |before| + |QuotedText(ss)|);
    }
  }

  /** kason_writer_json_string_u16. */
  method WriteJsonString16(w: W.Writer, value: seq<int>) returns (r: W.Status)
    requires w.Valid() && w.status == W.Success && UnitsOk(W16, value)
    modifies w, w.buffer, w.scratch
    ensures w.earlier == old(w.earlier)
    ensures var u := CString(value);
      Wrote(w, old(w.written), r, QuotedText(UnitScalars(W16, u)), ZeroAt(value) < |value| && UnitsValid(W16, u))
  {
    hide UnitScalarsFrom, UnitsValidFrom, QuotedText, W.Writer.Blocked, Writing;
    var length := BoundedLength(value);
    var u := value[..length];
    var valid := Utf16Valid(u);
    if length == |value| || !valid {
      w.status := W.TypeError;
      return w.status;
    }
    r := WriteOpening(w, W16, u);
    if r != W.Success {
      return;
    }
    ghost var before, ss: seq<Scalar> := old(w.written), [];
    var index := 0;
    while index < length
      invariant index <= length && w.earlier == old(w.earlier) && Writing(w, before, W16, u, index, ss)
    {
      ghost var i := index;
      WritingValid(w, before, W16, u, i, ss);
      var scalar := u[index];
      index := index + 1;
      if 0xD800 <= scalar <= 0xDBFF {
        var low := u[index];
        index := index + 1;
        scalar := 0x10000 + (scalar - 0xD800) * 1024 + (low - 0xDC00);
      }
      r := WriteNext(w, scalar, W16, u, i, before, ss);
      if r != W.Success {
        return;
      }
      ss := ss + [scalar];
    }
    r := WriteClosing(w, W16, u, index, before, ss);
  }

  lemma WritingValid(w: W.Writer, before: Text, width: Width, u: seq<int>, i: nat, ss: seq<Scalar>)
    requires UnitsOk(width, u) && Writing(w, before, width, u, i, ss) && i < |u|
    ensures NextUnit(width, u, i).NextValue?
  {
    hide NextUnit;
  }

  /** kason_writer_json_string_u32. */
  method WriteJsonString32(w: W.Writer, value: seq<int>) returns (r: W.Status)
    requires w.Valid() && w.status == W.Success && UnitsOk(W32, value)
    modifies w, w.buffer, w.scratch
    ensures w.earlier == old(w.earlier)
    ensures var u := CString(value);
      Wrote(w, old(w.written), r, QuotedText(UnitScalars(W32, u)), ZeroAt(value) < |value| && UnitsValid(W32, u))
  {
    hide UnitScalarsFrom, UnitsValidFrom, QuotedText, W.Writer.Blocked, Writing;
    var length := BoundedLength(value);
    var u := value[..length];
    var valid := Utf32Valid(u);
    if length == |value| || !valid {
      w.status := W.TypeError;
      return w.status;
    }
    r := WriteOpening(w, W32, u);
    if r != W.Success {
      return;
    }
    ghost var before, ss: seq<Scalar> := old(w.written), [];
    for index := 0 to length
      invariant w.earlier == old(w.earlier) && Writing(w, before, W32, u, index, ss)
    {
      WritingValid(w, before, W32, u, index, ss);
      r := WriteNext(w, u[index], W32, u, index, before, ss);
      if r != W.Success {
        return;
      }
      ss := ss + [u[index]];
    }
    r := WriteClosing(w, W32, u, length, before, ss);
  }
}
