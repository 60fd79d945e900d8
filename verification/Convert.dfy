/** Numbers as 64-bit integers and as normalised decimals: the accumulator that is
    fed while a number is parsed, and the conversions of a number's text. */
module Convert {
  import opened Bytes
  import opened Number

  const MAX_UINT64: int := 0xFFFF_FFFF_FFFF_FFFF
  const MAX_INT64: int := 0x7FFF_FFFF_FFFF_FFFF
  const CAP: nat := 1000000

  /** KaSON_CONVERT_*. */
  datatype Converted = Value(value: int) | RangeError | ConvertError | TypeError

  function Digit(c: Byte): (d: nat)
    requires IsDigit(c)
    ensures d <= 9
  {
    c - ZERO
  }

  function NatOf(d: Text): (n: nat)
    requires AllDigits(d)
  {
    if d == [] then 0 else NatOf(d[..|d| - 1]) * 10 + Digit(d[|d| - 1])
  }

  // ------------------------------------------------ what a number means

  predicate IsInteger(n: Number) {
    n.frac == [] && n.exponent.NoExponent?
  }

  /** The exact outcome for a signed target: a magnitude beyond 64 bits counts
      before a fraction or an exponent does. */
  function SignedValue(n: Number): Converted
    requires NumberOk(n)
  {
    var m: int := NatOf(n.integer);
    if m > MAX_UINT64 then RangeError
    else if !IsInteger(n) then ConvertError
    else if n.negative then (if m > MAX_INT64 + 1 then RangeError else Value(-m))
    else if m > MAX_INT64 then RangeError
    else Value(m)
  }

  /** The exact outcome for an unsigned target; negative zero is out of range too. */
  function UnsignedValue(n: Number): Converted
    requires NumberOk(n)
  {
    var m := NatOf(n.integer);
    if m > MAX_UINT64 then RangeError
    else if !IsInteger(n) then ConvertError
    else if n.negative then RangeError
    else Value(m)
  }

  // ------------------------------------------------------- digits in text

  lemma NatOfSnoc(d: Text, c: Byte)
    requires AllDigits(d) && IsDigit(c)
    ensures AllDigits(d + [c]) && NatOf(d + [c]) == NatOf(d) * 10 + Digit(c)
  {
    assert (d + [c])[..|d|] == d;
  }

  lemma {:induction false} NatOfGrows(d: Text, k: nat)
    requires AllDigits(d) && k <= |d|
    ensures NatOf(d[..k]) <= NatOf(d)
    decreases |d|
  {
    if k < |d| {
      var front := d[..|d| - 1];
      NatOfGrows(front, k);
      assert front[..k] == d[..k];
    } else {
      assert d[..k] == d;
    }
  }

  lemma DigitsAt(t: Text, i: nat, j: nat)
    requires i <= j <= |t| && AllDigits(t[i..j])
    ensures forall k | i <= k < j :: IsDigit(t[k])
  {
    forall k | i <= k < j ensures IsDigit(t[k]) {
      assert IsDigit(t[i..j][k - i]);
    }
  }

  lemma SplitText(sign: Text, digits: Text, tail: Text)
    ensures var t, s := sign + (digits + tail), |sign|;
      t[s..s + |digits|] == digits && t[..s] == sign && t[s + |digits|..] == tail && |t| == s + |digits| + |tail|
  {
  }

  lemma TailStart(n: Number)
    requires NumberOk(n)
    ensures var tail := PrintTail(n.frac, n.exponent); (IsInteger(n) <==> tail == []) && (tail != [] ==> !IsDigit(tail[0]))
  {
  }

  /** The sign, the integer digits, and what follows them. */
  lemma NumberLayout(n: Number)
    requires NumberOk(n)
    ensures var t, s, e := PrintNumber(n), |PrintSign(n.negative)|, |PrintSign(n.negative)| + |n.integer|;
      e <= |t| && t[s..e] == n.integer && (n.negative <==> t[0] == MINUS) && (IsInteger(n) <==> e == |t|) &&
      (e < |t| ==> !IsDigit(t[e])) && t[s] == n.integer[0] && forall k | s <= k < e :: IsDigit(t[k])
  {
    hide PrintTail, IsInteger;
    var t, s := PrintNumber(n), |PrintSign(n.negative)|;
    var tail := PrintTail(n.frac, n.exponent);
    SplitText(PrintSign(n.negative), n.integer, tail);
    TailStart(n);
    DigitsAt(t, s, s + |n.integer|);
    assert t[s] == t[s..s + |n.integer|][0];
    assert tail != [] ==> t[s + |n.integer|] == t[s + |n.integer|..][0];
  }

  // ------------------------------------------------ the text conversions

  function SignLength(t: Text): nat {
    if At(t, 0) == MINUS then 1 else 0
  }

  /** The digits a text begins with, behind its sign, unless the first is zero. */
  function LeadingDigits(t: Text): (d: Text)
    ensures AllDigits(d)
  {
    var s := SignLength(t);
    if s >= |t| || t[s] == ZERO then [] else t[s..DigitsEnd(t, s)]
  }

  /** The outcome for a text that is no number: too many digits come first. */
  function RefusedText(t: Text): Converted {
    if NatOf(LeadingDigits(t)) > MAX_UINT64 then RangeError else ConvertError
  }

  lemma NoDigits(t: Text)
    requires var s := SignLength(t); s >= |t| || t[s] == ZERO || !IsDigit(t[s])
    ensures RefusedText(t) == ConvertError
  {
    var s := SignLength(t);
    if s < |t| && !IsDigit(t[s]) {
      assert DigitsEnd(t, s) == s && t[s..s] == [];
    }
  }

  /** The leading digits end at a byte that is none. */
  lemma DigitsStop(t: Text, ptr: nat)
    requires var s := SignLength(t); s <= ptr < |t| && t[s] != ZERO && AllDigits(t[s..ptr]) && !IsDigit(t[ptr])
    ensures LeadingDigits(t) == t[SignLength(t)..ptr]
  {
    var s := SignLength(t);
    OccursSlice(t, s, ptr);
    DigitsEndOf(t, s, t[s..ptr]);
  }

  /** There are at least these digits. */
  lemma DigitsBegin(t: Text, ptr: nat)
    requires var s := SignLength(t); s < ptr <= |t| && t[s] != ZERO && AllDigits(t[s..ptr])
    ensures NatOf(LeadingDigits(t)) >= NatOf(t[SignLength(t)..ptr])
  {
    hide NatOf;
    var s := SignLength(t);
    DigitsAt(t, s, ptr);
    SlicePrefix(t, s, ptr, DigitsEnd(t, s));
    NatOfGrows(LeadingDigits(t), ptr - s);
  }

  /** A sign and digits without a superfluous zero are a number. */
  lemma DigitsAreNumber(t: Text)
    requires var s := SignLength(t); s < |t| && AllDigits(t[s..]) && (t[s] == ZERO ==> s == |t| - 1)
    ensures IsNumberText(t)
  {
    var s := SignLength(t);
    var n := Number(s == 1, t[s..], [], NoExponent);
    assert NumberOk(n);
    assert t == t[..s] + t[s..] && t[..s] == PrintSign(n.negative);
    assert PrintTail([], NoExponent) == [] + [] == [];
    assert PrintNumber(n) == PrintSign(n.negative) + (t[s..] + []) == t by {
      assert t[s..] + [] == t[s..];
    }
  }

  /** kason_integer_magnitude: what it finds in the text of a number, and in any other. */
  method IntegerMagnitude(t: Text) returns (r: Converted, negative: bool)
    ensures r.Value? ==> 0 <= r.value <= MAX_UINT64
    ensures !IsNumberText(t) ==> r == RefusedText(t)
    ensures forall n | NumberOk(n) && PrintNumber(n) == t ::
      negative == n.negative &&
      r == if NatOf(n.integer) > MAX_UINT64 then RangeError else if !IsInteger(n) then ConvertError else Value(NatOf(n.integer))
  {
    hide PrintNumber, NatOf, NumberOk, LeadingDigits, RefusedText, IsNumberText;
    negative := false;
    NumberTexts(t);
    if t == [] {
      NoDigits(t);
      return ConvertError, false;
    }
    var ptr := 0;
    if t[0] == MINUS {
      negative := true;
      ptr := 1;
      if ptr >= |t| {
        NoDigits(t);
        return ConvertError, true;
      }
    }
    if t[ptr] == ZERO {
      ZeroText(t, ptr);
      if ptr != |t| - 1 {
        NoDigits(t);
        return ConvertError, negative;
      }
      DigitsAreNumber(t);
      return Value(0), negative;
    }
    if !IsDigit(t[ptr]) {
      NoDigits(t);
      return ConvertError, negative;
    }
    var begin, value := ptr, 0;
    EmptyNat(t, ptr);
    while ptr < |t|
      invariant begin <= ptr <= |t| && AllDigits(t[begin..ptr]) && value == NatOf(t[begin..ptr]) && value <= MAX_UINT64
      invariant ptr > begin ==> AllDigits(t[begin..ptr])
      decreases |t| - ptr
    {
      if !IsDigit(t[ptr]) {
        DigitsEndHere(t, begin, ptr);
        DigitsStop(t, ptr);
        RefusedIs(t);
        return ConvertError, negative;
      }
      var digit := Digit(t[ptr]);
      NatOfSnoc(t[begin..ptr], t[ptr]);
      assert t[begin..ptr + 1] == t[begin..ptr] + [t[ptr]];
      if value > (MAX_UINT64 - digit) / 10 {
        DigitsGoOn(t, begin, ptr + 1);
        DigitsBegin(t, ptr + 1);
        RefusedIs(t);
        return RangeError, negative;
      }
      value := value * 10 + digit;
      ptr := ptr + 1;
    }
    assert t[begin..ptr] == t[begin..];
    WholeDigits(t, begin);
    DigitsAreNumber(t);
    return Value(value), negative;
  }

  lemma RefusedIs(t: Text)
    ensures RefusedText(t) == if NatOf(LeadingDigits(t)) > MAX_UINT64 then RangeError else ConvertError
  {
  }

  lemma EmptyNat(t: Text, i: nat)
    requires i <= |t|
    ensures AllDigits(t[i..i]) && NatOf(t[i..i]) == 0
  {
  }

  /** First bytes of a number's text. */
  lemma NumberTexts(t: Text)
    ensures forall n | NumberOk(n) && PrintNumber(n) == t ::
      var s := |PrintSign(n.negative)|;
      s < |t| && (n.negative <==> t[0] == MINUS) && IsDigit(t[s]) && s == (if t[0] == MINUS then 1 else 0)
  {
    hide PrintNumber;
    forall n | NumberOk(n) && PrintNumber(n) == t
      ensures var s := |PrintSign(n.negative)|;
        s < |t| && (n.negative <==> t[0] == MINUS) && IsDigit(t[s]) && s == (if t[0] == MINUS then 1 else 0)
    {
      NumberLayout(n);
    }
  }

  lemma ZeroText(t: Text, ptr: nat)
    requires ptr < |t| && t[ptr] == ZERO && ptr == (if t[0] == MINUS then 1 else 0)
    ensures forall n | NumberOk(n) && PrintNumber(n) == t :: NatOf(n.integer) == 0 && (IsInteger(n) <==> ptr == |t| - 1)
  {
    hide PrintNumber;
    forall n | NumberOk(n) && PrintNumber(n) == t
      ensures NatOf(n.integer) == 0 && (IsInteger(n) <==> ptr == |t| - 1)
    {
      NumberLayout(n);
      assert |n.integer| == 1 && n.integer[..0] == [];
    }
  }

  /** A byte that is no digit ends the integer part. */
  lemma DigitsEndHere(t: Text, begin: nat, ptr: nat)
    requires begin <= ptr < |t| && AllDigits(t[begin..ptr]) && !IsDigit(t[ptr]) && begin == (if t[0] == MINUS then 1 else 0)
    ensures forall n | NumberOk(n) && PrintNumber(n) == t :: n.integer == t[begin..ptr] && !IsInteger(n)
  {
    hide PrintNumber, NatOf;
    forall n | NumberOk(n) && PrintNumber(n) == t ensures n.integer == t[begin..ptr] && !IsInteger(n) {
      NumberLayout(n);
      DigitsAt(t, begin, ptr);
    }
  }

  lemma SlicePrefix(t: Text, i: nat, j: nat, k: nat)
    requires i <= j <= k <= |t|
    ensures t[i..k][..j - i] == t[i..j]
  {
  }

  /** The integer part has at least these digits. */
  lemma DigitsGoOn(t: Text, begin: nat, ptr: nat)
    requires begin <= ptr <= |t| && AllDigits(t[begin..ptr]) && begin == (if |t| > 0 && t[0] == MINUS then 1 else 0)
    ensures forall n | NumberOk(n) && PrintNumber(n) == t :: NatOf(n.integer) >= NatOf(t[begin..ptr])
  {
    hide PrintNumber, NatOf;
    forall n | NumberOk(n) && PrintNumber(n) == t ensures NatOf(n.integer) >= NatOf(t[begin..ptr]) {
      NumberLayout(n);
      DigitsAt(t, begin, ptr);
      SlicePrefix(t, begin, ptr, begin + |n.integer|);
      NatOfGrows(n.integer, ptr - begin);
    }
  }

  lemma WholeDigits(t: Text, begin: nat)
    requires begin < |t| && AllDigits(t[begin..]) && begin == (if t[0] == MINUS then 1 else 0)
    ensures forall n | NumberOk(n) && PrintNumber(n) == t :: n.integer == t[begin..] && IsInteger(n)
  {
    hide PrintNumber, NatOf;
    forall n | NumberOk(n) && PrintNumber(n) == t ensures n.integer == t[begin..] && IsInteger(n) {
      NumberLayout(n);
      assert t[begin..] == t[begin..|t|];
      DigitsAt(t, begin, |t|);
    }
  }

  /** kason_value_to_int64; `isNumber` is whether the value's type is NUMBER. */
  method ValueToInt64(isNumber: bool, t: Text) returns (r: Converted)
    ensures !isNumber ==> r == TypeError
    ensures isNumber ==> forall n | NumberOk(n) && PrintNumber(n) == t :: r == SignedValue(n)
    ensures isNumber && !IsNumberText(t) ==> r == RefusedText(t)
    ensures r.Value? ==> -MAX_INT64 - 1 <= r.value <= MAX_INT64
  {
    hide PrintNumber, NatOf, NumberOk, LeadingDigits, IsNumberText;
    if !isNumber {
      return TypeError;
    }
    var m, negative := IntegerMagnitude(t);
    if !m.Value? {
      return m;
    }
    var limit := if negative then MAX_INT64 + 1 else MAX_INT64;
    if m.value > limit {
      return RangeError;
    }
    return if negative then Value(-m.value) else m;
  }

  /** kason_value_to_int: additionally the range of a 32-bit int. */
  method ValueToInt(isNumber: bool, t: Text) returns (r: Converted)
    ensures !isNumber ==> r == TypeError
    ensures isNumber ==> forall n | NumberOk(n) && PrintNumber(n) == t ::
      r == if SignedValue(n).Value? && !(-0x8000_0000 <= SignedValue(n).value <= 0x7FFF_FFFF) then RangeError else SignedValue(n)
    ensures isNumber && !IsNumberText(t) ==> r == RefusedText(t)
    ensures r.Value? ==> -0x8000_0000 <= r.value <= 0x7FFF_FFFF
  {
    hide PrintNumber, SignedValue, NumberOk, LeadingDigits, IsNumberText;
    r := ValueToInt64(isNumber, t);
    if r.Value? && (r.value < -0x8000_0000 || r.value > 0x7FFF_FFFF) {
      return RangeError;
    }
  }

  /** kason_value_to_uint64. */
  method ValueToUint64(isNumber: bool, t: Text) returns (r: Converted)
    ensures !isNumber ==> r == TypeError
    ensures isNumber ==> forall n | NumberOk(n) && PrintNumber(n) == t :: r == UnsignedValue(n)
    ensures isNumber && !IsNumberText(t) ==> r == RefusedText(t)
    ensures r.Value? ==> 0 <= r.value <= MAX_UINT64
  {
    hide PrintNumber, NatOf, NumberOk, LeadingDigits, IsNumberText;
    if !isNumber {
      return TypeError;
    }
    var negative;
    r, negative := IntegerMagnitude(t);
    if r.Value? && negative {
      return RangeError;
    }
  }
}
