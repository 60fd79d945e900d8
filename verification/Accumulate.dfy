/** kason_number_accumulator: fed one byte at a time together with the state of the
    number automaton, it gives the same integers as the conversions of the text,
    and a decimal that is rounded at most by half a unit. */
module Accumulate {
  import opened Bytes
  import opened Number
  import opened Convert

  /** KaSON_CACHED_NUMBER_*. */
  datatype Target = NoTarget | Signed | Unsigned | Double

  /** The fields of the accumulator. */
  datatype Sum = Sum(
    target: Target, negative: bool, integerForm: bool, overflow: bool, magnitude: nat, significand: nat,
    fractionDigits: nat, droppedDigits: nat, explicitExponent: nat, significantDigits: nat,
    exponentNegative: bool, nonzero: bool, roundUp: bool)

  const SIGNIFICANT: nat := 19

  function Init(target: Target): Sum {
    Sum(target, false, true, false, 0, 0, 0, 0, 0, 0, false, false, false)
  }

  function Min(a: nat, b: nat): nat {
    if a < b then a else b
  }

  /** kason_number_accumulator_double_digit. */
  function DoubleDigit(s: Sum, digit: nat): Sum {
    if !s.nonzero && digit == 0 then s
    else if s.significantDigits < SIGNIFICANT then
      s.(nonzero := true, significand := s.significand * 10 + digit, significantDigits := s.significantDigits + 1)
    else
      s.(nonzero := true, roundUp := s.roundUp || (s.droppedDigits == 0 && digit >= 5),
        droppedDigits := if s.droppedDigits < CAP then s.droppedDigits + 1 else s.droppedDigits)
  }

  /** A digit of the integer part. */
  function IntegerDigit(s: Sum, digit: nat): Sum {
    if s.target == Signed || s.target == Unsigned then
      if s.magnitude * 10 + digit > MAX_UINT64 then s.(overflow := true) else s.(magnitude := s.magnitude * 10 + digit)
    else if s.target == Double then DoubleDigit(s, digit)
    else s
  }

  function FractionDigit(s: Sum, digit: nat): Sum {
    if s.target != Double then s
    else DoubleDigit(s.(fractionDigits := if s.fractionDigits < CAP then s.fractionDigits + 1 else s.fractionDigits), digit)
  }

  function ExponentDigit(s: Sum, digit: nat): Sum {
    if s.target == Double && s.explicitExponent < CAP then
      s.(explicitExponent := Min(CAP, s.explicitExponent * 10 + digit))
    else s
  }

  predicate BehindInteger(state: NumberState) {
    state == DecimalPoint || state == Fraction || state == ExponentMark || state == ExponentSign || state == ExponentDigits
  }

  /** kason_number_accumulator_feed. */
  function Fed(s: Sum, c: Byte, state: NumberState): Sum {
    if s.target == NoTarget then s
    else if state == Sign then s.(negative := true)
    else
      var s' := if BehindInteger(state) then s.(integerForm := false) else s;
      if state == ExponentSign then s'.(exponentNegative := c == MINUS)
      else if !IsDigit(c) then s'
      else if state == Zero || state == Integer then IntegerDigit(s', Digit(c))
      else if state == Fraction then FractionDigit(s', Digit(c))
      else if state == ExponentDigits then ExponentDigit(s', Digit(c))
      else s'
  }

  class Accumulator {
    var target: Target
    var negative: bool
    var integerForm: bool
    var overflow: bool
    var magnitude: nat
    var significand: nat
    var fractionDigits: nat
    var droppedDigits: nat
    var explicitExponent: nat
    var significantDigits: nat
    var exponentNegative: bool
    var nonzero: bool
    var roundUp: bool

    ghost function Abs(): Sum
      reads this
    {
      Sum(target, negative, integerForm, overflow, magnitude, significand, fractionDigits, droppedDigits,
        explicitExponent, significantDigits, exponentNegative, nonzero, roundUp)
    }

    /** No 64-bit field overflows. */
    ghost predicate Fits()
      reads this
    {
      magnitude <= MAX_UINT64 && significantDigits <= SIGNIFICANT && significand < Power(significantDigits) &&
      droppedDigits <= CAP && fractionDigits <= CAP && explicitExponent <= CAP
    }

    /** kason_number_accumulator_init. */
    constructor (target: Target)
      ensures Abs() == Init(target) && Fits()
    {
      this.target, negative, integerForm, overflow := target, false, true, false;
      magnitude, significand, fractionDigits, droppedDigits, explicitExponent, significantDigits := 0, 0, 0, 0, 0, 0;
      exponentNegative, nonzero, roundUp := false, false, false;
    }

    method AddDoubleDigit(digit: nat)
      requires digit <= 9 && Fits()
      modifies this
      ensures Abs() == DoubleDigit(old(Abs()), digit) && Fits()
    {
      PowerStep(significand, significantDigits, digit);
      hide Power;
      if !nonzero && digit == 0 {
        return;
      }
      nonzero := true;
      if significantDigits < SIGNIFICANT {
        significand := significand * 10 + digit;
        significantDigits := significantDigits + 1;
      } else {
        if droppedDigits == 0 && digit >= 5 {
          roundUp := true;
        }
        if droppedDigits < CAP {
          droppedDigits := droppedDigits + 1;
        }
      }
    }

    method Feed(c: Byte, state: NumberState)
      requires Fits()
      modifies this
      ensures Abs() == Fed(old(Abs()), c, state) && Fits()
    {
      if target == NoTarget {
        return;
      }
      if state == Sign {
        negative := true;
        return;
      }
      if BehindInteger(state) {
        integerForm := false;
      }
      if state == ExponentSign {
        exponentNegative := c == MINUS;
        return;
      }
      if !IsDigit(c) {
        return;
      }
      FeedDigit(Digit(c), state);
    }

    method FeedDigit(digit: nat, state: NumberState)
      requires digit <= 9 && Fits() && target != NoTarget
      modifies this
      ensures Fits()
      ensures Abs() ==
        var s := old(Abs());
        if state == Zero || state == Integer then IntegerDigit(s, digit)
        else if state == Fraction then FractionDigit(s, digit)
        else if state == ExponentDigits then ExponentDigit(s, digit)
        else s
    {
      hide DoubleDigit, Power;
      if state == Zero || state == Integer {
        if target == Signed || target == Unsigned {
          AddMagnitude(digit);
        } else if target == Double {
          AddDoubleDigit(digit);
        }
      } else if state == Fraction && target == Double {
        if fractionDigits < CAP {
          fractionDigits := fractionDigits + 1;
        }
        AddDoubleDigit(digit);
      } else if state == ExponentDigits && target == Double && explicitExponent < CAP {
        explicitExponent := explicitExponent * 10 + digit;
        if explicitExponent > CAP {
          explicitExponent := CAP;
        }
      }
    }

    method AddMagnitude(digit: nat)
      requires digit <= 9 && Fits() && (target == Signed || target == Unsigned)
      modifies this
      ensures Abs() == IntegerDigit(old(Abs()), digit) && Fits()
    {
      hide DoubleDigit, Power;
      if magnitude > (MAX_UINT64 - digit) / 10 {
        overflow := true;
      } else {
        magnitude := magnitude * 10 + digit;
      }
    }

    /** The integer part of kason_number_accumulator_finish. */
    method FinishInteger() returns (r: Converted)
      requires target == Signed || target == Unsigned
      ensures r == IntegerOf(Abs())
    {
      if overflow {
        return RangeError;
      }
      if !integerForm {
        return ConvertError;
      }
      if target == Unsigned {
        return if negative then RangeError else Value(magnitude);
      }
      var limit := if negative then MAX_INT64 + 1 else MAX_INT64;
      if magnitude > limit {
        return RangeError;
      }
      var m: int := magnitude;
      return Value(if negative then -m else m);
    }

    /** The normalisation in kason_number_accumulator_finish, up to the text that is
        handed to strtod. The significand still fits in 64 bits after rounding. */
    method FinishDecimal() returns (r: Decimal)
      requires Fits() && target == Double
      modifies this
      ensures r == DecimalOf(old(Abs()))
      ensures r.Decimal? ==> r.significand <= MAX_UINT64
    {
      PowerOf19();
      PowerGrows(significantDigits, SIGNIFICANT);
      if !nonzero {
        return NullDecimal(negative);
      }
      if roundUp {
        significand := significand + 1;
      }
      var exponent: int := explicitExponent;
      if exponentNegative {
        exponent := -exponent;
      }
      return Decimal(negative, significand, exponent - fractionDigits + droppedDigits);
    }
  }

  function IntegerOf(s: Sum): Converted {
    if s.overflow then RangeError
    else if !s.integerForm then ConvertError
    else if s.target == Unsigned then (if s.negative then RangeError else Value(s.magnitude))
    else
      var m: int := s.magnitude;
      if s.negative then (if m > MAX_INT64 + 1 then RangeError else Value(-m))
      else if m > MAX_INT64 then RangeError else Value(m)
  }

  /** A normalised decimal: significand times a power of ten. */
  datatype Decimal = NullDecimal(negative: bool) | Decimal(negative: bool, significand: nat, exponent: int)

  function DecimalOf(s: Sum): Decimal {
    if !s.nonzero then NullDecimal(s.negative)
    else
      var e: int := s.explicitExponent;
      Decimal(s.negative, if s.roundUp then s.significand + 1 else s.significand,
        (if s.exponentNegative then -e else e) - s.fractionDigits + s.droppedDigits)
  }

  /** Powers of ten. */
  function Power(k: nat): (p: nat)
    ensures p >= 1
  {
    if k == 0 then 1 else Power(k - 1) * 10
  }

  lemma PowerStep(a: nat, k: nat, digit: nat)
    requires digit <= 9
    ensures a < Power(k) ==> a * 10 + digit < Power(k + 1)
  {
  }

  lemma {:induction false} PowerGrows(j: nat, k: nat)
    requires j <= k
    ensures Power(j) <= Power(k)
    decreases k
  {
    if j < k {
      PowerGrows(j, k - 1);
    }
  }

  lemma PowerOf19()
    ensures Power(19) == 10000000000000000000
  {
    assert Power(5) == 100000;
    assert Power(10) == 10000000000;
    assert Power(15) == 1000000000000000;
  }

  /** The accumulator run over the text from `i` on, in the automaton's `state`. */
  function RunFed(s: Sum, state: NumberState, t: Text, i: nat): Sum
    decreases |t| - i
  {
    if i >= |t| then s
    else RunFed(Fed(s, t[i], NumberNext(state, t[i])), NumberNext(state, t[i]), t, i + 1)
  }

  /** Feeding a whole number byte by byte with the states of the automaton. */
  method AccumulateText(t: Text, target: Target) returns (acc: Accumulator, state: NumberState)
    ensures fresh(acc) && acc.Fits() && acc.Abs() == RunFed(Init(target), Start, t, 0)
    ensures state == RunNumber(Start, t, 0)
  {
    hide Fed, NumberNext;
    acc := new Accumulator(target);
    state := Start;
    for i := 0 to |t|
      invariant acc.Fits() && fresh(acc)
      invariant RunFed(acc.Abs(), state, t, i) == RunFed(Init(target), Start, t, 0)
      invariant RunNumber(state, t, i) == RunNumber(Start, t, 0)
    {
      state := NumberNext(state, t[i]);
      acc.Feed(t[i], state);
    }
  }

  // ------------------------------------------ the parts of a number in turn

  function IntegerDigits(s: Sum, d: Text): Sum
    requires AllDigits(d)
  {
    if d == [] then s else IntegerDigit(IntegerDigits(s, d[..|d| - 1]), Digit(d[|d| - 1]))
  }

  function FractionDigits(s: Sum, d: Text): Sum
    requires AllDigits(d)
  {
    if d == [] then s else FractionDigit(FractionDigits(s, d[..|d| - 1]), Digit(d[|d| - 1]))
  }

  function ExponentDigitsOf(s: Sum, d: Text): Sum
    requires AllDigits(d)
  {
    if d == [] then s else ExponentDigit(ExponentDigitsOf(s, d[..|d| - 1]), Digit(d[|d| - 1]))
  }

  /** The accumulator after the text of `n`. */
  function SumOf(n: Number, target: Target): Sum
    requires NumberOk(n)
  {
    var a := IntegerDigits(Init(target).(negative := n.negative), n.integer);
    var b := if n.frac == [] then a else FractionDigits(a.(integerForm := false), n.frac);
    match n.exponent
    case NoExponent => b
    case Exponent(_, sign, d) =>
      ExponentDigitsOf(b.(integerForm := false, exponentNegative := sign == [MINUS]), d)
  }

  lemma SliceSnoc(t: Text, i: nat, j: nat)
    requires i < j <= |t|
    ensures t[i..j][..j - i - 1] == t[i..j - 1] && t[i..j][j - i - 1] == t[j - 1]
  {
  }

  lemma PrefixDigits(t: Text, i: nat, j: nat)
    requires i < j <= |t| && AllDigits(t[i..j])
    ensures AllDigits(t[i..j - 1]) && IsDigit(t[j - 1])
  {
    SliceSnoc(t, i, j);
    DigitsAt(t, i, j);
  }

  lemma RunStep(s: Sum, state: NumberState, t: Text, i: nat, s': Sum, state': NumberState)
    requires i < |t| && NumberNext(state, t[i]) == state' && Fed(s, t[i], state') == s'
    ensures RunFed(s, state, t, i) == RunFed(s', state', t, i + 1)
  {
    hide Fed, NumberNext;
  }

  lemma IntegerStep(s: Sum, state: NumberState, c: Byte)
    requires IsDigit(c) && s.target != NoTarget && (state == Start || state == Sign || state == Integer)
    ensures var next := if state != Integer && c == ZERO then Zero else Integer;
      NumberNext(state, c) == next && Fed(s, c, next) == IntegerDigit(s, Digit(c))
    ensures IntegerDigit(s, Digit(c)).target == s.target && IntegerDigit(s, Digit(c)).exponentNegative == s.exponentNegative
  {
  }

  lemma FractionStep(s: Sum, state: NumberState, c: Byte)
    requires IsDigit(c) && s.target != NoTarget && !s.integerForm && (state == DecimalPoint || state == Fraction)
    ensures NumberNext(state, c) == Fraction && Fed(s, c, Fraction) == FractionDigit(s, Digit(c))
    ensures var r := FractionDigit(s, Digit(c));
      r.target == s.target && !r.integerForm && r.exponentNegative == s.exponentNegative
  {
  }

  lemma ExponentStep(s: Sum, state: NumberState, c: Byte)
    requires IsDigit(c) && s.target != NoTarget && !s.integerForm
    requires state == ExponentMark || state == ExponentSign || state == ExponentDigits
    ensures NumberNext(state, c) == ExponentDigits && Fed(s, c, ExponentDigits) == ExponentDigit(s, Digit(c))
    ensures ExponentDigit(s, Digit(c)).target == s.target && !ExponentDigit(s, Digit(c)).integerForm
  {
  }

  /** One more digit at the end of a run. */
  lemma IntegerSnoc(s: Sum, t: Text, i: nat, j: nat)
    requires i < j <= |t| && AllDigits(t[i..j])
    ensures AllDigits(t[i..j - 1]) && IsDigit(t[j - 1])
    ensures IntegerDigits(s, t[i..j]) == IntegerDigit(IntegerDigits(s, t[i..j - 1]), Digit(t[j - 1]))
    ensures FractionDigits(s, t[i..j]) == FractionDigit(FractionDigits(s, t[i..j - 1]), Digit(t[j - 1]))
    ensures ExponentDigitsOf(s, t[i..j]) == ExponentDigit(ExponentDigitsOf(s, t[i..j - 1]), Digit(t[j - 1]))
    ensures j == i + 1 ==>
      IntegerDigits(s, t[i..j - 1]) == s && FractionDigits(s, t[i..j - 1]) == s && ExponentDigitsOf(s, t[i..j - 1]) == s
  {
    hide IntegerDigit, FractionDigit, ExponentDigit;
    SliceSnoc(t, i, j);
    PrefixDigits(t, i, j);
  }

  lemma {:induction false} IntegerRun(s: Sum, state: NumberState, t: Text, i: nat, j: nat)
    requires i < j <= |t| && AllDigits(t[i..j]) && (state == Start || state == Sign) && s.target != NoTarget
    requires t[i] == ZERO ==> j == i + 1
    ensures RunFed(s, state, t, i) ==
      RunFed(IntegerDigits(s, t[i..j]), if t[i] == ZERO then Zero else Integer, t, j)
    ensures var r := IntegerDigits(s, t[i..j]); r.target == s.target && r.exponentNegative == s.exponentNegative
    decreases j
  {
    hide IntegerDigits, IntegerDigit, RunFed, Fed, NumberNext, AllDigits;
    IntegerSnoc(s, t, i, j);
    var front, last := IntegerDigits(s, t[i..j - 1]), t[j - 1];
    if j > i + 1 {
      IntegerRun(s, state, t, i, j - 1);
      IntegerStep(front, Integer, last);
      RunStep(front, Integer, t, j - 1, IntegerDigit(front, Digit(last)), Integer);
    } else {
      IntegerStep(s, state, last);
      RunStep(s, state, t, i, IntegerDigit(s, Digit(last)), if last == ZERO then Zero else Integer);
    }
  }

  lemma {:induction false} FractionRun(s: Sum, t: Text, i: nat, j: nat)
    requires i < j <= |t| && AllDigits(t[i..j]) && s.target != NoTarget && !s.integerForm
    ensures RunFed(s, DecimalPoint, t, i) == RunFed(FractionDigits(s, t[i..j]), Fraction, t, j)
    ensures var r := FractionDigits(s, t[i..j]);
      r.target == s.target && !r.integerForm && r.exponentNegative == s.exponentNegative
    decreases j
  {
    hide FractionDigits, FractionDigit, RunFed, Fed, NumberNext, AllDigits, IntegerDigits, IntegerDigit, ExponentDigitsOf, ExponentDigit,
      DoubleDigit, Digit;
    IntegerSnoc(s, t, i, j);
    var front, last := FractionDigits(s, t[i..j - 1]), t[j - 1];
    var state := if j > i + 1 then Fraction else DecimalPoint;
    if j > i + 1 {
      FractionRun(s, t, i, j - 1);
    }
    FractionStep(front, state, last);
    RunStep(front, state, t, j - 1, FractionDigit(front, Digit(last)), Fraction);
  }

  lemma {:induction false} ExponentRun(s: Sum, state: NumberState, t: Text, i: nat, j: nat)
    requires i < j <= |t| && AllDigits(t[i..j]) && s.target != NoTarget && !s.integerForm
    requires state == ExponentMark || state == ExponentSign
    ensures RunFed(s, state, t, i) == RunFed(ExponentDigitsOf(s, t[i..j]), ExponentDigits, t, j)
    ensures ExponentDigitsOf(s, t[i..j]).target == s.target && !ExponentDigitsOf(s, t[i..j]).integerForm
    decreases j
  {
    hide ExponentDigitsOf, ExponentDigit, RunFed, Fed, NumberNext, AllDigits, IntegerDigits, IntegerDigit, FractionDigits, FractionDigit,
      DoubleDigit, Digit;
    IntegerSnoc(s, t, i, j);
    var front, last := ExponentDigitsOf(s, t[i..j - 1]), t[j - 1];
    var before := if j > i + 1 then ExponentDigits else state;
    if j > i + 1 {
      ExponentRun(s, state, t, i, j - 1);
    }
    ExponentStep(front, before, last);
    RunStep(front, before, t, j - 1, ExponentDigit(front, Digit(last)), ExponentDigits);
  }

  lemma Layout(sign: Text, digits: Text, frac: Text, exponent: Text)
    ensures var t, a := sign + (digits + (frac + exponent)), |sign|;
      var b := a + |digits|;
      var c := b + |frac|;
      |t| == c + |exponent| && t[a..b] == digits && t[b..c] == frac && t[c..|t|] == exponent &&
      (sign != [] ==> t[0] == sign[0])
  {
  }

  lemma SliceTail(t: Text, i: nat, j: nat, c: Byte, rest: Text)
    requires i < j <= |t| && t[i..j] == [c] + rest
    ensures t[i] == c && t[i + 1..j] == rest
  {
    assert t[i] == t[i..j][0];
    assert t[i + 1..j] == t[i..j][1..];
  }

  /** Feeding the text of a number gives the sum of its parts. */
  lemma RunIsSum(n: Number, target: Target)
    requires NumberOk(n) && target != NoTarget
    ensures RunFed(Init(target), Start, PrintNumber(n), 0) == SumOf(n, target)
  {
    hide IntegerDigits, FractionDigits, ExponentDigitsOf, AllDigits, RunFed, Fed, NumberNext;
    var t, a := PrintNumber(n), |PrintSign(n.negative)|;
    var b := a + |n.integer|;
    var c := b + |PrintFrac(n.frac)|;
    Layout(PrintSign(n.negative), n.integer, PrintFrac(n.frac), PrintExponent(n.exponent));
    var s0 := Init(target).(negative := n.negative);
    if n.negative {
      MinusStep(target);
      RunStep(Init(target), Start, t, 0, s0, Sign);
    }
    assert t[a] == n.integer[0] by {
      assert t[a] == t[a..b][0];
    }
    IntegerRun(s0, if n.negative then Sign else Start, t, a, b);
    var s1 := IntegerDigits(s0, n.integer);
    var state := if n.integer[0] == ZERO then Zero else Integer;
    FractionPart(n, s1, state, t, b, c);
    var s2 := if n.frac == [] then s1 else FractionDigits(s1.(integerForm := false), n.frac);
    ExponentPart(n, s2, if n.frac == [] then state else Fraction, t, c);
  }

  lemma MinusStep(target: Target)
    requires target != NoTarget
    ensures NumberNext(Start, MINUS) == Sign && Fed(Init(target), MINUS, Sign) == Init(target).(negative := true)
  {
  }

  lemma FractionPart(n: Number, s: Sum, state: NumberState, t: Text, b: nat, c: nat)
    requires NumberOk(n) && s.target != NoTarget && b <= c <= |t| && (state == Zero || state == Integer)
    requires t[b..c] == PrintFrac(n.frac)
    ensures var s' := if n.frac == [] then s else FractionDigits(s.(integerForm := false), n.frac);
      s'.target != NoTarget && s'.exponentNegative == s.exponentNegative && RunFed(s, state, t, b) == RunFed(s', if n.frac == [] then state else Fraction, t, c)
  {
    hide FractionDigits, AllDigits, RunFed;
    if n.frac != [] {
      SliceTail(t, b, c, DOT, n.frac);
      RunStep(s, state, t, b, s.(integerForm := false), DecimalPoint);
      FractionRun(s.(integerForm := false), t, b + 1, c);
    }
  }

  lemma ExponentPart(n: Number, s: Sum, state: NumberState, t: Text, c: nat)
    requires NumberOk(n) && s.target != NoTarget && !s.exponentNegative && c <= |t|
    requires state == Zero || state == Integer || state == Fraction
    requires t[c..|t|] == PrintExponent(n.exponent)
    ensures n.exponent.NoExponent? ==> RunFed(s, state, t, c) == s
    ensures n.exponent.Exponent? ==>
      RunFed(s, state, t, c) ==
        ExponentDigitsOf(s.(integerForm := false, exponentNegative := n.exponent.sign == [MINUS]), n.exponent.digits)
  {
    hide ExponentDigitsOf, AllDigits;
    if n.exponent.Exponent? {
      var sign, d := n.exponent.sign, n.exponent.digits;
      var s1 := s.(integerForm := false);
      assert [n.exponent.mark] + sign + d == [n.exponent.mark] + (sign + d);
      SliceTail(t, c, |t|, n.exponent.mark, sign + d);
      RunStep(s, state, t, c, s1, ExponentMark);
      SignPart(s1, t, c + 1, sign, d);
    }
  }

  lemma SignPart(s: Sum, t: Text, i: nat, sign: Text, d: Text)
    requires s.target != NoTarget && !s.exponentNegative && !s.integerForm && i <= |t| && t[i..|t|] == sign + d
    requires AllDigits(d) && d != [] && (sign == [] || (|sign| == 1 && IsExponentSign(sign[0])))
    ensures RunFed(s, ExponentMark, t, i) == ExponentDigitsOf(s.(exponentNegative := sign == [MINUS]), d)
  {
    hide ExponentDigitsOf, AllDigits, RunFed;
    if sign == [] {
      assert sign + d == d;
      ExponentRun(s, ExponentMark, t, i, |t|);
      RunEnd(ExponentDigitsOf(s, d), ExponentDigits, t);
    } else {
      assert sign + d == [sign[0]] + d;
      SliceTail(t, i, |t|, sign[0], d);
      var s' := s.(exponentNegative := sign == [MINUS]);
      RunStep(s, ExponentMark, t, i, s', ExponentSign);
      ExponentRun(s', ExponentSign, t, i + 1, |t|);
      RunEnd(ExponentDigitsOf(s', d), ExponentDigits, t);
    }
  }

  lemma RunEnd(s: Sum, state: NumberState, t: Text)
    ensures RunFed(s, state, t, |t|) == s
  {
  }
}
