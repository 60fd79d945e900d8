/** What the accumulator's sum is worth: the exact integer outcomes, and the error
    bound of the normalised decimal. */
module Decimals {
  import opened Bytes
  import opened Number
  import opened Convert
  import opened Accumulate

  // --------------------------------------------------------------- integers

  lemma NatOfFront(d: Text)
    requires AllDigits(d) && d != []
    ensures AllDigits(d[..|d| - 1]) && IsDigit(d[|d| - 1])
    ensures NatOf(d) == NatOf(d[..|d| - 1]) * 10 + Digit(d[|d| - 1])
  {
  }

  lemma {:induction false} IntegerDigitsValue(s: Sum, d: Text)
    requires AllDigits(d) && (s.target == Signed || s.target == Unsigned) && s.magnitude == 0 && !s.overflow
    ensures var r := IntegerDigits(s, d);
      r == s.(magnitude := r.magnitude, overflow := r.overflow) &&
      (r.overflow <==> NatOf(d) > MAX_UINT64) && (!r.overflow ==> r.magnitude == NatOf(d))
    decreases |d|
  {
    if d != [] {
      NatOfFront(d);
      IntegerDigitsValue(s, d[..|d| - 1]);
    }
  }

  lemma {:induction false} FractionIgnored(s: Sum, d: Text)
    requires AllDigits(d) && s.target != Double
    ensures FractionDigits(s, d) == s
    decreases |d|
  {
    if d != [] {
      NatOfFront(d);
      FractionIgnored(s, d[..|d| - 1]);
    }
  }

  lemma {:induction false} ExponentIgnored(s: Sum, d: Text)
    requires AllDigits(d) && s.target != Double
    ensures ExponentDigitsOf(s, d) == s
    decreases |d|
  {
    if d != [] {
      NatOfFront(d);
      ExponentIgnored(s, d[..|d| - 1]);
    }
  }

  /** The online integers are those of the text conversions. */
  lemma IntegerOfSum(n: Number, target: Target)
    requires NumberOk(n) && (target == Signed || target == Unsigned)
    ensures IntegerOf(SumOf(n, target)) == if target == Signed then SignedValue(n) else UnsignedValue(n)
  {
    hide NatOf, IntegerDigits, FractionDigits, ExponentDigitsOf, AllDigits;
    var s := Init(target).(negative := n.negative);
    IntegerDigitsValue(s, n.integer);
    var a := IntegerDigits(s, n.integer);
    FractionIgnored(a.(integerForm := false), n.frac);
    if n.exponent.Exponent? {
      var b := if n.frac == [] then a else a.(integerForm := false);
      ExponentIgnored(b.(integerForm := false, exponentNegative := n.exponent.sign == [MINUS]), n.exponent.digits);
    }
  }

  /** A number parsed with a cached integer target gets the outcome that the
      conversion of its text gives, range errors before format errors. */
  method AccumulatorAgrees(t: Text, target: Target) returns (online: Converted, direct: Converted, state: NumberState)
    requires target == Signed || target == Unsigned
    ensures NumberComplete(state) <==> IsNumberText(t)
    ensures IsNumberText(t) ==> online == direct
  {
    hide PrintNumber, SumOf, RunFed, IntegerOf, SignedValue, UnsignedValue, NumberOk, RunNumber;
    var acc;
    acc, state := AccumulateText(t, target);
    AutomatonIffNumber(t);
    TargetKept(target, Start, t, 0, Init(target));
    online := acc.FinishInteger();
    if target == Signed {
      direct := ValueToInt64(true, t);
    } else {
      direct := ValueToUint64(true, t);
    }
    forall n | NumberOk(n) && PrintNumber(n) == t
      ensures online == if target == Signed then SignedValue(n) else UnsignedValue(n)
    {
      RunIsSum(n, target);
      IntegerOfSum(n, target);
    }
  }

  lemma {:induction false} TargetKept(target: Target, state: NumberState, t: Text, i: nat, s: Sum)
    requires s.target == target
    ensures RunFed(s, state, t, i).target == target
    decreases |t| - i
  {
    hide Fed, NumberNext;
    if i < |t| {
      var next := NumberNext(state, t[i]);
      FedTarget(s, t[i], next);
      TargetKept(target, next, t, i + 1, Fed(s, t[i], next));
    }
  }

  lemma FedTarget(s: Sum, c: Byte, state: NumberState)
    ensures Fed(s, c, state).target == s.target
  {
    hide IntegerDigit, FractionDigit, ExponentDigit;
    var s' := if BehindInteger(state) then s.(integerForm := false) else s;
    if IsDigit(c) {
      DigitTargets(s', Digit(c));
    }
  }

  lemma DigitTargets(s: Sum, digit: nat)
    ensures IntegerDigit(s, digit).target == s.target
    ensures FractionDigit(s, digit).target == s.target
    ensures ExponentDigit(s, digit).target == s.target
  {
  }

  // --------------------------------------------------------------- decimals

  /** The digits without leading zeros. */
  function Stripped(d: Text): (r: Text)
    requires AllDigits(d)
    ensures AllDigits(r) && |r| <= |d|
  {
    if d == [] then []
    else
      var front := Stripped(d[..|d| - 1]);
      if front == [] && d[|d| - 1] == ZERO then [] else front + [d[|d| - 1]]
  }

  lemma {:induction false} StrippedValue(d: Text)
    requires AllDigits(d)
    ensures NatOf(Stripped(d)) == NatOf(d)
    ensures Stripped(d) == [] <==> NatOf(d) == 0
    ensures Stripped(d) != [] ==> Stripped(d)[0] != ZERO
    decreases |d|
  {
    if d != [] {
      NatOfFront(d);
      var front := d[..|d| - 1];
      StrippedValue(front);
      if !(Stripped(front) == [] && d[|d| - 1] == ZERO) {
        NatOfSnoc(Stripped(front), d[|d| - 1]);
      }
    }
  }

  /** The decimal fields after the significant digits `r`. */
  predicate Holds(s: Sum, r: Text)
    requires AllDigits(r)
  {
    var m := Min(SIGNIFICANT, |r|);
    (s.nonzero <==> r != []) && s.significantDigits == m && s.significand == NatOf(r[..m]) &&
    s.droppedDigits == Min(CAP, |r| - m) && (s.roundUp <==> |r| > SIGNIFICANT && Digit(r[SIGNIFICANT]) >= 5)
  }

  lemma DigitHeld(s: Sum, r: Text, c: Byte)
    requires AllDigits(r) && IsDigit(c) && Holds(s, r)
    ensures var r' := if r == [] && c == ZERO then [] else r + [c];
      AllDigits(r') && Holds(DoubleDigit(s, Digit(c)), r')
  {
    hide NatOf;
    NatOfSnoc(r, c);
    if !(r == [] && c == ZERO) {
      var r' := r + [c];
      if |r| < SIGNIFICANT {
        assert r[..|r|] == r && r'[..|r'|] == r';
      } else {
        assert r'[..SIGNIFICANT] == r[..SIGNIFICANT];
      }
    }
  }

  lemma StrippedNothing()
    ensures Stripped([]) == []
  {
  }

  lemma StrippedSnoc(d: Text, c: Byte)
    requires AllDigits(d) && IsDigit(c)
    ensures AllDigits(d + [c])
    ensures Stripped(d + [c]) == if Stripped(d) == [] && c == ZERO then [] else Stripped(d) + [c]
  {
    assert (d + [c])[..|d|] == d;
  }

  lemma {:induction false} IntegerHeld(s: Sum, d: Text)
    requires AllDigits(d) && s.target == Double && Holds(s, [])
    ensures var r := IntegerDigits(s, d);
      Holds(r, Stripped(d)) && r.target == Double && r.fractionDigits == s.fractionDigits &&
      r.explicitExponent == s.explicitExponent && r.negative == s.negative && r.exponentNegative == s.exponentNegative
    decreases |d|
  {
    hide Holds, Stripped, NatOf, DoubleDigit;
    StrippedNothing();
    if d != [] {
      var front, c := d[..|d| - 1], d[|d| - 1];
      NatOfFront(d);
      IntegerHeld(s, front);
      DoubleDigitKeeps(IntegerDigits(s, front), Digit(c));
      DigitHeld(IntegerDigits(s, front), Stripped(front), c);
      assert d == front + [c];
      StrippedSnoc(front, c);
    }
  }

  lemma {:induction false} FractionHeld(s: Sum, before: Text, d: Text)
    requires AllDigits(before) && AllDigits(d) && s.target == Double && Holds(s, Stripped(before)) && s.fractionDigits == 0
    ensures AllDigits(before + d)
    ensures var r := FractionDigits(s, d);
      Holds(r, Stripped(before + d)) && r.target == Double && r.fractionDigits == Min(CAP, |d|) &&
      r.explicitExponent == s.explicitExponent && r.negative == s.negative && r.exponentNegative == s.exponentNegative
    decreases |d|
  {
    hide Stripped, Holds, FractionDigit, DoubleDigit;
    if d == [] {
      assert before + d == before;
    } else {
      var front, c := d[..|d| - 1], d[|d| - 1];
      NatOfFront(d);
      FractionHeld(s, before, front);
      FractionDigitHeld(FractionDigits(s, front), before + front, |front|, c);
      assert before + d == (before + front) + [c];
    }
  }

  lemma FractionDigitHeld(s: Sum, all: Text, count: nat, c: Byte)
    requires AllDigits(all) && IsDigit(c) && s.target == Double && Holds(s, Stripped(all)) && s.fractionDigits == Min(CAP, count)
    ensures AllDigits(all + [c])
    ensures var r := FractionDigit(s, Digit(c));
      Holds(r, Stripped(all + [c])) && r.target == Double && r.fractionDigits == Min(CAP, count + 1) &&
      r.explicitExponent == s.explicitExponent && r.negative == s.negative && r.exponentNegative == s.exponentNegative
  {
    hide Stripped, DoubleDigit;
    var longer := s.(fractionDigits := if s.fractionDigits < CAP then s.fractionDigits + 1 else s.fractionDigits);
    DigitHeld(longer, Stripped(all), c);
    StrippedSnoc(all, c);
    DoubleDigitKeeps(longer, Digit(c));
  }

  lemma DoubleDigitKeeps(s: Sum, digit: nat)
    ensures var r := DoubleDigit(s, digit);
      r.target == s.target && r.fractionDigits == s.fractionDigits && r.explicitExponent == s.explicitExponent &&
      r.negative == s.negative && r.exponentNegative == s.exponentNegative
  {
  }

  lemma {:induction false} ExponentHeld(s: Sum, d: Text)
    requires AllDigits(d) && s.target == Double && s.explicitExponent == 0
    ensures ExponentDigitsOf(s, d) == s.(explicitExponent := Min(CAP, NatOf(d)))
    decreases |d|
  {
    if d != [] {
      NatOfFront(d);
      ExponentHeld(s, d[..|d| - 1]);
    }
  }

  function SignificantDigits(n: Number): (r: Text)
    requires NumberOk(n)
    ensures AllDigits(r)
  {
    Stripped(n.integer + n.frac)
  }

  /** How many digits do not fit in the significand. */
  function Excess(r: Text): nat {
    if |r| <= SIGNIFICANT then 0 else |r| - SIGNIFICANT
  }

  function ExponentOf(n: Number): int
    requires NumberOk(n)
  {
    match n.exponent
    case NoExponent => 0
    case Exponent(_, sign, d) =>
      var e: int := NatOf(d);
      if sign == [MINUS] then -e else e
  }

  /** Within the caps that the accumulator puts on its counters. */
  predicate WithinCaps(n: Number)
    requires NumberOk(n)
  {
    |n.frac| <= CAP && Excess(SignificantDigits(n)) <= CAP && ExponentOf(n) <= CAP && ExponentOf(n) + CAP >= 0
  }

  /** The decimal of a number: its first significant digits, rounded by the next one. */
  lemma DecimalOfSum(n: Number)
    requires NumberOk(n) && WithinCaps(n)
    ensures var r := SignificantDigits(n);
      DecimalOf(SumOf(n, Double)) ==
        if r == [] then NullDecimal(n.negative)
        else
          var m := Min(SIGNIFICANT, |r|);
          var up := |r| > SIGNIFICANT && Digit(r[SIGNIFICANT]) >= 5;
          Decimal(n.negative, NatOf(r[..m]) + (if up then 1 else 0), ExponentOf(n) - |n.frac| + Excess(r))
  {
    hide NatOf, IntegerDigits, FractionDigits, ExponentDigitsOf, AllDigits, Stripped;
    var s := Init(Double).(negative := n.negative);
    NothingHeld(s);
    IntegerHeld(s, n.integer);
    var a := IntegerDigits(s, n.integer);
    var b := if n.frac == [] then a else FractionDigits(a.(integerForm := false), n.frac);
    FractionHeld(a.(integerForm := false), n.integer, n.frac);
    if n.frac == [] {
      assert n.integer + n.frac == n.integer;
    }
    if n.exponent.Exponent? {
      ExponentHeld(b.(integerForm := false, exponentNegative := n.exponent.sign == [MINUS]), n.exponent.digits);
    }
  }

  lemma NothingHeld(s: Sum)
    requires !s.nonzero && s.significantDigits == 0 && s.significand == 0 && s.droppedDigits == 0 && !s.roundUp
    ensures AllDigits([]) && Holds(s, [])
  {
  }

  // -------------------------------------------------------- the error bound

  lemma {:induction false} NatOfConcat(a: Text, b: Text)
    requires AllDigits(a) && AllDigits(b)
    ensures AllDigits(a + b) && NatOf(a + b) == NatOf(a) * Power(|b|) + NatOf(b)
    decreases |b|
  {
    hide NatOf, Power, AllDigits;
    PowerNext(|b|);
    if b == [] {
      assert a + b == a;
      NatOfNothing(b);
    } else {
      var front, c := b[..|b| - 1], b[|b| - 1];
      NatOfFront(b);
      NatOfConcat(a, front);
      assert a + b == (a + front) + [c];
      NatOfSnoc(a + front, c);
      ScaledByTen(NatOf(a), Power(|front|), NatOf(front));
    }
  }

  lemma NatOfNothing(d: Text)
    requires d == []
    ensures AllDigits(d) && NatOf(d) == 0
  {
  }

  lemma PowerNext(k: nat)
    ensures Power(k) == if k == 0 then 1 else Power(k - 1) * 10
  {
  }

  lemma ScaledByTen(a: nat, p: nat, b: nat)
    ensures a * (p * 10) + b * 10 == (a * p + b) * 10
  {
  }

  lemma {:induction false} NatOfBound(d: Text)
    requires AllDigits(d)
    ensures NatOf(d) < Power(|d|)
    decreases |d|
  {
    if d != [] {
      NatOfFront(d);
      NatOfBound(d[..|d| - 1]);
    }
  }

  /** The dropped digits are at least half a unit exactly when the first is at least five. */
  lemma FirstDropped(d: Text)
    requires AllDigits(d) && d != []
    ensures NatOf(d) < Power(|d|)
    ensures Digit(d[0]) >= 5 ==> 2 * NatOf(d) >= Power(|d|)
    ensures Digit(d[0]) < 5 ==> 2 * NatOf(d) <= Power(|d|)
  {
    var rest := d[1..];
    assert d == [d[0]] + rest;
    NatOfConcat([d[0]], rest);
    NatOfBound(rest);
    NatOfBound(d);
    OneDigit(d[0]);
    var f, p := Digit(d[0]), Power(|rest|);
    if f >= 5 {
      Monotone(5, f, p);
    } else {
      Monotone(f, 4, p);
    }
  }

  lemma OneDigit(c: Byte)
    requires IsDigit(c)
    ensures AllDigits([c]) && NatOf([c]) == Digit(c)
  {
    assert [c][..0] == [];
  }

  lemma Monotone(a: nat, b: nat, p: nat)
    requires a <= b
    ensures a * p <= b * p
  {
  }

  /** The normalised decimal differs from the number by at most half a unit of its
      last place, is exact up to 19 significant digits, and its significand stays
      below 2^64 after rounding. The number is NatOf(integer digits, fraction digits)
      times ten to the power of ExponentOf(n) - |n.frac|. */
  lemma DecimalBound(n: Number)
    requires NumberOk(n) && WithinCaps(n)
    ensures AllDigits(n.integer + n.frac)
    ensures var exact, r := NatOf(n.integer + n.frac), DecimalOf(SumOf(n, Double));
      (r.NullDecimal? <==> exact == 0) &&
      (r.Decimal? ==>
        var dropped := r.exponent - (ExponentOf(n) - |n.frac|);
        dropped == Excess(SignificantDigits(n)) &&
        2 * r.significand * Power(dropped) - 2 * exact <= Power(dropped) &&
        2 * exact - 2 * r.significand * Power(dropped) <= Power(dropped) &&
        (|SignificantDigits(n)| <= SIGNIFICANT ==> dropped == 0 && r.significand == exact) &&
        r.significand <= 10000000000000000000 && r.significand <= MAX_UINT64)
  {
    hide NatOf, SumOf, DecimalOf, Stripped;
    DecimalOfSum(n);
    var r := SignificantDigits(n);
    StrippedValue(n.integer + n.frac);
    PowerOf19();
    if r != [] {
      if |r| <= SIGNIFICANT {
        assert r[..|r|] == r;
        NatOfBound(r);
        PowerGrows(|r|, SIGNIFICANT);
        SmallPower();
      } else {
        RoundedBound(r);
      }
    }
  }

  lemma SmallPower()
    ensures Power(0) == 1
  {
  }

  lemma RoundedBound(r: Text)
    requires AllDigits(r) && |r| > SIGNIFICANT
    ensures AllDigits(r[..SIGNIFICANT])
    ensures var up := if Digit(r[SIGNIFICANT]) >= 5 then 1 else 0;
      var significand, unit := NatOf(r[..SIGNIFICANT]) + up, Power(|r| - SIGNIFICANT);
      2 * significand * unit - 2 * NatOf(r) <= unit && 2 * NatOf(r) - 2 * significand * unit <= unit &&
      significand <= 10000000000000000000
  {
    hide NatOf, Power;
    var a, b := r[..SIGNIFICANT], r[SIGNIFICANT..];
    assert r == a + b;
    NatOfConcat(a, b);
    NatOfBound(a);
    PowerOf19();
    FirstDropped(b);
    var unit := Power(|b|);
    var up := if Digit(r[SIGNIFICANT]) >= 5 then 1 else 0;
    assert b[0] == r[SIGNIFICANT];
    Distributes(NatOf(a), up, unit);
  }

  lemma Distributes(a: nat, up: nat, unit: nat)
    requires up <= 1
    ensures 2 * (a + up) * unit == 2 * (a * unit) + 2 * up * unit
  {
  }

  /** In its three looping states the automaton stays where it is on a digit. */
  lemma DigitStays(state: NumberState, c: Byte)
    requires IsDigit(c) && (state == Integer || state == Fraction || state == ExponentDigits)
    ensures NumberNext(state, c) == state
  {
  }

  lemma FirstState(t: Text)
    requires t != []
    ensures RunNumber(Start, t, 0) == RunNumber(NumberBegin(t[0]), t, 1)
    ensures RunFed(Init(Double), Start, t, 0) == RunFed(Fed(Init(Double), t[0], NumberBegin(t[0])), NumberBegin(t[0]), t, 1)
  {
    hide Fed;
    assert NumberNext(Start, t[0]) == NumberBegin(t[0]);
  }

  lemma NextState(s: Sum, state: NumberState, t: Text, k: nat)
    requires k < |t|
    ensures var next := NumberNext(state, t[k]);
      RunNumber(state, t, k) == RunNumber(next, t, k + 1) && RunFed(s, state, t, k) == RunFed(Fed(s, t[k], next), next, t, k + 1)
  {
    hide Fed, NumberNext;
  }

  /** kason_value_to_double up to the text that is handed to strtod. In the looping
      states a digit is fed without asking the automaton. */
  method ToDecimal(t: Text) returns (valid: bool, r: Decimal)
    ensures valid <==> IsNumberText(t)
    ensures valid ==> forall n | NumberOk(n) && PrintNumber(n) == t :: r == DecimalOf(SumOf(n, Double))
    ensures r.Decimal? ==> r.significand <= MAX_UINT64
  {
    hide PrintNumber, SumOf, RunFed, DecimalOf, NumberOk, RunNumber, Fed, NumberNext, NumberBegin, IsNumberText;
    AutomatonIffNumber(t);
    valid, r := false, NullDecimal(false);
    if t == [] {
      RunsOut(Init(Double), Start, t);
      return;
    }
    FirstState(t);
    var state := NumberBegin(t[0]);
    if state == Invalid {
      InvalidStays(t, 1);
      return;
    }
    var acc := new Accumulator(Double);
    acc.Feed(t[0], state);
    var k := 1;
    while k < |t|
      invariant 1 <= k <= |t| && fresh(acc) && acc.Fits()
      invariant RunFed(acc.Abs(), state, t, k) == RunFed(Init(Double), Start, t, 0)
      invariant RunNumber(state, t, k) == RunNumber(Start, t, 0)
    {
      NextState(acc.Abs(), state, t, k);
      if !IsDigit(t[k]) || (state != Integer && state != Fraction && state != ExponentDigits) {
        state := NumberNext(state, t[k]);
      } else {
        DigitStays(state, t[k]);
      }
      if state == Invalid {
        InvalidStays(t, k + 1);
        return;
      }
      acc.Feed(t[k], state);
      k := k + 1;
    }
    RunsOut(acc.Abs(), state, t);
    if !NumberComplete(state) {
      return;
    }
    TargetKept(Double, Start, t, 0, Init(Double));
    valid := true;
    r := acc.FinishDecimal();
    forall n | NumberOk(n) && PrintNumber(n) == t ensures r == DecimalOf(SumOf(n, Double)) {
      RunIsSum(n, Double);
    }
  }

  lemma RunsOut(s: Sum, state: NumberState, t: Text)
    ensures RunNumber(state, t, |t|) == state && RunFed(s, state, t, |t|) == s
  {
  }
}
