/** The JSON number grammar of section 6 of RFC 8259 and the three recognisers
    of it in kason.c: `is_valid_number`, the number automaton and
    `kason_scan_number`. */
module Number {
  import opened Bytes

  // -------------------------------------------------------------- grammar

  datatype Exponent = NoExponent | Exponent(mark: Byte, sign: Text, digits: Text)

  /** `frac` is empty when there is no fraction. */
  datatype Number = Number(negative: bool, integer: Text, frac: Text, exponent: Exponent)

  predicate IsExponentMark(c: int) {
    c == 0x65 || c == 0x45
  }

  predicate IsExponentSign(c: int) {
    c == 0x2B || c == 0x2D
  }

  predicate ExponentOk(e: Exponent) {
    match e
    case NoExponent => true
    case Exponent(m, s, d) =>
      IsExponentMark(m) && (s == [] || (|s| == 1 && IsExponentSign(s[0]))) && d != [] && AllDigits(d)
  }

  predicate NumberOk(n: Number) {
    n.integer != [] && AllDigits(n.integer) && (n.integer[0] == ZERO ==> |n.integer| == 1) &&
    AllDigits(n.frac) && ExponentOk(n.exponent)
  }

  function PrintSign(negative: bool): Text {
    if negative then [MINUS] else []
  }

  function PrintFrac(frac: Text): Text {
    if frac == [] then [] else [DOT] + frac
  }

  function PrintExponent(e: Exponent): Text {
    match e
    case NoExponent => []
    case Exponent(m, s, d) => [m] + s + d
  }

  function PrintTail(frac: Text, e: Exponent): Text {
    PrintFrac(frac) + PrintExponent(e)
  }

  function PrintUnsigned(n: Number): Text {
    n.integer + PrintTail(n.frac, n.exponent)
  }

  function PrintNumber(n: Number): Text {
    PrintSign(n.negative) + PrintUnsigned(n)
  }

  /** A byte that would extend a number when it directly follows one. */
  predicate ExtendsNumber(c: int) {
    IsDigit(c) || c == DOT || IsExponentMark(c)
  }

  // ------------------------------------------------------- longest match

  function DigitsEnd(s: Text, i: nat): (j: nat)
    ensures i <= j && (i <= |s| ==> j <= |s|)
    ensures !IsDigit(At(s, j))
    ensures i <= |s| ==> AllDigits(s[i..j])
    decreases |s| - i
  {
    if i < |s| && IsDigit(s[i]) then
      var j := DigitsEnd(s, i + 1);
      assert s[i..j] == [s[i]] + s[i + 1..j];
      j
    else i
  }

  datatype Read<T> = NoRead | Read(value: T, next: nat)

  function ReadFrac(s: Text, i: nat): (r: Read<Text>)
    ensures r.Read? && i <= |s| ==> i <= r.next <= |s|
  {
    if At(s, i) != DOT then Read([], i)
    else if !IsDigit(At(s, i + 1)) then NoRead
    else Read(s[i + 1..DigitsEnd(s, i + 1)], DigitsEnd(s, i + 1))
  }

  function ReadExponent(s: Text, i: nat): (r: Read<Exponent>)
    ensures r.Read? && i <= |s| ==> i <= r.next <= |s|
  {
    if !IsExponentMark(At(s, i)) then Read(NoExponent, i)
    else
      var d := if IsExponentSign(At(s, i + 1)) then i + 2 else i + 1;
      if !IsDigit(At(s, d)) then NoRead
      else Read(Exponent(s[i], s[i + 1..d], s[d..DigitsEnd(s, d)]), DigitsEnd(s, d))
  }

  datatype Tail = Tail(frac: Text, exponent: Exponent)

  function ReadTail(s: Text, i: nat): (r: Read<Tail>)
    ensures r.Read? && i <= |s| ==> i <= r.next <= |s|
  {
    var frac := ReadFrac(s, i);
    if frac.NoRead? then NoRead
    else
      var exponent := ReadExponent(s, frac.next);
      if exponent.NoRead? then NoRead else Read(Tail(frac.value, exponent.value), exponent.next)
  }

  function IntegerEnd(s: Text, i: nat): (j: nat)
    requires IsDigit(At(s, i))
    ensures i < j <= |s|
  {
    if s[i] == ZERO then i + 1 else DigitsEnd(s, i)
  }

  /** The longest number at `i`, as kason_scan_number reads it. */
  function ReadNumber(s: Text, i: nat): (r: Read<Number>)
    ensures r.Read? ==> i < r.next <= |s|
  {
    var negative := At(s, i) == MINUS;
    var a := if negative then i + 1 else i;
    if !IsDigit(At(s, a)) then NoRead
    else
      var tail := ReadTail(s, IntegerEnd(s, a));
      if tail.NoRead? then NoRead
      else Read(Number(negative, s[a..IntegerEnd(s, a)], tail.value.frac, tail.value.exponent), tail.next)
  }

  // ------------------------------------------ longest match reads the grammar

  lemma ReadFracSound(s: Text, i: nat)
    requires i <= |s| && ReadFrac(s, i).Read?
    ensures var r := ReadFrac(s, i);
      AllDigits(r.value) && Occurs(s, i, PrintFrac(r.value)) && r.next == i + |PrintFrac(r.value)|
  {
    var r := ReadFrac(s, i);
    if At(s, i) == DOT {
      assert s[i..r.next] == [s[i]] + s[i + 1..r.next];
    }
  }

  lemma ReadExponentSound(s: Text, i: nat)
    requires i <= |s| && ReadExponent(s, i).Read?
    ensures var r := ReadExponent(s, i);
      ExponentOk(r.value) && Occurs(s, i, PrintExponent(r.value)) && r.next == i + |PrintExponent(r.value)|
  {
    var r := ReadExponent(s, i);
    if r.value.Exponent? {
      var d := i + 1 + |r.value.sign|;
      assert s[i..r.next] == [s[i]] + s[i + 1..d] + s[d..r.next];
    }
  }

  lemma ReadTailSound(s: Text, i: nat)
    requires i <= |s| && ReadTail(s, i).Read?
    ensures var r := ReadTail(s, i);
      AllDigits(r.value.frac) && ExponentOk(r.value.exponent) &&
      Occurs(s, i, PrintTail(r.value.frac, r.value.exponent)) &&
      r.next == i + |PrintTail(r.value.frac, r.value.exponent)|
  {
    hide ReadFrac, ReadExponent, PrintFrac, PrintExponent, ExponentOk;
    var frac := ReadFrac(s, i);
    ReadFracSound(s, i);
    ReadExponentSound(s, frac.next);
    OccursConcat(s, i, PrintFrac(frac.value), PrintExponent(ReadExponent(s, frac.next).value));
  }

  lemma IntegerEndSound(s: Text, i: nat)
    requires IsDigit(At(s, i))
    ensures var d := s[i..IntegerEnd(s, i)];
      d != [] && AllDigits(d) && (d[0] == ZERO ==> |d| == 1)
  {
  }

  lemma ReadNumberSound(s: Text, i: nat)
    requires ReadNumber(s, i).Read?
    ensures var r := ReadNumber(s, i);
      NumberOk(r.value) && Occurs(s, i, PrintNumber(r.value)) && r.next == i + |PrintNumber(r.value)|
  {
    hide ReadTail, PrintTail, ExponentOk, IntegerEnd, AllDigits, Occurs;
    var n := ReadNumber(s, i).value;
    var a := i + |PrintSign(n.negative)|;
    IntegerEndSound(s, a);
    OccursSlice(s, a, IntegerEnd(s, a));
    ReadTailSound(s, IntegerEnd(s, a));
    OccursConcat(s, a, n.integer, PrintTail(n.frac, n.exponent));
    if n.negative {
      OccursByte(s, i, MINUS);
    } else {
      OccursNothing(s, i);
    }
    OccursConcat(s, i, PrintSign(n.negative), PrintUnsigned(n));
  }

  lemma {:induction false} DigitsEndOf(s: Text, i: nat, d: Text)
    requires AllDigits(d) && Occurs(s, i, d) && !IsDigit(At(s, i + |d|))
    ensures DigitsEnd(s, i) == i + |d|
    decreases |d|
  {
    if d == [] {
    } else {
      assert d == [d[0]] + d[1..];
      OccursConcat(s, i, [d[0]], d[1..]);
      OccursByte(s, i, d[0]);
      DigitsEndOf(s, i + 1, d[1..]);
    }
  }

  lemma ReadExponentComplete(s: Text, i: nat, e: Exponent)
    requires ExponentOk(e) && Occurs(s, i, PrintExponent(e)) && !ExtendsNumber(At(s, i + |PrintExponent(e)|))
    ensures ReadExponent(s, i) == Read(e, i + |PrintExponent(e)|)
  {
    if e.Exponent? {
      OccursConcat(s, i, [e.mark] + e.sign, e.digits);
      OccursConcat(s, i, [e.mark], e.sign);
      OccursByte(s, i, e.mark);
      OccursAt(s, i + 1 + |e.sign|, e.digits, 0);
      if e.sign != [] {
        OccursAt(s, i + 1, e.sign, 0);
      }
      DigitsEndOf(s, i + 1 + |e.sign|, e.digits);
    }
  }

  lemma FirstOfExponent(s: Text, i: nat, e: Exponent)
    requires ExponentOk(e) && Occurs(s, i, PrintExponent(e)) && !ExtendsNumber(At(s, i + |PrintExponent(e)|))
    ensures !IsDigit(At(s, i)) && At(s, i) != DOT
  {
    if e.Exponent? {
      OccursAt(s, i, PrintExponent(e), 0);
    }
  }

  lemma ReadFracComplete(s: Text, i: nat, frac: Text)
    requires AllDigits(frac) && Occurs(s, i, PrintFrac(frac))
    requires !IsDigit(At(s, i + |PrintFrac(frac)|)) && At(s, i + |PrintFrac(frac)|) != DOT
    ensures ReadFrac(s, i) == Read(frac, i + |PrintFrac(frac)|)
    ensures !IsDigit(At(s, i))
  {
    if frac != [] {
      OccursConcat(s, i, [DOT], frac);
      OccursByte(s, i, DOT);
      OccursAt(s, i + 1, frac, 0);
      DigitsEndOf(s, i + 1, frac);
    }
  }

  lemma ReadTailComplete(s: Text, i: nat, frac: Text, e: Exponent)
    requires AllDigits(frac) && ExponentOk(e) && Occurs(s, i, PrintTail(frac, e))
    requires !ExtendsNumber(At(s, i + |PrintTail(frac, e)|))
    ensures ReadTail(s, i) == Read(Tail(frac, e), i + |PrintTail(frac, e)|)
    ensures !IsDigit(At(s, i))
  {
    hide ReadFrac, ReadExponent, PrintFrac, PrintExponent, ExponentOk, ExtendsNumber;
    OccursConcat(s, i, PrintFrac(frac), PrintExponent(e));
    ReadExponentComplete(s, i + |PrintFrac(frac)|, e);
    FirstOfExponent(s, i + |PrintFrac(frac)|, e);
    ReadFracComplete(s, i, frac);
  }

  lemma IntegerEndComplete(s: Text, i: nat, d: Text)
    requires d != [] && AllDigits(d) && (d[0] == ZERO ==> |d| == 1)
    requires Occurs(s, i, d) && !IsDigit(At(s, i + |d|))
    ensures IsDigit(At(s, i)) && IntegerEnd(s, i) == i + |d|
  {
    OccursAt(s, i, d, 0);
    DigitsEndOf(s, i, d);
  }

  lemma ReadNumberComplete(s: Text, i: nat, n: Number)
    requires NumberOk(n) && Occurs(s, i, PrintNumber(n)) && !ExtendsNumber(At(s, i + |PrintNumber(n)|))
    ensures ReadNumber(s, i) == Read(n, i + |PrintNumber(n)|)
  {
    hide ReadTail, PrintTail, ExponentOk, IntegerEnd, AllDigits, ExtendsNumber, IsDigit;
    OccursConcat(s, i, PrintSign(n.negative), PrintUnsigned(n));
    var a := i + |PrintSign(n.negative)|;
    OccursConcat(s, a, n.integer, PrintTail(n.frac, n.exponent));
    ReadTailComplete(s, a + |n.integer|, n.frac, n.exponent);
    IntegerEndComplete(s, a, n.integer);
    if n.negative {
      OccursByte(s, i, MINUS);
    } else {
      DigitIsNotMinus(s, i);
    }
  }

  lemma DigitIsNotMinus(s: Text, i: nat)
    requires IsDigit(At(s, i))
    ensures At(s, i) != MINUS
  {
  }

  ghost predicate IsNumberText(t: Text) {
    exists n :: NumberOk(n) && PrintNumber(n) == t
  }

  lemma NumberTextIffFullRead(t: Text)
    ensures IsNumberText(t) <==> ReadNumber(t, 0).Read? && ReadNumber(t, 0).next == |t|
  {
    hide ReadNumber, PrintNumber, NumberOk;
    if ReadNumber(t, 0).Read? && ReadNumber(t, 0).next == |t| {
      ReadNumberSound(t, 0);
      assert t[0..|t|] == t;
    }
    forall n | NumberOk(n) && PrintNumber(n) == t
      ensures ReadNumber(t, 0) == Read(n, |t|)
    {
      assert t[0..|t|] == t;
      ReadNumberComplete(t, 0, n);
    }
  }

  // -------------------------------------------------------- the automaton

  /** `Start` stands for "before the first byte". */
  datatype NumberState =
    | Invalid | Start | Sign | Zero | Integer | DecimalPoint | Fraction
    | ExponentMark | ExponentSign | ExponentDigits

  /** kason_number_begin. */
  function NumberBegin(c: int): NumberState {
    if c == MINUS then Sign
    else if c == ZERO then Zero
    else if IsDigit(c) then Integer
    else Invalid
  }

  /** kason_number_next, and kason_number_begin at the start. */
  function NumberNext(state: NumberState, c: int): NumberState {
    match state
    case Start => NumberBegin(c)
    case Sign => if c == ZERO then Zero else if IsDigit(c) then Integer else Invalid
    case Zero =>
      if c == DOT then DecimalPoint else if IsExponentMark(c) then ExponentMark else Invalid
    case Integer =>
      if IsDigit(c) then Integer
      else if c == DOT then DecimalPoint else if IsExponentMark(c) then ExponentMark else Invalid
    case DecimalPoint => if IsDigit(c) then Fraction else Invalid
    case Fraction => if IsDigit(c) then Fraction else if IsExponentMark(c) then ExponentMark else Invalid
    case ExponentMark =>
      if IsExponentSign(c) then ExponentSign else if IsDigit(c) then ExponentDigits else Invalid
    case ExponentSign => if IsDigit(c) then ExponentDigits else Invalid
    case ExponentDigits => if IsDigit(c) then ExponentDigits else Invalid
    case Invalid => Invalid
  }

  /** kason_number_complete. */
  predicate NumberComplete(state: NumberState) {
    state == Zero || state == Integer || state == Fraction || state == ExponentDigits
  }

  function RunNumber(state: NumberState, t: Text, i: nat): NumberState
    decreases |t| - i
  {
    if i < |t| then RunNumber(NumberNext(state, t[i]), t, i + 1) else state
  }

  predicate AutomatonAccepts(t: Text) {
    NumberComplete(RunNumber(Start, t, 0))
  }

  predicate AcceptsFrom(state: NumberState, t: Text, i: nat) {
    NumberComplete(RunNumber(state, t, i))
  }

  lemma {:induction false} InvalidStays(t: Text, i: nat)
    ensures !AcceptsFrom(Invalid, t, i)
    decreases |t| - i
  {
    if i < |t| {
      InvalidStays(t, i + 1);
    }
  }

  /** Digits leave the three looping states alone. */
  lemma {:induction false} DigitsLoop(state: NumberState, t: Text, i: nat)
    requires state == Integer || state == Fraction || state == ExponentDigits
    ensures RunNumber(state, t, i) == RunNumber(state, t, DigitsEnd(t, i))
    decreases |t| - i
  {
    if i < |t| && IsDigit(t[i]) {
      DigitsLoop(state, t, i + 1);
    }
  }

  lemma AcceptsDigits(t: Text, d: nat)
    requires d <= |t|
    ensures AcceptsFrom(ExponentSign, t, d) <==> IsDigit(At(t, d)) && DigitsEnd(t, d) == |t|
    ensures IsDigit(At(t, d)) ==> (AcceptsFrom(ExponentDigits, t, d + 1) <==> DigitsEnd(t, d) == |t|)
  {
    if d < |t| {
      assert RunNumber(ExponentSign, t, d) == RunNumber(NumberNext(ExponentSign, t[d]), t, d + 1);
      InvalidStays(t, d + 1);
      if IsDigit(t[d]) {
        var j := DigitsEnd(t, d);
        DigitsLoop(ExponentDigits, t, d + 1);
        if j < |t| {
          assert RunNumber(ExponentDigits, t, j) == RunNumber(Invalid, t, j + 1);
          InvalidStays(t, j + 1);
        }
      }
    }
  }

  lemma AcceptsExponent(t: Text, i: nat)
    requires i <= |t|
    ensures AcceptsFrom(ExponentMark, t, i) <==>
      var d := if IsExponentSign(At(t, i)) then i + 1 else i;
      IsDigit(At(t, d)) && DigitsEnd(t, d) == |t|
  {
    if i < |t| {
      assert RunNumber(ExponentMark, t, i) == RunNumber(NumberNext(ExponentMark, t[i]), t, i + 1);
      InvalidStays(t, i + 1);
      if IsExponentSign(t[i]) {
        AcceptsDigits(t, i + 1);
      } else if IsDigit(t[i]) {
        AcceptsDigits(t, i);
      }
    }
  }

  /** From a state after integer digits (or the fraction) the automaton accepts
      exactly what the longest-match reader consumes to the end. */
  lemma AcceptsTail(state: NumberState, t: Text, i: nat)
    requires i <= |t| && !IsDigit(At(t, i))
    requires state == Zero || state == Integer || state == Fraction
    requires state == Fraction ==> At(t, i) != DOT
    ensures AcceptsFrom(state, t, i) <==> ReadTail(t, i).Read? && ReadTail(t, i).next == |t|
  {
    if i < |t| {
      assert RunNumber(state, t, i) == RunNumber(NumberNext(state, t[i]), t, i + 1);
      InvalidStays(t, i + 1);
      if IsExponentMark(t[i]) {
        AcceptsExponent(t, i + 1);
      } else if t[i] == DOT {
        AcceptsAfterPoint(t, i + 1);
      }
    }
  }

  lemma AcceptsAfterPoint(t: Text, i: nat)
    requires i <= |t|
    ensures AcceptsFrom(DecimalPoint, t, i) <==>
      IsDigit(At(t, i)) && ReadExponent(t, DigitsEnd(t, i)).Read? && ReadExponent(t, DigitsEnd(t, i)).next == |t|
  {
    if i < |t| {
      assert RunNumber(DecimalPoint, t, i) == RunNumber(NumberNext(DecimalPoint, t[i]), t, i + 1);
      InvalidStays(t, i + 1);
      if IsDigit(t[i]) {
        var j := DigitsEnd(t, i);
        assert DigitsEnd(t, i + 1) == j;
        DigitsLoop(Fraction, t, i + 1);
        if j < |t| {
          assert RunNumber(Fraction, t, j) == RunNumber(NumberNext(Fraction, t[j]), t, j + 1);
          InvalidStays(t, j + 1);
          if IsExponentMark(t[j]) {
            AcceptsExponent(t, j + 1);
          }
        }
      }
    }
  }

  lemma AcceptsInteger(state: NumberState, t: Text, i: nat)
    requires i <= |t| && (state == Start || state == Sign)
    requires state == Start ==> At(t, i) != MINUS
    ensures AcceptsFrom(state, t, i) <==>
      IsDigit(At(t, i)) &&
      ReadTail(t, IntegerEnd(t, i)).Read? && ReadTail(t, IntegerEnd(t, i)).next == |t|
  {
    if i < |t| {
      assert RunNumber(state, t, i) == RunNumber(NumberNext(state, t[i]), t, i + 1);
      InvalidStays(t, i + 1);
      if t[i] == ZERO {
        if IsDigit(At(t, i + 1)) {
          InvalidStays(t, i + 2);
        } else {
          AcceptsTail(Zero, t, i + 1);
        }
      } else if IsDigit(t[i]) {
        assert DigitsEnd(t, i + 1) == DigitsEnd(t, i);
        DigitsLoop(Integer, t, i + 1);
        AcceptsTail(Integer, t, DigitsEnd(t, i));
      }
    }
  }

  /** The automaton accepts exactly the numbers of RFC 8259. */
  lemma AutomatonIffNumber(t: Text)
    ensures AutomatonAccepts(t) <==> IsNumberText(t)
  {
    NumberTextIffFullRead(t);
    if At(t, 0) == MINUS {
      assert RunNumber(Start, t, 0) == RunNumber(Sign, t, 1);
      AcceptsInteger(Sign, t, 1);
    } else {
      AcceptsInteger(Start, t, 0);
    }
  }

  // ------------------------------------------------- the loops of kason.c

  method SkipDigits(s: Text, ptr: nat) returns (next: nat)
    ensures next == DigitsEnd(s, ptr)
  {
    next := ptr;
    while next < |s| && IsDigit(s[next])
      invariant ptr <= next
      invariant DigitsEnd(s, next) == DigitsEnd(s, ptr)
      decreases |s| - next
    {
      next := next + 1;
    }
  }

  method ScanFraction(s: Text, ptr: nat) returns (ok: bool, next: nat)
    ensures ok <==> ReadFrac(s, ptr).Read?
    ensures ok ==> next == ReadFrac(s, ptr).next
  {
    next := ptr;
    if ptr < |s| && s[ptr] == DOT {
      next := ptr + 1;
      if next >= |s| || !IsDigit(s[next]) {
        return false, ptr;
      }
      var digit := next;
      next := SkipDigits(s, next + 1);
      assert next == DigitsEnd(s, digit);
    }
    ok := true;
  }

  method ScanExponent(s: Text, ptr: nat) returns (ok: bool, next: nat)
    ensures ok <==> ReadExponent(s, ptr).Read?
    ensures ok ==> next == ReadExponent(s, ptr).next
  {
    next := ptr;
    if ptr < |s| && IsExponentMark(s[ptr]) {
      next := ptr + 1;
      if next < |s| && IsExponentSign(s[next]) {
        next := next + 1;
      }
      if next >= |s| || !IsDigit(s[next]) {
        return false, ptr;
      }
      var digit := next;
      next := SkipDigits(s, next + 1);
      assert next == DigitsEnd(s, digit);
    }
    ok := true;
  }

  /** kason_scan_number; its fraction and exponent parts are the two methods above. */
  method ScanNumber(s: Text, cursor: nat) returns (ok: bool, next: nat)
    requires cursor <= |s|
    ensures ok <==> ReadNumber(s, cursor).Read?
    ensures ok ==> next == ReadNumber(s, cursor).next
  {
    hide ReadFrac, ReadExponent;
    var ptr := cursor;
    if At(s, ptr) == MINUS {
      ptr := ptr + 1;
      if ptr >= |s| {
        return false, cursor;
      }
    }
    if At(s, ptr) == ZERO {
      ptr := ptr + 1;
    } else if IsDigit(At(s, ptr)) {
      var digit := ptr;
      ptr := SkipDigits(s, ptr + 1);
      assert ptr == DigitsEnd(s, digit);
    } else {
      return false, cursor;
    }
    ok, ptr := ScanFraction(s, ptr);
    if !ok {
      return false, cursor;
    }
    ok, next := ScanExponent(s, ptr);
  }

  /** is_valid_number: the same loops on a slice that must be used up. */
  method IsValidNumber(t: Text) returns (valid: bool)
    ensures valid <==> IsNumberText(t)
  {
    NumberTextIffFullRead(t);
    if t == [] {
      return false;
    }
    var ok, next := ScanNumber(t, 0);
    return ok && next >= |t|;
  }
}
