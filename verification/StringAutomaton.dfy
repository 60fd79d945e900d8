/** The per-byte automaton that checks strings inside streamed containers, and
    its agreement with the batch validator. */
module StringAutomaton {
  import opened Bytes
  import opened JsonString

  datatype Surrogate = NoSurrogate | ExpectBackslash | ExpectU | LowHex

  /** The `container_*` string fields of kason_stream. */
  datatype StringState = StringState(
    escape: bool, hexLeft: nat, unicode: nat, high: nat,
    utf8: nat, minimum: nat, surrogate: Surrogate, utf8Left: nat)

  const FRESH := StringState(false, 0, 0, 0, 0, 0, NoSurrogate, 0)

  datatype StringResult = Failed | Closed | Goes(state: StringState)

  /** kason_stream_process_utf8. */
  function Utf8Step(a: StringState, c: Byte): StringResult {
    if a.utf8Left == 0 then
      if c < 0x80 then Goes(a)
      else if LeadLength(c) == 0 then Failed
      else Goes(a.(utf8Left := LeadLength(c) - 1, utf8 := LeadBits(c), minimum := LeadMinimum(LeadLength(c))))
    else if !IsContinuation(c) then Failed
    else
      var v := a.utf8 * 64 + c % 64;
      if a.utf8Left == 1 && (v < a.minimum || !IsScalar(v)) then Failed
      else Goes(a.(utf8 := v, utf8Left := a.utf8Left - 1))
  }

  /** The end of a \u escape whose four digits have the value of `a.unicode`. */
  function UnicodeDone(a: StringState): StringResult {
    if a.surrogate == LowHex then
      if !IsLowSurrogate(a.unicode) then Failed
      else Goes(a.(high := 0, surrogate := NoSurrogate, escape := false))
    else if IsHighSurrogate(a.unicode) then
      Goes(a.(high := a.unicode, surrogate := ExpectBackslash, escape := false))
    else if IsLowSurrogate(a.unicode) then Failed
    else Goes(a.(escape := false))
  }

  /** kason_stream_process_container_escape. */
  function EscapeStep(a: StringState, c: Byte): StringResult {
    if a.hexLeft > 0 then
      if HexValue(c) < 0 then Failed
      else
        var b := a.(unicode := a.unicode * 16 + HexValue(c), hexLeft := a.hexLeft - 1);
        if b.hexLeft == 0 then UnicodeDone(b) else Goes(b)
    else if c == LOWER_U then Goes(a.(hexLeft := 4, unicode := 0))
    else if IsSimpleEscape(c) then Goes(a.(escape := false))
    else Failed
  }

  /** One byte inside a string (the string branch of kason_stream_process_container). */
  function StringStep(a: StringState, c: Byte): StringResult {
    if a.surrogate == ExpectBackslash then
      if c != BACKSLASH then Failed else Goes(a.(surrogate := ExpectU))
    else if a.surrogate == ExpectU then
      if c != LOWER_U then Failed else Goes(a.(surrogate := LowHex, hexLeft := 4, unicode := 0))
    else if a.surrogate == LowHex || a.escape then EscapeStep(a, c)
    else if a.utf8Left > 0 then Utf8Step(a, c)
    else if c == BACKSLASH then Goes(a.(escape := true, hexLeft := 0))
    else if c == QUOTE then Closed
    else if IsControl(c) then Failed
    else if c >= 0x80 then Utf8Step(a, c)
    else Goes(a)
  }

  /** Between two characters of a string. */
  predicate Neutral(a: StringState) {
    !a.escape && a.surrogate == NoSurrogate && a.utf8Left == 0
  }

  /** The whole of `t` from `i` on, read inside one string. */
  function RunString(a: StringState, t: Text, i: nat): StringResult
    decreases |t| - i
  {
    if i >= |t| then Goes(a)
    else
      match StringStep(a, t[i])
      case Goes(b) => RunString(b, t, i + 1)
      case _ => Failed
  }

  predicate EndsNeutral(a: StringState, t: Text, i: nat) {
    var r := RunString(a, t, i);
    r.Goes? && Neutral(r.state)
  }

  // ----------------------------------------------------- runs of hex digits

  function HexRun(v: nat, t: Text, i: nat, n: nat): (r: int)
    requires i + n <= |t|
    decreases n
  {
    if n == 0 then v
    else if HexValue(t[i]) < 0 then -1
    else HexRun(v * 16 + HexValue(t[i]), t, i + 1, n - 1)
  }

  lemma HexRunIsHex4(t: Text, i: nat)
    requires i + 4 <= |t|
    ensures HexRun(0, t, i, 4) == Hex4At(t, i)
  {
    if HexValue(t[i]) >= 0 {
      var a := HexValue(t[i]);
      assert HexRun(0, t, i, 4) == HexRun(a, t, i + 1, 3);
      if HexValue(t[i + 1]) >= 0 {
        var b := a * 16 + HexValue(t[i + 1]);
        assert HexRun(a, t, i + 1, 3) == HexRun(b, t, i + 2, 2);
        if HexValue(t[i + 2]) >= 0 {
          var c := b * 16 + HexValue(t[i + 2]);
          assert HexRun(b, t, i + 2, 2) == HexRun(c, t, i + 3, 1);
        }
      }
    }
  }

  lemma {:induction false} HexSteps(a: StringState, t: Text, i: nat)
    requires a.hexLeft > 0 && (a.surrogate == LowHex || (a.surrogate == NoSurrogate && a.escape)) && i <= |t|
    ensures i + a.hexLeft > |t| ==> !EndsNeutral(a, t, i)
    ensures i + a.hexLeft <= |t| ==>
      var v := HexRun(a.unicode, t, i, a.hexLeft);
      if v < 0 then !EndsNeutral(a, t, i)
      else
        var done := UnicodeDone(a.(unicode := v, hexLeft := 0));
        if done.Goes? then RunString(a, t, i) == RunString(done.state, t, i + a.hexLeft) else !EndsNeutral(a, t, i)
    decreases a.hexLeft
  {
    if i < |t| && HexValue(t[i]) >= 0 && a.hexLeft > 1 {
      var b := a.(unicode := a.unicode * 16 + HexValue(t[i]), hexLeft := a.hexLeft - 1);
      assert RunString(a, t, i) == RunString(b, t, i + 1);
      HexSteps(b, t, i + 1);
    }
  }

  // ---------------------------------------------- runs of continuation bytes

  function TailRun(v: nat, t: Text, i: nat, n: nat): (r: nat)
    requires i + n <= |t|
    decreases n
  {
    if n == 0 then v else TailRun(v * 64 + t[i] % 64, t, i + 1, n - 1)
  }

  lemma TailRunIsAccumulated(t: Text, i: nat, n: nat)
    requires 2 <= n <= 4 && i + n <= |t|
    ensures TailRun(LeadBits(t[i]), t, i + 1, n - 1) == Accumulated(t, i, n - 1)
  {
    AccumulatedUnrolled(t, i, n);
    var a := LeadBits(t[i]);
    var b := a * 64 + t[i + 1] % 64;
    assert TailRun(a, t, i + 1, n - 1) == TailRun(b, t, i + 2, n - 2);
    if n >= 3 {
      var c := b * 64 + t[i + 2] % 64;
      assert TailRun(b, t, i + 2, n - 2) == TailRun(c, t, i + 3, n - 3);
    }
  }

  lemma {:induction false} TailSteps(a: StringState, t: Text, i: nat)
    requires a.utf8Left > 0 && a.surrogate == NoSurrogate && !a.escape && i <= |t|
    ensures i + a.utf8Left > |t| ==> !EndsNeutral(a, t, i)
    ensures i + a.utf8Left <= |t| ==>
      var v := TailRun(a.utf8, t, i, a.utf8Left);
      if !ContinuedBy(t, i, i + a.utf8Left) || v < a.minimum || !IsScalar(v) then !EndsNeutral(a, t, i)
      else RunString(a, t, i) == RunString(a.(utf8 := v, utf8Left := 0), t, i + a.utf8Left)
    decreases a.utf8Left
  {
    if i < |t| && IsContinuation(t[i]) && a.utf8Left > 1 {
      var b := a.(utf8 := a.utf8 * 64 + t[i] % 64, utf8Left := a.utf8Left - 1);
      assert RunString(a, t, i) == RunString(b, t, i + 1);
      TailSteps(b, t, i + 1);
    }
  }

  // ----------------------------------------------------- one character

  /** From a neutral state the automaton reads exactly the character the decoder
      reads, or gets stuck where the decoder reports an error. */
  lemma CharacterSteps(a: StringState, t: Text, i: nat) returns (b: StringState)
    requires Neutral(a) && i < |t|
    ensures var next := NextScalar(t, i, true);
      if next.NextValue? then Neutral(b) && RunString(a, t, i) == RunString(b, t, next.next) else !EndsNeutral(a, t, i)
  {
    b := a;
    if t[i] == BACKSLASH {
      b := EscapeSteps(a, t, i);
    } else if t[i] >= 0x80 && LeadLength(t[i]) > 0 {
      var n := LeadLength(t[i]);
      var a' := a.(utf8Left := n - 1, utf8 := LeadBits(t[i]), minimum := LeadMinimum(n));
      assert RunString(a, t, i) == RunString(a', t, i + 1);
      TailSteps(a', t, i + 1);
      if i + n <= |t| {
        TailRunIsAccumulated(t, i, n);
        b := a'.(utf8 := Accumulated(t, i, n - 1), utf8Left := 0);
      }
    }
  }

  lemma EscapeSteps(a: StringState, t: Text, i: nat) returns (b: StringState)
    requires Neutral(a) && i < |t| && t[i] == BACKSLASH
    ensures var next := NextScalar(t, i, true);
      if next.NextValue? then Neutral(b) && RunString(a, t, i) == RunString(b, t, next.next) else !EndsNeutral(a, t, i)
  {
    b := a;
    var a1 := a.(escape := true, hexLeft := 0);
    assert RunString(a, t, i) == RunString(a1, t, i + 1);
    if i + 1 < |t| {
      if t[i + 1] == LOWER_U {
        var a2 := a1.(hexLeft := 4, unicode := 0);
        assert RunString(a1, t, i + 1) == RunString(a2, t, i + 2);
        b := UnicodeSteps(a2, t, i);
      } else if IsSimpleEscape(t[i + 1]) {
        b := a1.(escape := false);
        assert RunString(a1, t, i + 1) == RunString(b, t, i + 2);
      }
    }
  }

  lemma UnicodeSteps(a: StringState, t: Text, i: nat) returns (b: StringState)
    requires i + 1 < |t| && t[i] == BACKSLASH && t[i + 1] == LOWER_U
    requires a.escape && a.hexLeft == 4 && a.unicode == 0 && a.surrogate == NoSurrogate && a.utf8Left == 0
    ensures var next := NextUnicodeEscape(t, i);
      if next.NextValue? then Neutral(b) && RunString(a, t, i + 2) == RunString(b, t, next.next)
      else !EndsNeutral(a, t, i + 2)
  {
    b := a;
    HexSteps(a, t, i + 2);
    if i + 6 <= |t| {
      HexRunIsHex4(t, i + 2);
      var v := Hex4At(t, i + 2);
      if v >= 0 {
        var a1 := a.(unicode := v, hexLeft := 0);
        if IsHighSurrogate(v) {
          var a2 := a1.(high := v, surrogate := ExpectBackslash, escape := false);
          assert UnicodeDone(a1) == Goes(a2);
          b := PairSteps(a2, t, i);
        } else if !IsLowSurrogate(v) {
          b := a1.(escape := false);
        }
      }
    }
  }

  lemma PairSteps(a: StringState, t: Text, i: nat) returns (b: StringState)
    requires i + 6 <= |t| && a.surrogate == ExpectBackslash && !a.escape && a.utf8Left == 0
    ensures
      if |t| - i < 12 || t[i + 6] != BACKSLASH || t[i + 7] != LOWER_U || !IsLowSurrogate(Hex4At(t, i + 8)) then
        !EndsNeutral(a, t, i + 6)
      else Neutral(b) && RunString(a, t, i + 6) == RunString(b, t, i + 12)
  {
    b := a;
    if i + 6 < |t| && t[i + 6] == BACKSLASH {
      var a1 := a.(surrogate := ExpectU);
      assert RunString(a, t, i + 6) == RunString(a1, t, i + 7);
      if i + 7 < |t| && t[i + 7] == LOWER_U {
        var a2 := a1.(surrogate := LowHex, hexLeft := 4, unicode := 0);
        assert RunString(a1, t, i + 7) == RunString(a2, t, i + 8);
        HexSteps(a2, t, i + 8);
        if i + 12 <= |t| {
          HexRunIsHex4(t, i + 8);
          var v := Hex4At(t, i + 8);
          if v >= 0 {
            b := a2.(unicode := v, hexLeft := 0, high := 0, surrogate := NoSurrogate, escape := false);
          }
        }
      }
    }
  }

  // ------------------------------------------------------- online = batch

  lemma {:induction false} OnlineFrom(a: StringState, t: Text, i: nat)
    requires Neutral(a) && i <= |t|
    ensures EndsNeutral(a, t, i) <==> ValidFrom(t, i)
    decreases |t| - i
  {
    hide NextScalar, StringStep;
    if i < |t| {
      var b := CharacterSteps(a, t, i);
      match NextScalar(t, i, true)
      case NextValue(_, n) => OnlineFrom(b, t, n);
      case _ =>
    }
  }

  /** Byte by byte from the opening quote on, the automaton is neutral at the end
      of a body exactly when the batch validator accepts the body; only then does
      the quote that follows close the string. */
  lemma OnlineIsBatch(t: Text)
    ensures EndsNeutral(FRESH, t, 0) <==> ValidBody(t)
    ensures EndsNeutral(FRESH, t, 0) <==> exists cs :: CharsOk(cs) && PrintChars(cs) == t
    ensures var r := RunString(FRESH, t, 0); r.Goes? ==> (StringStep(r.state, QUOTE).Closed? <==> Neutral(r.state))
  {
    OnlineFrom(FRESH, t, 0);
    ValidBodyIffPrinted(t);
  }
}
