/** How the byte machine reads the pieces of a JSON text: white space, quoted
    keys and strings, bare tokens, and the contents of a child container. */
module StreamReads {
  import opened Bytes
  import opened JsonString
  import opened Number
  import opened Grammar
  import opened StringScan
  import opened Events
  import opened StringAutomaton
  import opened StreamSpec

  /** From `st` the machine reads all of `t`, ends in `after`, reports `es`, and
      never holds more than scratch of `size` bytes can. */
  ghost predicate Reads(st: State, t: Text, after: State, es: seq<StreamEvent>, size: nat) {
    RunText(st, t) == Run(after, es) && Fits(st, t, size)
  }

  lemma ReadsBounded(st: State, t: Text, after: State, es: seq<StreamEvent>, size: nat)
    requires Reads(st, t, after, es, size)
    ensures Need(st) <= size - 1 && Need(after) <= size - 1
  {
    hide Need, Step;
    assert t[..0] == [] && t[..|t|] == t;
    assert RunText(st, t[..0]).Run? && RunText(st, t[..|t|]).Run?;
  }

  lemma ReadsNothing(st: State, size: nat)
    requires Need(st) <= size - 1
    ensures Reads(st, [], st, [], size)
  {
    hide Need, Step;
  }

  lemma ReadsByte(st: State, c: Byte, after: State, es: seq<StreamEvent>, size: nat)
    requires Step(st, c) == Run(after, es) && Need(st) <= size - 1 && Need(after) <= size - 1
    ensures Reads(st, [c], after, es, size)
  {
    hide Need, Step;
    RunOne(st, c);
    forall n | 0 <= n <= 1
      ensures RunText(st, [c][..n]).Run? && Need(RunText(st, [c][..n]).state) <= size - 1
    {
      assert [c][..n] == if n == 0 then [] else [c];
    }
  }

  lemma ReadsThen(st: State, a: Text, mid: State, es: seq<StreamEvent>, b: Text, after: State, es': seq<StreamEvent>, size: nat)
    requires Reads(st, a, mid, es, size) && Reads(mid, b, after, es', size)
    ensures Reads(st, a + b, after, es + es', size)
  {
    hide Need, Step, RunText;
    RunConcat(st, a, b);
    forall n | 0 <= n <= |a + b| && RunText(st, (a + b)[..n]).Run?
      ensures Need(RunText(st, (a + b)[..n]).state) <= size - 1
    {
      if n <= |a| {
        assert (a + b)[..n] == a[..n];
      } else {
        assert (a + b)[..n] == a + b[..n - |a|];
        RunConcat(st, a, b[..n - |a|]);
        assert RunText(mid, b[..n - |a|]).Run?;
      }
    }
  }

  lemma ReadsMore(st: State, a: Text, mid: State, es: seq<StreamEvent>, c: Byte, after: State, es': seq<StreamEvent>, size: nat)
    requires Reads(st, a, mid, es, size) && Step(mid, c) == Run(after, es') && Need(after) <= size - 1
    ensures Reads(st, a + [c], after, es + es', size)
  {
    hide Need, Step, Reads;
    ReadsBounded(st, a, mid, es, size);
    ReadsByte(mid, c, after, es', size);
    ReadsThen(st, a, mid, es, [c], after, es', size);
  }

  /** Silent steps. */
  lemma ReadsOn(st: State, a: Text, mid: State, b: Text, after: State, es: seq<StreamEvent>, size: nat)
    requires Reads(st, a, mid, [], size) && Reads(mid, b, after, es, size)
    ensures Reads(st, a + b, after, es, size)
  {
    hide Reads;
    ReadsThen(st, a, mid, [], b, after, es, size);
    assert [] + es == es;
  }

  lemma ReadsByteOn(st: State, a: Text, mid: State, c: Byte, after: State, size: nat)
    requires Reads(st, a, mid, [], size) && Step(mid, c) == Stay(after) && Need(after) <= size - 1
    ensures Reads(st, a + [c], after, [], size)
  {
    hide Need, Step, Reads;
    var none: seq<StreamEvent> := [];
    ReadsMore(st, a, mid, none, c, after, none, size);
    assert none + none == none;
  }

  // ---------------------------------------------------------- white space

  predicate SkipsSpace(p: Phase) {
    p == FindRoot || p == FindKeyBegin || p == FindValueSep || p == FindValueBegin || p == FindParamSep || p == Complete
  }

  lemma {:induction false} SpaceRuns(st: State, w: Text, size: nat)
    requires AllWhitespace(w) && SkipsSpace(st.phase) && Need(st) <= size - 1
    ensures Reads(st, w, st, [], size)
    decreases |w|
  {
    hide Reads;
    if w == [] {
      ReadsNothing(st, size);
    } else {
      var n := |w| - 1;
      SpaceRuns(st, w[..n], size);
      ReadsByteOn(st, w[..n], st, w[n], st, size);
      assert w[..n] + [w[n]] == w;
    }
  }

  // ------------------------------------------------ quoted keys and strings

  /** What is being read: a key or a string value. */
  function Open(isKey: bool): Phase {
    if isKey then FindKeyEnd else FindStringEnd
  }

  function Escaped(isKey: bool): Phase {
    if isKey then KeyEscape else StringEscape
  }

  /** `t` is appended to the pending key or value. */
  function Grown(st: State, isKey: bool, t: Text): State {
    if isKey then st.(key := st.key + t) else st.(value := st.value + t)
  }

  lemma GrownTwice(st: State, isKey: bool, t: Text, u: Text)
    ensures Grown(Grown(st, isKey, t), isKey, u) == Grown(st, isKey, t + u)
  {
    assert st.key + t + u == st.key + (t + u);
    assert st.value + t + u == st.value + (t + u);
  }

  lemma GrownByNothing(st: State, isKey: bool)
    ensures Grown(st, isKey, []) == st
  {
    assert st.key + [] == st.key && st.value + [] == st.value;
  }

  /** Inside a quoted key or string. */
  predicate InQuotes(st: State, isKey: bool) {
    st.phase == Open(isKey) || st.phase == Escaped(isKey)
  }

  lemma NeedGrown(st: State, isKey: bool, t: Text)
    requires InQuotes(st, isKey)
    ensures Need(Grown(st, isKey, t)) == Need(st) + |t|
  {
  }

  lemma {:induction false} PlainRuns(st: State, isKey: bool, t: Text, size: nat)
    requires st.phase == Open(isKey) && forall k | 0 <= k < |t| :: IsPlain(t[k])
    requires Need(st) + |t| <= size - 1
    ensures Reads(st, t, Grown(st, isKey, t), [], size)
    decreases |t|
  {
    hide Reads;
    if t == [] {
      ReadsNothing(st, size);
      GrownByNothing(st, isKey);
    } else {
      var n := |t| - 1;
      PlainRuns(st, isKey, t[..n], size);
      var mid := Grown(st, isKey, t[..n]);
      NeedGrown(st, isKey, t);
      assert t[..n] + [t[n]] == t;
      GrownTwice(st, isKey, t[..n], [t[n]]);
      ReadsByteOn(st, t[..n], mid, t[n], Grown(st, isKey, t), size);
    }
  }

  /** The hexadecimal digits of an escape, the last of which ends it. */
  /** After `h` of the hexadecimal digits that are due. */
  function HexGrown(st: State, isKey: bool, h: Text): State
    requires |h| <= st.hexLeft
  {
    if |h| == st.hexLeft then Grown(st, isKey, h).(hexLeft := 0, phase := Open(isKey))
    else Grown(st, isKey, h).(hexLeft := st.hexLeft - |h|)
  }

  lemma HexDigitStep(st: State, isKey: bool, h: Text, c: Byte)
    requires st.phase == Escaped(isKey) && |h| < st.hexLeft && IsHexDigit(c)
    ensures Step(HexGrown(st, isKey, h), c) == Stay(HexGrown(st, isKey, h + [c]))
  {
    GrownTwice(st, isKey, h, [c]);
  }

  lemma NeedHexGrown(st: State, isKey: bool, h: Text)
    requires st.phase == Escaped(isKey) && |h| <= st.hexLeft
    ensures Need(HexGrown(st, isKey, h)) == Need(st) + |h|
  {
  }

  lemma {:induction false} HexRuns(st: State, isKey: bool, h: Text, size: nat)
    requires st.phase == Escaped(isKey) && 0 < |h| <= st.hexLeft
    requires forall k | 0 <= k < |h| :: IsHexDigit(h[k])
    requires Need(st) + |h| <= size - 1
    ensures Reads(st, h, HexGrown(st, isKey, h), [], size)
    decreases |h|
  {
    hide Reads, Step, Need, HexGrown;
    var n := |h| - 1;
    if n == 0 {
      ReadsNothing(st, size);
      HexGrownByNothing(st, isKey);
      assert h[..n] == [];
    } else {
      HexRuns(st, isKey, h[..n], size);
    }
    assert h[..n] + [h[n]] == h;
    HexDigitStep(st, isKey, h[..n], h[n]);
    NeedHexGrown(st, isKey, h);
    ReadsByteOn(st, h[..n], HexGrown(st, isKey, h[..n]), h[n], HexGrown(st, isKey, h), size);
  }

  lemma HexGrownByNothing(st: State, isKey: bool)
    requires st.hexLeft > 0
    ensures HexGrown(st, isKey, []) == st
  {
    GrownByNothing(st, isKey);
  }

  lemma EscapeRuns(st: State, isKey: bool, b: Byte, size: nat)
    requires st.phase == Open(isKey) && st.hexLeft == 0 && Need(st) + 2 <= size - 1
    requires IsSimpleEscape(b) || b == LOWER_U
    ensures Reads(st, [BACKSLASH, b],
      if b == LOWER_U then Grown(st, isKey, [BACKSLASH, b]).(phase := Escaped(isKey), hexLeft := 4)
      else Grown(st, isKey, [BACKSLASH, b]), [], size)
  {
    hide Reads;
    var mid := Grown(st, isKey, [BACKSLASH]).(phase := Escaped(isKey), hexLeft := 0);
    ReadsByte(st, BACKSLASH, mid, [], size);
    GrownTwice(st, isKey, [BACKSLASH], [b]);
    assert [BACKSLASH] + [b] == [BACKSLASH, b];
    var after := if b == LOWER_U then Grown(st, isKey, [BACKSLASH, b]).(phase := Escaped(isKey), hexLeft := 4)
      else Grown(st, isKey, [BACKSLASH, b]);
    ReadsByteOn(st, [BACKSLASH], mid, b, after, size);
  }

  lemma UnicodeRuns(st: State, isKey: bool, h: Text, size: nat)
    requires st.phase == Open(isKey) && st.hexLeft == 0 && HexText(h) >= 0 && Need(st) + 6 <= size - 1
    ensures Reads(st, [BACKSLASH, LOWER_U] + h, Grown(st, isKey, [BACKSLASH, LOWER_U] + h), [], size)
  {
    hide Reads, Step;
    EscapeRuns(st, isKey, LOWER_U, size);
    var mid := Grown(st, isKey, [BACKSLASH, LOWER_U]).(phase := Escaped(isKey), hexLeft := 4);
    HexRuns(mid, isKey, h, size);
    GrownTwice(st, isKey, [BACKSLASH, LOWER_U], h);
    ReadsOn(st, [BACKSLASH, LOWER_U], mid, h, Grown(st, isKey, [BACKSLASH, LOWER_U] + h), [], size);
  }

  lemma CharRuns(st: State, isKey: bool, c: Char, size: nat)
    requires st.phase == Open(isKey) && st.hexLeft == 0 && CharOk(c) && Need(st) + |PrintChar(c)| <= size - 1
    ensures Reads(st, PrintChar(c), Grown(st, isKey, PrintChar(c)), [], size)
  {
    hide Reads, Step, Utf8;
    match c
    case Plain(v) =>
      Utf8IsPlain(v);
      PlainRuns(st, isKey, Utf8(v), size);
    case Short(b) => EscapeRuns(st, isKey, b, size);
    case Unicode(h) => UnicodeRuns(st, isKey, h, size);
    case Pair(h, l) =>
      var x, y := [BACKSLASH, LOWER_U] + h, [BACKSLASH, LOWER_U] + l;
      assert PrintChar(c) == x + y;
      UnicodeRuns(st, isKey, h, size);
      UnicodeRuns(Grown(st, isKey, x), isKey, l, size);
      GrownTwice(st, isKey, x, y);
      ReadsOn(st, x, Grown(st, isKey, x), y, Grown(st, isKey, x + y), [], size);
  }

  lemma {:induction false} CharsRun(st: State, isKey: bool, cs: seq<Char>, size: nat)
    requires st.phase == Open(isKey) && st.hexLeft == 0 && CharsOk(cs) && Need(st) + |PrintChars(cs)| <= size - 1
    ensures Reads(st, PrintChars(cs), Grown(st, isKey, PrintChars(cs)), [], size)
    decreases |cs|
  {
    hide Reads, Step, PrintChar, CharOk;
    if cs == [] {
      ReadsNothing(st, size);
      GrownByNothing(st, isKey);
    } else {
      var x, y := PrintChar(cs[0]), PrintChars(cs[1..]);
      CharRuns(st, isKey, cs[0], size);
      var mid := Grown(st, isKey, x);
      NeedGrown(st, isKey, x);
      CharsRun(mid, isKey, cs[1..], size);
      GrownTwice(st, isKey, x, y);
      ReadsOn(st, x, mid, y, Grown(st, isKey, x + y), [], size);
    }
  }

  /** A whole quoted key. */
  lemma KeyRuns(st: State, cs: seq<Char>, size: nat)
    requires st.phase == FindKeyBegin && CharsOk(cs) && Need(st) <= size - 1 && |PrintChars(cs)| <= size - 1
    ensures Reads(st, Quoted(cs), Cleared(st).(key := PrintChars(cs), hasKey := true, phase := FindValueSep), [], size)
  {
    hide Reads, PrintChars, ValidBody, CharsOk;
    var begun := Cleared(st).(phase := FindKeyEnd);
    var t := PrintChars(cs);
    ReadsByte(st, QUOTE, begun, [], size);
    CharsRun(begun, true, cs, size);
    var mid := Grown(begun, true, t);
    assert [] + t == t;
    BodyIsValid(cs);
    ReadsByteOn(begun, t, mid, QUOTE, mid.(hasKey := true, phase := FindValueSep), size);
    ReadsOn(st, [QUOTE], begun, t + [QUOTE], mid.(hasKey := true, phase := FindValueSep), [], size);
  }

  lemma BodyIsValid(cs: seq<Char>)
    requires CharsOk(cs)
    ensures ValidBody(PrintChars(cs))
  {
    ValidBodyIffPrinted(PrintChars(cs));
  }

  /** The body of a string value and its closing quote. */
  lemma StringRuns(st: State, cs: seq<Char>, size: nat)
    requires st.phase == FindStringEnd && st.hexLeft == 0 && st.value == [] && CharsOk(cs)
    requires Need(st) + |PrintChars(cs)| <= size - 1
    ensures var t := PrintChars(cs);
      CommitString(st.(value := t)).Run? &&
      Reads(st, t + [QUOTE], CommitString(st.(value := t)).state, CommitString(st.(value := t)).events, size)
  {
    hide Reads, PrintChars, ValidBody, CharsOk;
    var t := PrintChars(cs);
    CharsRun(st, false, cs, size);
    var mid := st.(value := t);
    assert [] + t == t;
    BodyIsValid(cs);
    assert Grown(st, false, t) == mid;
    var es := CommitString(mid).events;
    ReadsMore(st, t, mid, [], QUOTE, CommitString(mid).state, es, size);
    assert [] + es == es;
  }

  // ---------------------------------------------------------- bare tokens

  lemma BareType(v: Value)
    requires ValueOk(v) && IsBare(v)
    ensures GenericType(PrintValue(v)) == Token(TypeOf(v))
  {
    hide ReadNumber;
    if v.Num? {
      var t := PrintNumber(v.number);
      NumberTextIffFullRead(t);
      assert IsNumberText(t);
      FirstOfNumber(v.number);
    }
  }

  lemma {:induction false} BareRuns(st: State, t: Text, size: nat)
    requires st.phase == FindGenericEnd && forall k | 0 <= k < |t| :: IsBareByte(t[k])
    requires Need(st) + |t| <= size - 1
    ensures Reads(st, t, st.(value := st.value + t), [], size)
    decreases |t|
  {
    hide Reads;
    if t == [] {
      ReadsNothing(st, size);
      assert st.value + t == st.value;
    } else {
      var n := |t| - 1;
      BareRuns(st, t[..n], size);
      assert t[..n] + [t[n]] == t;
      assert st.value + t[..n] + [t[n]] == st.value + t;
      ReadsByteOn(st, t[..n], st.(value := st.value + t[..n]), t[n], st.(value := st.value + t), size);
    }
  }

  // ---------------------------------------------- inside a child container

  predicate IsInert(c: int) {
    c != QUOTE && !IsOpen(c) && !IsClose(c)
  }

  lemma PartsOfConcat(containerType: Type, a: Text, b: Text)
    ensures Parts(containerType, a + b) == Parts(containerType, a) + Parts(containerType, b)
  {
  }

  /** `t` is passed on byte by byte. */
  ghost predicate Passes(st: State, t: Text, after: State, size: nat) {
    Reads(st, t, after, Parts(st.containerType, t), size) && after.containerType == st.containerType
  }

  lemma PassesNothing(st: State, size: nat)
    requires Need(st) <= size - 1
    ensures Passes(st, [], st, size)
  {
    hide Reads;
    ReadsNothing(st, size);
    assert Parts(st.containerType, []) == [];
  }

  lemma PassesThen(st: State, a: Text, mid: State, b: Text, after: State, size: nat)
    requires Passes(st, a, mid, size) && Passes(mid, b, after, size)
    ensures Passes(st, a + b, after, size)
  {
    hide Reads;
    ReadsThen(st, a, mid, Parts(st.containerType, a), b, after, Parts(st.containerType, b), size);
    PartsOfConcat(st.containerType, a, b);
  }

  lemma PassesByte(st: State, c: Byte, after: State, size: nat)
    requires st.phase == InContainer && StepContainer(st, c) == Run(after, [Part(st, [c])])
    requires Need(st) <= size - 1 && Need(after) <= size - 1 && after.containerType == st.containerType
    ensures Passes(st, [c], after, size)
  {
    hide Reads, StepContainer, Need;
    ReadsByte(st, c, after, [Part(st, [c])], size);
    assert Parts(st.containerType, [c]) == [Part(st, [c])];
  }

  lemma {:induction false} InertRuns(st: State, t: Text, size: nat)
    requires st.phase == InContainer && !st.inString && Need(st) <= size - 1
    requires forall k | 0 <= k < |t| :: IsInert(t[k])
    ensures Passes(st, t, st, size)
    decreases |t|
  {
    hide Passes;
    if t == [] {
      PassesNothing(st, size);
    } else {
      var n := |t| - 1;
      InertRuns(st, t[..n], size);
      assert t[..n] + [t[n]] == t;
      PassesByte(st, t[n], st, size);
      PassesThen(st, t[..n], st, [t[n]], st, size);
    }
  }

  lemma {:induction false} InStringRuns(st: State, t: Text, i: nat, size: nat)
    requires st.phase == InContainer && st.inString && Need(st) <= size - 1 && i <= |t|
    requires RunString(st.str, t, i).Goes?
    ensures Passes(st, t[i..], st.(str := RunString(st.str, t, i).state), size)
    decreases |t| - i
  {
    hide Passes, StringStep;
    if i == |t| {
      assert t[i..] == [];
      PassesNothing(st, size);
    } else {
      var next := StringStep(st.str, t[i]).state;
      PassesByte(st, t[i], st.(str := next), size);
      InStringRuns(st.(str := next), t, i + 1, size);
      assert t[i..] == [t[i]] + t[i + 1..];
      PassesThen(st, [t[i]], st.(str := next), t[i + 1..], st.(str := RunString(st.str, t, i).state), size);
    }
  }

  /** A quoted string inside a container. */
  lemma QuotedRuns(st: State, cs: seq<Char>, size: nat) returns (after: State)
    requires st.phase == InContainer && !st.inString && Need(st) <= size - 1 && CharsOk(cs)
    ensures after == st.(str := after.str) && Passes(st, Quoted(cs), after, size)
  {
    hide Passes, PrintChars, CharsOk, Need, EndsNeutral, StringStep;
    var t := PrintChars(cs);
    OnlineIsBatch(t);
    StaysNeutral(t);
    var a := RunString(FRESH, t, 0).state;
    var begun := st.(inString := true, str := FRESH);
    after := st.(str := a);
    NeedInside(st, begun, begun.(str := a), after);
    PassesByte(st, QUOTE, begun, size);
    InStringRuns(begun, t, 0, size);
    assert t[0..] == t;
    PassesByte(begun.(str := a), QUOTE, after, size);
    PassesThen(begun, t, begun.(str := a), [QUOTE], after, size);
    PassesThen(st, [QUOTE], begun, t + [QUOTE], after, size);
  }

  lemma StaysNeutral(t: Text)
    requires EndsNeutral(FRESH, t, 0)
    ensures RunString(FRESH, t, 0).Goes? && StringStep(RunString(FRESH, t, 0).state, QUOTE).Closed?
  {
  }

  lemma NeedInside(a: State, b: State, c: State, d: State)
    requires a.phase == InContainer && a.phase == b.phase == c.phase == d.phase
    requires a.stack == b.stack == c.stack == d.stack
    ensures Need(a) == Need(b) == Need(c) == Need(d)
  {
  }
}
