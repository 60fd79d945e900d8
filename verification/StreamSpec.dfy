/** The chunked parser as a machine that reads one byte at a time, with the
    pending key and token as plain texts. `Stream` refines it. */
module StreamSpec {
  import opened Bytes
  import opened JsonString
  import opened Number
  import opened Grammar
  import opened Events
  import opened Modes
  import opened StringAutomaton

  datatype Phase =
    | FindRoot | FindKeyBegin | FindKeyEnd | FindValueSep | FindValueBegin | FindStringEnd
    | FindGenericEnd | FindParamSep | InContainer | KeyEscape | StringEscape | Complete

  datatype Name = NoName | Name(text: Text)

  datatype StreamEventKind = StreamValue | StreamBegin | StreamPart | StreamEnd

  datatype StreamEvent = StreamEvent(kind: StreamEventKind, valueType: Type, key: Name, text: Text)

  /** `stack` holds the open brackets of the child container being passed through. */
  datatype State = State(
    mode: Mode, phase: Phase, hasEntries: bool, hasKey: bool, key: Text, value: Text, hexLeft: nat,
    stack: Text, containerType: Type, inString: bool, str: StringState)

  const INITIAL := State(AutoMode, FindRoot, false, false, [], [], 0, [], UnknownType, false, FRESH)

  /** Either the machine stops with an error, or it goes on; the events are those
      of the bytes read so far. */
  datatype Outcome = Fail(events: seq<StreamEvent>) | Run(state: State, events: seq<StreamEvent>)

  function Stay(st: State): Outcome {
    Run(st, [])
  }

  function Reject(): Outcome {
    Fail([])
  }

  /** kason_stream_generic_type: the type of a bare token, or nothing. */
  datatype TokenType = NoToken | Token(valueType: Type)

  function GenericType(t: Text): TokenType {
    if t == [] then NoToken
    else if t[0] == MINUS || IsDigit(t[0]) then
      if ReadNumber(t, 0).Read? && ReadNumber(t, 0).next == |t| then Token(NumberType) else NoToken
    else if t == NULL then Token(NullType)
    else if t == TRUE then Token(TrueType)
    else if t == FALSE then Token(FalseType)
    else NoToken
  }

  predicate IsOpen(c: int) {
    c == LBRACE || c == LBRACKET
  }

  predicate IsClose(c: int) {
    c == RBRACE || c == RBRACKET
  }

  /** kason_stream_container_match. */
  predicate Matches(open: int, close: int) {
    (open == LBRACE && close == RBRACE) || (open == LBRACKET && close == RBRACKET)
  }

  function NameOf(st: State): Name {
    if st.hasKey then Name(st.key) else NoName
  }

  /** kason_stream_clear_scratch. */
  function Cleared(st: State): State {
    st.(hasKey := false, key := [], value := [], hexLeft := 0, stack := [])
  }

  function AfterSeparator(mode: Mode): Phase {
    if mode == ObjectMode then FindKeyBegin else FindValueBegin
  }

  predicate InList(mode: Mode) {
    mode == ObjectMode || mode == ArrayMode
  }

  /** kason_stream_commit_string. */
  function CommitString(st: State): Outcome {
    if !ValidBody(st.value) then Reject()
    else
      var done := Cleared(st);
      Run(if InList(st.mode) then done.(hasEntries := true, phase := FindParamSep) else done.(phase := Complete),
        [StreamEvent(StreamValue, StringType, NameOf(st), st.value)])
  }

  /** kason_stream_commit_generic. */
  function CommitGeneric(st: State, delimiter: int): Outcome {
    match GenericType(st.value)
    case NoToken => Reject()
    case Token(t) =>
      var done := Cleared(st);
      var next :=
        if st.mode == GenericMode then done.(phase := Complete)
        else if delimiter == COMMA then done.(hasEntries := true, phase := AfterSeparator(st.mode))
        else if delimiter == EndToken(st.mode) as int then done.(hasEntries := true, phase := Complete)
        else done.(hasEntries := true, phase := FindParamSep);
      Run(next, [StreamEvent(StreamValue, t, NameOf(st), st.value)])
  }

  predicate GenericDelimiter(mode: Mode, c: int) {
    if InList(mode) then c == COMMA || c == EndToken(mode) as int || IsWhitespace(c)
    else mode == GenericMode && IsWhitespace(c)
  }

  function StepRoot(st: State, c: Byte): Outcome {
    if IsWhitespace(c) then Stay(st)
    else if c == LBRACE then Stay(st.(mode := ObjectMode, phase := FindKeyBegin))
    else if c == LBRACKET then Stay(st.(mode := ArrayMode, phase := FindValueBegin))
    else if c == QUOTE then Stay(st.(mode := StringMode, value := [], phase := FindStringEnd))
    else Stay(st.(mode := GenericMode, value := [c], phase := FindGenericEnd))
  }

  function StepKeyBegin(st: State, c: Byte): Outcome {
    if IsWhitespace(c) then Stay(st)
    else if c == RBRACE && !st.hasEntries then Stay(st.(phase := Complete))
    else if c == QUOTE then Stay(Cleared(st).(phase := FindKeyEnd))
    else Reject()
  }

  function StepKeyEnd(st: State, c: Byte): Outcome {
    if c == BACKSLASH then Stay(st.(key := st.key + [c], phase := KeyEscape, hexLeft := 0))
    else if c == QUOTE then
      if ValidBody(st.key) then Stay(st.(hasKey := true, phase := FindValueSep)) else Reject()
    else if IsControl(c) then Reject()
    else Stay(st.(key := st.key + [c]))
  }

  /** kason_stream_process_escape, for keys. */
  function StepKeyEscape(st: State, c: Byte): Outcome {
    var longer := st.(key := st.key + [c]);
    if st.hexLeft > 0 then
      if !IsHexDigit(c) then Reject()
      else if st.hexLeft == 1 then Stay(longer.(hexLeft := 0, phase := FindKeyEnd))
      else Stay(longer.(hexLeft := st.hexLeft - 1))
    else if c == LOWER_U then Stay(longer.(hexLeft := 4))
    else if IsSimpleEscape(c) then Stay(longer.(phase := FindKeyEnd))
    else Reject()
  }

  function StepValueSep(st: State, c: Byte): Outcome {
    if IsWhitespace(c) then Stay(st)
    else if c == COLON then Stay(st.(phase := FindValueBegin))
    else Reject()
  }

  function OpenType(c: Byte): Type {
    if c == LBRACE then ObjectType else ArrayType
  }

  /** kason_stream_start_container. */
  function StartContainer(st: State, c: Byte): Outcome {
    Run(Cleared(st).(stack := [c], containerType := OpenType(c), inString := false, str := FRESH, phase := InContainer),
      [StreamEvent(StreamBegin, OpenType(c), NameOf(st), [c])])
  }

  function StepValueBegin(st: State, c: Byte): Outcome {
    if IsWhitespace(c) then Stay(st)
    else if c == EndToken(st.mode) then
      if st.mode == ArrayMode && !st.hasEntries then Stay(st.(phase := Complete)) else Reject()
    else if c == COMMA then Reject()
    else if c == QUOTE then Stay(st.(value := [], phase := FindStringEnd))
    else if IsOpen(c) then StartContainer(st, c)
    else Stay(st.(value := [c], phase := FindGenericEnd))
  }

  function StepStringEnd(st: State, c: Byte): Outcome {
    if c == BACKSLASH then Stay(st.(value := st.value + [c], phase := StringEscape, hexLeft := 0))
    else if c == QUOTE then CommitString(st)
    else if IsControl(c) then Reject()
    else Stay(st.(value := st.value + [c]))
  }

  /** kason_stream_process_escape, for string values. */
  function StepStringEscape(st: State, c: Byte): Outcome {
    var longer := st.(value := st.value + [c]);
    if st.hexLeft > 0 then
      if !IsHexDigit(c) then Reject()
      else if st.hexLeft == 1 then Stay(longer.(hexLeft := 0, phase := FindStringEnd))
      else Stay(longer.(hexLeft := st.hexLeft - 1))
    else if c == LOWER_U then Stay(longer.(hexLeft := 4))
    else if IsSimpleEscape(c) then Stay(longer.(phase := FindStringEnd))
    else Reject()
  }

  function StepGenericEnd(st: State, c: Byte): Outcome {
    if GenericDelimiter(st.mode, c) then CommitGeneric(st, c) else Stay(st.(value := st.value + [c]))
  }

  function StepParamSep(st: State, c: Byte): Outcome {
    if IsWhitespace(c) then Stay(st)
    else if c == COMMA then Stay(st.(phase := AfterSeparator(st.mode)))
    else if c == EndToken(st.mode) then Stay(st.(phase := Complete))
    else Reject()
  }

  function Part(st: State, t: Text): StreamEvent {
    StreamEvent(StreamPart, st.containerType, NoName, t)
  }

  /** The bytes of `t` as single-byte fragments. */
  function Parts(containerType: Type, t: Text): seq<StreamEvent> {
    seq(|t|, k requires 0 <= k < |t| => StreamEvent(StreamPart, containerType, NoName, [t[k]]))
  }

  /** One byte of a child container: strings are checked, brackets are matched,
      and nothing else is. */
  function StepContainer(st: State, c: Byte): Outcome {
    var part := [Part(st, [c])];
    if st.inString then
      match StringStep(st.str, c)
      case Failed => Reject()
      case Closed => Run(st.(inString := false), part)
      case Goes(a) => Run(st.(str := a), part)
    else if c == QUOTE then Run(st.(inString := true, str := FRESH), part)
    else if IsOpen(c) then Run(st.(stack := st.stack + [c]), part)
    else if IsClose(c) then
      if st.stack == [] || !Matches(st.stack[|st.stack| - 1], c) then Reject()
      else if |st.stack| == 1 then
        Run(Cleared(st).(hasEntries := true, phase := FindParamSep),
          [StreamEvent(StreamEnd, st.containerType, NoName, [c])])
      else Run(st.(stack := st.stack[..|st.stack| - 1]), part)
    else Run(st, part)
  }

  /** One byte. */
  function Step(st: State, c: Byte): Outcome {
    match st.phase
    case FindRoot => StepRoot(st, c)
    case FindKeyBegin => StepKeyBegin(st, c)
    case FindKeyEnd => StepKeyEnd(st, c)
    case KeyEscape => StepKeyEscape(st, c)
    case FindValueSep => StepValueSep(st, c)
    case FindValueBegin => StepValueBegin(st, c)
    case FindStringEnd => StepStringEnd(st, c)
    case StringEscape => StepStringEscape(st, c)
    case FindGenericEnd => StepGenericEnd(st, c)
    case FindParamSep => StepParamSep(st, c)
    case InContainer => StepContainer(st, c)
    case Complete => if IsWhitespace(c) then Stay(st) else Reject()
  }

  function Then(o: Outcome, c: Byte): Outcome {
    match o
    case Fail(es) => o
    case Run(st, es) =>
      match Step(st, c)
      case Fail(es') => Fail(es + es')
      case Run(st', es') => Run(st', es + es')
  }

  /** The machine after the bytes of `t`. */
  function RunText(st: State, t: Text): (o: Outcome) {
    if t == [] then Run(st, []) else Then(RunText(st, t[..|t| - 1]), t[|t| - 1])
  }

  /** kason_stream_finish. */
  function Finish(o: Outcome): Outcome {
    match o
    case Fail(_) => o
    case Run(st, es) =>
      if st.phase == Complete then o
      else if st.phase == FindGenericEnd && st.mode == GenericMode then
        match CommitGeneric(st, 0)
        case Fail(es') => Fail(es + es')
        case Run(st', es') => Run(st', es + es')
      else Fail(es)
  }

  /** What the machine makes of a whole input. */
  function Verdict(s: Text): Outcome {
    Finish(RunText(INITIAL, s))
  }

  // ------------------------------------------------------- composition

  function After(o: Outcome, t: Text): Outcome {
    match o
    case Fail(_) => o
    case Run(st, es) =>
      match RunText(st, t)
      case Fail(es') => Fail(es + es')
      case Run(st', es') => Run(st', es + es')
  }

  lemma {:induction false} RunConcat(st: State, a: Text, b: Text)
    ensures RunText(st, a + b) == After(RunText(st, a), b)
    decreases |b|
  {
    hide Step;
    if b == [] {
      assert a + b == a;
    } else {
      var b', c := b[..|b| - 1], b[|b| - 1];
      RunConcat(st, a, b');
      assert (a + b)[..|a + b| - 1] == a + b' && (a + b)[|a + b| - 1] == c;
      assert RunText(st, a + b) == Then(RunText(st, a + b'), c);
      ThenAfter(RunText(st, a), b', c);
      assert b == b' + [c];
    }
  }

  lemma ThenAfter(o: Outcome, t: Text, c: Byte)
    ensures Then(After(o, t), c) == After(o, t + [c])
  {
    hide Step;
    assert (t + [c])[..|t + [c]| - 1] == t;
    if o.Run? && RunText(o.state, t).Run? {
      var es' := RunText(o.state, t).events;
      match Step(RunText(o.state, t).state, c)
      case Fail(e) => assert o.events + es' + e == o.events + (es' + e);
      case Run(_, e) => assert o.events + es' + e == o.events + (es' + e);
    }
  }

  lemma RunOne(st: State, c: Byte)
    ensures RunText(st, [c]) == Step(st, c)
  {
    hide Step;
    assert [c][..0] == [];
    assert RunText(st, []) == Run(st, []);
  }

  /** The bytes the machine holds on to: what scratch must be able to store. */
  function Need(st: State): nat {
    match st.phase
    case FindKeyEnd => |st.key|
    case KeyEscape => |st.key|
    case FindStringEnd => |st.key| + |st.value|
    case StringEscape => |st.key| + |st.value|
    case FindGenericEnd => |st.key| + |st.value|
    case FindValueSep => |st.key|
    case FindValueBegin => |st.key|
    case InContainer => |st.stack|
    case _ => 0
  }

  /** Scratch of `size` bytes, the first of which is never used, is enough for `s`
      however it is cut into chunks. */
  ghost predicate Fits(st: State, s: Text, size: nat) {
    forall n | 0 <= n <= |s| :: RunText(st, s[..n]).Run? ==> Need(RunText(st, s[..n]).state) <= size - 1
  }

  // ------------------------------------------------- runs of plain bytes

  /** A byte that neither ends nor escapes a string and is no control character. */
  predicate IsPlainByte(b: int) {
    b >= 0x20 && b != QUOTE && b != BACKSLASH
  }

  lemma {:induction false} PlainKeyRun(st: State, t: Text)
    requires st.phase == FindKeyEnd && forall k | 0 <= k < |t| :: IsPlainByte(t[k])
    ensures RunText(st, t) == Run(st.(key := st.key + t), [])
    decreases |t|
  {
    if t == [] {
      assert st.key + t == st.key;
    } else {
      PlainKeyRun(st, t[..|t| - 1]);
      assert st.key + t == st.key + t[..|t| - 1] + [t[|t| - 1]];
    }
  }

  lemma {:induction false} PlainStringRun(st: State, t: Text)
    requires st.phase == FindStringEnd && forall k | 0 <= k < |t| :: IsPlainByte(t[k])
    ensures RunText(st, t) == Run(st.(value := st.value + t), [])
    decreases |t|
  {
    if t == [] {
      assert st.value + t == st.value;
    } else {
      PlainStringRun(st, t[..|t| - 1]);
      assert st.value + t == st.value + t[..|t| - 1] + [t[|t| - 1]];
    }
  }

  lemma {:induction false} GenericRun(st: State, t: Text)
    requires st.phase == FindGenericEnd && forall k | 0 <= k < |t| :: !GenericDelimiter(st.mode, t[k])
    ensures RunText(st, t) == Run(st.(value := st.value + t), [])
    decreases |t|
  {
    if t == [] {
      assert st.value + t == st.value;
    } else {
      GenericRun(st, t[..|t| - 1]);
      assert st.value + t == st.value + t[..|t| - 1] + [t[|t| - 1]];
    }
  }
}
