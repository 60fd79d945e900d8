/** From an accepted run of the stream back to a syntax tree, given that the child
    containers passed through are JSON values. */
module StreamSound {
  import opened Bytes
  import opened JsonString
  import opened Number
  import opened Grammar
  import opened Events
  import opened Modes
  import opened StringAutomaton
  import opened StreamSpec
  import opened StreamReads
  import opened StreamExact
  import Stream
  import StreamChunks

  // ------------------------------------------------------------ what is left

  /** What becomes of the bytes from `i` on. */
  function Rest(st: State, s: Text, i: nat): Outcome
    requires i <= |s|
  {
    Finish(RunText(st, s[i..]))
  }

  function Pre(es: seq<StreamEvent>, o: Outcome): Outcome {
    if o.Fail? then Fail(es + o.events) else Run(o.state, es + o.events)
  }

  lemma PreNothing(o: Outcome)
    ensures Pre([], o) == o
  {
    assert [] + o.events == o.events;
  }

  lemma PreTwice(a: seq<StreamEvent>, b: seq<StreamEvent>, o: Outcome)
    ensures Pre(a, Pre(b, o)) == Pre(a + b, o)
  {
    assert a + (b + o.events) == a + b + o.events;
  }

  lemma FinishPre(es: seq<StreamEvent>, o: Outcome)
    ensures Finish(Pre(es, o)) == Pre(es, Finish(o))
  {
    if o.Run? && o.state.phase == FindGenericEnd && o.state.mode == GenericMode {
      var c := CommitGeneric(o.state, 0);
      assert es + (o.events + c.events) == es + o.events + c.events;
    }
  }

  lemma RestStep(st: State, s: Text, i: nat)
    requires i < |s|
    ensures Step(st, s[i]).Fail? ==> Rest(st, s, i).Fail?
    ensures Step(st, s[i]).Run? ==> Rest(st, s, i) == Pre(Step(st, s[i]).events, Rest(Step(st, s[i]).state, s, i + 1))
  {
    hide Step, RunText, Finish;
    var t := s[i + 1..];
    assert s[i..] == [s[i]] + t;
    RunConcat(st, [s[i]], t);
    RunOne(st, s[i]);
    var o := Step(st, s[i]);
    if o.Run? {
      assert After(o, t) == Pre(o.events, RunText(o.state, t));
      FinishPre(o.events, RunText(o.state, t));
    } else {
      FailStays(o);
    }
  }

  lemma FailStays(o: Outcome)
    requires o.Fail?
    ensures Finish(o) == o
  {
  }

  lemma RestEnd(st: State, s: Text)
    ensures Rest(st, s, |s|) == Finish(Run(st, []))
  {
    assert s[|s|..] == [];
  }

  /** A step without events. */
  lemma RestStay(st: State, s: Text, i: nat, st': State)
    requires i < |s| && Step(st, s[i]) == Stay(st')
    ensures Rest(st, s, i) == Rest(st', s, i + 1)
  {
    hide Step, Finish, RunText;
    RestStep(st, s, i);
    PreNothing(Rest(st', s, i + 1));
  }

  lemma {:induction false} RestSpace(st: State, s: Text, i: nat)
    requires i <= |s| && SkipsSpace(st.phase)
    ensures SkipWs(s, i) <= |s| && Rest(st, s, i) == Rest(st, s, SkipWs(s, i))
    decreases |s| - i
  {
    hide Rest;
    if i < |s| && IsWhitespace(s[i]) {
      SpaceStays(st, s[i]);
      RestStay(st, s, i, st);
      RestSpace(st, s, i + 1);
    }
  }

  lemma SpaceStays(st: State, c: Byte)
    requires SkipsSpace(st.phase) && IsWhitespace(c)
    ensures Step(st, c) == Stay(st)
  {
  }

  /** Only a complete document or a bare root token may end. */
  lemma NoEnd(st: State, s: Text)
    requires st.phase != Complete && !(st.phase == FindGenericEnd && st.mode == GenericMode)
    ensures Rest(st, s, |s|).Fail?
  {
    RestEnd(st, s);
  }

  lemma SpaceIs(s: Text, i: nat)
    requires i <= |s|
    ensures SkipWs(s, i) <= |s| && AllWhitespace(s[i..SkipWs(s, i)]) && Occurs(s, i, s[i..SkipWs(s, i)])
  {
  }

  // ----------------------------------------------------------------- strings

  /** A name that is being read ends at a quote, and is valid. */
  lemma {:induction false} KeyEnds(st: State, s: Text, b: nat, i: nat) returns (j: nat, after: State)
    requires b <= i <= |s| && st.key == s[b..i] && (st.phase == FindKeyEnd || st.phase == KeyEscape) && Rest(st, s, i).Run?
    ensures i <= j < |s| && s[j] == QUOTE && ValidBody(s[b..j])
    ensures after.phase == FindValueSep && after.mode == st.mode && Rest(st, s, i) == Rest(after, s, j + 1)
    decreases |s| - i
  {
    hide Rest, ValidBody, RunText;
    if i == |s| {
      NoEnd(st, s);
    }
    var c := s[i];
    RestStep(st, s, i);
    assert s[b..i + 1] == s[b..i] + [c];
    if st.phase == FindKeyEnd && c == QUOTE {
      j := i;
      after := st.(hasKey := true, phase := FindValueSep);
      RestStay(st, s, i, after);
    } else {
      var next := Step(st, c).state;
      RestStay(st, s, i, next);
      j, after := KeyEnds(next, s, b, i + 1);
    }
  }

  /** A string value that is being read ends at a quote, and is valid. */
  lemma {:induction false} StringEnds(st: State, s: Text, b: nat, i: nat) returns (j: nat, after: State, e: StreamEvent)
    requires b <= i <= |s| && st.value == s[b..i] && (st.phase == FindStringEnd || st.phase == StringEscape) && Rest(st, s, i).Run?
    ensures i <= j < |s| && s[j] == QUOTE && ValidBody(s[b..j]) && e.kind.StreamValue?
    ensures after.mode == st.mode && Rest(st, s, i) == Pre([e], Rest(after, s, j + 1))
    ensures if InList(st.mode) then after.phase == FindParamSep && after.hasEntries else after.phase == Complete
    decreases |s| - i
  {
    hide Rest, ValidBody, RunText;
    if i == |s| {
      NoEnd(st, s);
    }
    var c := s[i];
    RestStep(st, s, i);
    assert s[b..i + 1] == s[b..i] + [c];
    if st.phase == FindStringEnd && c == QUOTE {
      j := i;
      var o := Step(st, c);
      after, e := o.state, o.events[0];
      assert o.events == [e];
    } else {
      var next := Step(st, c).state;
      RestStay(st, s, i, next);
      j, after, e := StringEnds(next, s, b, i + 1);
    }
  }

  // -------------------------------------------------------------- bare tokens

  lemma TokenValue(x: Text) returns (v: Value)
    requires GenericType(x).Token?
    ensures ValueOk(v) && IsBare(v) && PrintValue(v) == x
  {
    hide ReadNumber, NumberOk, PrintNumber;
    if x[0] == MINUS || IsDigit(x[0]) {
      ReadNumberSound(x, 0);
      v := Num(ReadNumber(x, 0).value);
      assert x[0..|x|] == x;
    } else if x == NULL {
      v := Null;
    } else if x == TRUE {
      v := True;
    } else {
      v := False;
    }
  }

  /** The delimiter of a bare token does behind the token what it does behind a value. */
  lemma DelimiterAfter(st: State, c: Byte)
    requires st.phase == FindGenericEnd && InList(st.mode) && GenericDelimiter(st.mode, c) && Step(st, c).Run?
    ensures GenericType(st.value).Token?
    ensures var after := Cleared(st).(hasEntries := true, phase := FindParamSep);
      Step(after, c).Run? && Step(st, c).state == Step(after, c).state && Step(after, c).events == [] &&
      |Step(st, c).events| == 1 && Step(st, c).events[0].kind.StreamValue?
  {
    hide GenericType;
  }

  /** A bare token inside a list ends at its delimiter. */
  lemma {:induction false} TokenEnds(st: State, s: Text, b: nat, i: nat) returns (j: nat, after: State, e: StreamEvent)
    requires b < i <= |s| && st.value == s[b..i] && st.phase == FindGenericEnd && InList(st.mode) && Rest(st, s, i).Run?
    ensures i <= j < |s| && GenericType(s[b..j]).Token? && e.kind.StreamValue?
    ensures after.phase == FindParamSep && after.mode == st.mode && after.hasEntries
    ensures Rest(st, s, i) == Pre([e], Rest(after, s, j))
    decreases |s| - i
  {
    hide Rest, GenericType, RunText;
    if i == |s| {
      NoEnd(st, s);
    }
    var c := s[i];
    RestStep(st, s, i);
    if GenericDelimiter(st.mode, c) {
      DelimiterAfter(st, c);
      j, after, e := i, Cleared(st).(hasEntries := true, phase := FindParamSep), Step(st, c).events[0];
      assert Step(st, c).events == [e];
      RestStay(after, s, i, Step(after, c).state);
    } else {
      assert s[b..i + 1] == s[b..i] + [c];
      var next := st.(value := st.value + [c]);
      RestStay(st, s, i, next);
      j, after, e := TokenEnds(next, s, b, i + 1);
    }
  }

  // ----------------------------------------------------------- child containers

  /** One byte of a container that stays open. */
  lemma ContainerStep(st: State, c: Byte)
    requires st.phase == InContainer && Step(st, c).Run?
    ensures var o := Step(st, c);
      o.state.mode == st.mode &&
      (o.state.phase == InContainer ==> o.events == [StreamEvent(StreamPart, st.containerType, NoName, [c])] && o.state.containerType == st.containerType) &&
      (o.state.phase != InContainer ==>
        o.state.phase == FindParamSep && o.state.hasEntries && o.events == [StreamEvent(StreamEnd, st.containerType, NoName, [c])])
  {
    hide StringStep;
  }

  /** A container that is passed through ends, and its bytes are its events. */
  lemma {:induction false} ContainerEnds(st: State, s: Text, i: nat) returns (j: nat, after: State)
    requires i <= |s| && st.phase == InContainer && Rest(st, s, i).Run?
    ensures i <= j < |s| && after.phase == FindParamSep && after.mode == st.mode && after.hasEntries
    ensures Rest(st, s, i) ==
      Pre(Parts(st.containerType, s[i..j]) + [StreamEvent(StreamEnd, st.containerType, NoName, [s[j]])], Rest(after, s, j + 1))
    decreases |s| - i
  {
    hide Rest, Step, RunText;
    if i == |s| {
      NoEnd(st, s);
    }
    var c := s[i];
    RestStep(st, s, i);
    ContainerStep(st, c);
    var o := Step(st, c);
    if o.state.phase == InContainer {
      j, after := ContainerEnds(o.state, s, i + 1);
      var tail := Parts(st.containerType, s[i + 1..j]) + [StreamEvent(StreamEnd, st.containerType, NoName, [s[j]])];
      PreTwice(o.events, tail, Rest(after, s, j + 1));
      PartsFront(st.containerType, s, i, j);
      assert o.events + tail == Parts(st.containerType, s[i..j]) + [StreamEvent(StreamEnd, st.containerType, NoName, [s[j]])];
    } else {
      j, after := i, o.state;
      assert s[i..i] == [];
      assert Parts(st.containerType, []) + o.events == o.events;
    }
  }

  lemma PartsFront(containerType: Type, s: Text, i: nat, j: nat)
    requires i < j <= |s|
    ensures Parts(containerType, s[i..j]) == [StreamEvent(StreamPart, containerType, NoName, [s[i]])] + Parts(containerType, s[i + 1..j])
  {
    assert s[i..j] == [s[i]] + s[i + 1..j];
  }

  // ------------------------------------------------------------------- values

  lemma OccursRange(s: Text, i: nat, j: nat, t: Text)
    requires i <= j <= |s| && s[i..j] == t
    ensures Occurs(s, i, t) && i + |t| == j
  {
  }

  /** A body that is valid is the print of its characters. */
  lemma BodyValue(s: Text, i: nat, j: nat) returns (cs: seq<Char>)
    requires i < j < |s| && s[i] == QUOTE && s[j] == QUOTE && ValidBody(s[i + 1..j])
    ensures CharsOk(cs) && Occurs(s, i, Quoted(cs)) && i + |Quoted(cs)| == j + 1
  {
    hide ValidFrom, PrintChars, CharsOk, Occurs;
    var body := s[i + 1..j];
    ValidIsPrinted(body, 0);
    assert body[0..] == body;
    cs := CharsFrom(body, 0);
    assert s[i..j + 1] == [QUOTE] + (body + [QUOTE]);
    OccursRange(s, i, j + 1, Quoted(cs));
  }

  /** The first byte of a value inside a list. */
  lemma ValueBegins(st: State, c: Byte)
    requires st.phase == FindValueBegin && InList(st.mode) && !IsWhitespace(c) && c != EndToken(st.mode) && Step(st, c).Run?
    ensures var o := Step(st, c);
      (c == QUOTE ==> o == Stay(st.(value := [], phase := FindStringEnd))) &&
      (IsOpen(c) ==>
        o.state.phase == InContainer && o.state.mode == st.mode && o.state.containerType == OpenType(c) &&
        o.events == [StreamEvent(StreamBegin, OpenType(c), NameOf(st), [c])]) &&
      (c != QUOTE && !IsOpen(c) ==> o == Stay(st.(value := [c], phase := FindGenericEnd)))
  {
  }

  /** One value inside a list, if containers are JSON. */
  lemma ValueSound(st: State, s: Text, i: nat) returns (v: Value, after: State)
    requires i < |s| && st.phase == FindValueBegin && InList(st.mode) && !IsWhitespace(s[i]) && s[i] != EndToken(st.mode)
    requires Rest(st, s, i).Run? && Fine(Rest(st, s, i).events)
    ensures ValueOk(v) && Occurs(s, i, PrintValue(v)) && Height(v) < MAX_NESTING && i + |PrintValue(v)| <= |s|
    ensures after.phase == FindParamSep && after.mode == st.mode && after.hasEntries
    ensures Rest(after, s, i + |PrintValue(v)|).Run? && Fine(Rest(after, s, i + |PrintValue(v)|).events)
  {
    hide Rest, Fine, Occurs, ValueOk, PrintValue, Height;
    if s[i] == QUOTE {
      v, after := StringSound(st, s, i);
    } else if IsOpen(s[i]) {
      v, after := ContainerSound(st, s, i);
    } else {
      v, after := TokenSound(st, s, i);
    }
  }

  lemma TokenSound(st: State, s: Text, i: nat) returns (v: Value, after: State)
    requires i < |s| && st.phase == FindValueBegin && InList(st.mode) && !IsWhitespace(s[i]) && s[i] != EndToken(st.mode)
    requires s[i] != QUOTE && !IsOpen(s[i]) && Rest(st, s, i).Run? && Fine(Rest(st, s, i).events)
    ensures ValueOk(v) && Occurs(s, i, PrintValue(v)) && Height(v) < MAX_NESTING && i + |PrintValue(v)| <= |s|
    ensures after.phase == FindParamSep && after.mode == st.mode && after.hasEntries
    ensures Rest(after, s, i + |PrintValue(v)|).Run? && Fine(Rest(after, s, i + |PrintValue(v)|).events)
  {
    hide Rest, Step, Slices, AllChildTexts, GenericType, Occurs, PrintValue, ValueOk, Height, IsBare;
    RestStep(st, s, i);
    ValueBegins(st, s[i]);
    RestStay(st, s, i, Step(st, s[i]).state);
    assert s[i..i + 1] == [s[i]];
    var j, a, e := TokenEnds(Step(st, s[i]).state, s, i, i + 1);
    v := TokenValue(s[i..j]);
    after := a;
    OccursRange(s, i, j, PrintValue(v));
    SlicesOfValue(e, Rest(after, s, j).events);
    BareIsLow(v);
  }

  lemma BareIsLow(v: Value)
    requires IsBare(v) || v.Str?
    ensures Height(v) < MAX_NESTING
  {
  }

  lemma StringSound(st: State, s: Text, i: nat) returns (v: Value, after: State)
    requires i < |s| && st.phase == FindValueBegin && InList(st.mode) && s[i] == QUOTE && s[i] != EndToken(st.mode)
    requires Rest(st, s, i).Run? && Fine(Rest(st, s, i).events)
    ensures ValueOk(v) && Occurs(s, i, PrintValue(v)) && Height(v) < MAX_NESTING && i + |PrintValue(v)| <= |s|
    ensures after.phase == FindParamSep && after.mode == st.mode && after.hasEntries
    ensures Rest(after, s, i + |PrintValue(v)|).Run? && Fine(Rest(after, s, i + |PrintValue(v)|).events)
  {
    hide Rest, Step, Slices, ValidBody, AllChildTexts, Occurs, PrintChars, CharsOk;
    RestStep(st, s, i);
    ValueBegins(st, s[i]);
    RestStay(st, s, i, Step(st, s[i]).state);
    assert s[i + 1..i + 1] == [];
    var j, a, e := StringEnds(Step(st, s[i]).state, s, i + 1, i + 1);
    var cs := BodyValue(s, i, j);
    v, after := Str(cs), a;
    SlicesOfValue(e, Rest(after, s, j + 1).events);
  }

  lemma ContainerSound(st: State, s: Text, i: nat) returns (v: Value, after: State)
    requires i < |s| && st.phase == FindValueBegin && InList(st.mode) && IsOpen(s[i]) && s[i] != EndToken(st.mode)
    requires Rest(st, s, i).Run? && Fine(Rest(st, s, i).events)
    ensures ValueOk(v) && Occurs(s, i, PrintValue(v)) && Height(v) < MAX_NESTING && i + |PrintValue(v)| <= |s|
    ensures after.phase == FindParamSep && after.mode == st.mode && after.hasEntries
    ensures Rest(after, s, i + |PrintValue(v)|).Run? && Fine(Rest(after, s, i + |PrintValue(v)|).events)
  {
    hide Rest, Step, Slices, AllChildTexts, Occurs, ValueOk, PrintValue, Height, Parts;
    RestStep(st, s, i);
    ValueBegins(st, s[i]);
    var o := Step(st, s[i]);
    var j, a := ContainerEnds(o.state, s, i + 1);
    after := a;
    var begin, end := o.events[0], StreamEvent(StreamEnd, o.state.containerType, NoName, [s[j]]);
    var inner := s[i + 1..j];
    var rest := Rest(after, s, j + 1).events;
    assert o.events == [begin];
    PreTwice([begin], Parts(o.state.containerType, inner) + [end], Rest(after, s, j + 1));
    SlicesOfContainer(begin, inner, end, rest);
    var text := begin.text + inner + end.text;
    FineMore(text, Slices(rest, []));
    v :| ValueOk(v) && IsContainer(v) && PrintValue(v) == text && Height(v) < MAX_NESTING;
    assert text == s[i..j + 1];
    OccursRange(s, i, j + 1, text);
  }

  // ------------------------------------------------------------------ members

  function ListKind(mode: Mode): Kind {
    if mode == ObjectMode then Object else Array
  }

  /** Behind a value: white space, and then a comma or the closing bracket. */
  lemma SeparatorSound(st: State, s: Text, i: nat) returns (k: nat, after: State)
    requires i <= |s| && st.phase == FindParamSep && InList(st.mode) && st.hasEntries
    requires Rest(st, s, i).Run? && Fine(Rest(st, s, i).events)
    ensures k == SkipWs(s, i) < |s| && AllWhitespace(s[i..k]) && i <= k
    ensures s[k] == COMMA || s[k] == CloseOf(ListKind(st.mode))
    ensures after.mode == st.mode && after.hasEntries
    ensures after.phase == if s[k] == COMMA then AfterSeparator(st.mode) else Complete
    ensures Rest(after, s, k + 1).Run? && Fine(Rest(after, s, k + 1).events)
  {
    hide Rest, Slices, AllChildTexts, RunText;
    k := SkipWs(s, i);
    RestSpace(st, s, i);
    SpaceIs(s, i);
    if k == |s| {
      NoEnd(st, s);
    }
    RestStep(st, s, k);
    after := Step(st, s[k]).state;
    RestStay(st, s, k, after);
  }

  /** Behind a comma, and in front of a first member: white space, and no bracket. */
  lemma GapSound(st: State, s: Text, i: nat) returns (k: nat)
    requires i <= |s| && InList(st.mode) && st.phase == AfterSeparator(st.mode) && st.hasEntries
    requires Rest(st, s, i).Run? && Fine(Rest(st, s, i).events)
    ensures k == SkipWs(s, i) < |s| && AllWhitespace(s[i..k]) && i <= k && !IsWhitespace(s[k]) && s[k] != CloseOf(ListKind(st.mode))
    ensures Rest(st, s, k).Run? && Fine(Rest(st, s, k).events)
  {
    hide Rest, Slices, AllChildTexts, RunText;
    k := SkipWs(s, i);
    RestSpace(st, s, i);
    SpaceIs(s, i);
    if k == |s| {
      NoEnd(st, s);
    }
    RestStep(st, s, k);
  }

  /** The name of an object member with its colon. */
  lemma NameSound(st: State, s: Text, i: nat) returns (key: Key, n: nat, after: State)
    requires i < |s| && st.mode == ObjectMode && st.phase == FindKeyBegin && !IsWhitespace(s[i]) && s[i] != RBRACE
    requires Rest(st, s, i).Run? && Fine(Rest(st, s, i).events)
    ensures KeyOk(key, Object) && Occurs(s, i, PrintKey(key, Object)) && n == i + |PrintKey(key, Object)| < |s|
    ensures !IsWhitespace(s[n]) && after.phase == FindValueBegin && after.mode == ObjectMode && s[n] != RBRACE
    ensures Rest(after, s, n).Run? && Fine(Rest(after, s, n).events)
  {
    hide Rest, Fine, ValidBody, Occurs, PrintKey, CharsOk, RunText, AllWhitespace;
    RestStep(st, s, i);
    RestStay(st, s, i, Step(st, s[i]).state);
    assert s[i + 1..i + 1] == [];
    var j, named := KeyEnds(Step(st, s[i]).state, s, i + 1, i + 1);
    var cs := BodyValue(s, i, j);
    var k;
    k, n, after := ColonSound(named, s, j + 1);
    key := Key(cs, s[j + 1..k], s[k + 1..n]);
    KeyTogether(s, i, j, k, n, key);
  }

  /** The colon with the white space around it. */
  lemma ColonSound(st: State, s: Text, i: nat) returns (k: nat, n: nat, after: State)
    requires i <= |s| && st.mode == ObjectMode && st.phase == FindValueSep && Rest(st, s, i).Run?
    ensures i <= k < n < |s| && s[k] == COLON && AllWhitespace(s[i..k]) && AllWhitespace(s[k + 1..n])
    ensures !IsWhitespace(s[n]) && after.phase == FindValueBegin && after.mode == ObjectMode && s[n] != RBRACE
    ensures Rest(after, s, n) == Rest(st, s, i)
  {
    hide Rest, RunText, AllWhitespace;
    k := SkipWs(s, i);
    RestSpace(st, s, i);
    SpaceIs(s, i);
    if k == |s| {
      NoEnd(st, s);
    }
    RestStep(st, s, k);
    after := st.(phase := FindValueBegin);
    RestStay(st, s, k, after);
    n := SkipWs(s, k + 1);
    RestSpace(after, s, k + 1);
    SpaceIs(s, k + 1);
    if n == |s| {
      NoEnd(after, s);
    }
    RestStep(after, s, n);
  }

  lemma KeyTogether(s: Text, i: nat, j: nat, k: nat, n: nat, key: Key)
    requires i < j < k < n <= |s| || (i < j < k <= |s| && k < n <= |s|)
    requires key.Key? && CharsOk(key.chars) && key.before == s[j + 1..k] && key.after == s[k + 1..n] && s[k] == COLON
    requires AllWhitespace(key.before) && AllWhitespace(key.after)
    requires Occurs(s, i, Quoted(key.chars)) && i + |Quoted(key.chars)| == j + 1
    ensures KeyOk(key, Object) && Occurs(s, i, PrintKey(key, Object)) && i + |PrintKey(key, Object)| == n
  {
    hide CharsOk, Quoted, AllWhitespace;
    assert s[i..n] == s[i..j + 1] + (s[j + 1..k] + ([s[k]] + s[k + 1..n]));
  }

  lemma {:induction false} MembersSound(st: State, s: Text, i: nat) returns (ms: Members, n: nat)
    requires i < |s| && InList(st.mode) && st.phase == AfterSeparator(st.mode)
    requires !IsWhitespace(s[i]) && s[i] != CloseOf(ListKind(st.mode))
    requires Rest(st, s, i).Run? && Fine(Rest(st, s, i).events)
    ensures MembersOk(ms, ListKind(st.mode)) && Occurs(s, i, PrintMembers(ms, ListKind(st.mode))) && MembersHeight(ms) < MAX_NESTING
    ensures n == i + |PrintMembers(ms, ListKind(st.mode))| < |s| && s[n] == CloseOf(ListKind(st.mode)) && AllWhitespace(s[n + 1..])
    decreases |s| - i
  {
    hide Rest, Fine, Occurs, ValueOk, PrintValue, Height, AllWhitespace, PrintKey, KeyOk, SkipWs;
    var kind := ListKind(st.mode);
    var key, begin, valued := NoKey, i, st;
    if kind.Object? {
      key, begin, valued := NameSound(st, s, i);
    } else {
      NoNameHere(s, i);
    }
    var v, behind := ValueSound(valued, s, begin);
    var e := begin + |PrintValue(v)|;
    var k, next := SeparatorSound(behind, s, e);
    var m := Member(key, v, s[e..k]);
    MemberTogether(s, i, key, v, k, kind);
    if s[k] == COMMA {
      var g := GapSound(next, s, k + 1);
      var rest: Members;
      rest, n := MembersSound(next, s, g);
      OccursSlice(s, k + 1, g);
      ms := More(m, s[k + 1..g], rest);
      MoreTogether(s, i, m, s[k + 1..g], rest, kind);
    } else {
      ms, n := Last(m), k;
      CompleteSound(next, s, k + 1);
    }
  }

  lemma NoNameHere(s: Text, i: nat)
    requires i <= |s|
    ensures KeyOk(NoKey, Array) && Occurs(s, i, PrintKey(NoKey, Array)) && PrintKey(NoKey, Array) == []
  {
  }

  lemma MemberTogether(s: Text, i: nat, key: Key, v: Value, k: nat, kind: Kind)
    requires KeyOk(key, kind) && ValueOk(v) && Occurs(s, i, PrintKey(key, kind)) && Occurs(s, i + |PrintKey(key, kind)|, PrintValue(v))
    requires var e := i + |PrintKey(key, kind)| + |PrintValue(v)|; e <= k <= |s| && AllWhitespace(s[e..k])
    ensures var m := Member(key, v, s[i + |PrintKey(key, kind)| + |PrintValue(v)|..k]);
      MemberOk(m, kind) && Occurs(s, i, PrintMember(m, kind)) && i + |PrintMember(m, kind)| == k
  {
    hide KeyOk, ValueOk, PrintKey, PrintValue, Occurs, AllWhitespace;
    var e := i + |PrintKey(key, kind)| + |PrintValue(v)|;
    OccursSlice(s, e, k);
    OccursConcat(s, i + |PrintKey(key, kind)|, PrintValue(v), s[e..k]);
    OccursConcat(s, i, PrintKey(key, kind), PrintValue(v) + s[e..k]);
  }

  lemma MoreTogether(s: Text, i: nat, m: Member, gap: Text, rest: Members, kind: Kind)
    requires MemberOk(m, kind) && Occurs(s, i, PrintMember(m, kind)) && MembersOk(rest, kind) && AllWhitespace(gap)
    requires var k := i + |PrintMember(m, kind)|; At(s, k) == COMMA && Occurs(s, k + 1, gap) && Occurs(s, k + 1 + |gap|, PrintMembers(rest, kind))
    ensures MembersOk(More(m, gap, rest), kind) && Occurs(s, i, PrintMembers(More(m, gap, rest), kind))
  {
    hide MemberOk, PrintMember, Occurs, AllWhitespace;
    MoreOccurs(s, i, PrintMember(m, kind), gap, PrintMembers(rest, kind));
  }

  /** Behind the root only white space may follow. */
  lemma CompleteSound(st: State, s: Text, i: nat)
    requires i <= |s| && st.phase == Complete && Rest(st, s, i).Run?
    ensures AllWhitespace(s[i..])
  {
    hide Rest, RunText;
    RestSpace(st, s, i);
    SpaceIs(s, i);
    var k := SkipWs(s, i);
    if k < |s| {
      RestStep(st, s, k);
    } else {
      assert s[i..] == s[i..k];
    }
  }

  // ---------------------------------------------------------------- the root

  lemma Started(st: State, c: Byte)
    requires st == INITIAL && !IsWhitespace(c)
    ensures (c == LBRACE ==> Step(st, c) == Stay(st.(mode := ObjectMode, phase := FindKeyBegin)))
    ensures (c == LBRACKET ==> Step(st, c) == Stay(st.(mode := ArrayMode, phase := FindValueBegin)))
    ensures (c == QUOTE ==> Step(st, c) == Stay(st.(mode := StringMode, value := [], phase := FindStringEnd)))
    ensures (c != LBRACE && c != LBRACKET && c != QUOTE ==>
      Step(st, c) == Stay(st.(mode := GenericMode, value := [c], phase := FindGenericEnd)))
  {
  }

  /** A root container from its opening bracket on. */
  lemma RootSound(st: State, s: Text, i: nat) returns (v: Value)
    requires i < |s| && InList(st.mode) && s[i] == OpenOf(ListKind(st.mode)) && st.phase == AfterSeparator(st.mode) && !st.hasEntries
    requires Rest(st, s, i + 1).Run? && Fine(Rest(st, s, i + 1).events)
    ensures ValueOk(v) && IsContainer(v) && Height(v) <= MAX_NESTING && Occurs(s, i, PrintValue(v)) && i + |PrintValue(v)| <= |s|
    ensures AllWhitespace(s[i + |PrintValue(v)|..])
  {
    hide Rest, Fine, Occurs, AllWhitespace, PrintValue, ValueOk, RunText;
    var kind := ListKind(st.mode);
    var k := SkipWs(s, i + 1);
    RestSpace(st, s, i + 1);
    SpaceIs(s, i + 1);
    if k == |s| {
      NoEnd(st, s);
    }
    if s[k] == CloseOf(kind) {
      v := Empty(kind, s[i + 1..k]);
      RestStay(st, s, k, st.(phase := Complete));
      CompleteSound(st.(phase := Complete), s, k + 1);
      EmptyTogether(s, i, k, kind);
    } else {
      var ms, n := MembersSound(st, s, k);
      v := Filled(kind, s[i + 1..k], ms);
      RootTogether(s, i, k, n, kind, ms);
    }
  }

  lemma EmptyTogether(s: Text, i: nat, k: nat, kind: Kind)
    requires i < k < |s| && s[i] == OpenOf(kind) && s[k] == CloseOf(kind) && AllWhitespace(s[i + 1..k])
    ensures var v := Empty(kind, s[i + 1..k]);
      ValueOk(v) && Height(v) == 0 && Occurs(s, i, PrintValue(v)) && i + |PrintValue(v)| == k + 1
  {
    hide AllWhitespace, Occurs;
    var ws := s[i + 1..k];
    OccursByte(s, i, OpenOf(kind));
    OccursByte(s, k, CloseOf(kind));
    OccursSlice(s, i + 1, k);
    OccursConcat(s, i + 1, ws, [CloseOf(kind)]);
    OccursConcat(s, i, [OpenOf(kind)], ws + [CloseOf(kind)]);
  }

  lemma RootTogether(s: Text, i: nat, k: nat, n: nat, kind: Kind, ms: Members)
    requires i < k <= n < |s| && s[i] == OpenOf(kind) && s[n] == CloseOf(kind) && AllWhitespace(s[i + 1..k])
    requires MembersOk(ms, kind) && Occurs(s, k, PrintMembers(ms, kind)) && k + |PrintMembers(ms, kind)| == n
    ensures var v := Filled(kind, s[i + 1..k], ms);
      ValueOk(v) && Height(v) == 1 + MembersHeight(ms) && Occurs(s, i, PrintValue(v)) && i + |PrintValue(v)| == n + 1
  {
    hide PrintMembers, MembersOk, AllWhitespace, MembersHeight, Occurs;
    var ws, x := s[i + 1..k], PrintMembers(ms, kind);
    OccursByte(s, i, OpenOf(kind));
    OccursByte(s, n, CloseOf(kind));
    OccursSlice(s, i + 1, k);
    OccursConcat(s, k, x, [CloseOf(kind)]);
    OccursConcat(s, i + 1, ws, x + [CloseOf(kind)]);
    OccursConcat(s, i, [OpenOf(kind)], ws + (x + [CloseOf(kind)]));
  }

  /** A bare root token, up to white space or the end. */
  lemma {:induction false} RootToken(st: State, s: Text, b: nat, i: nat) returns (j: nat)
    requires b < i <= |s| && st.value == s[b..i] && st.phase == FindGenericEnd && st.mode == GenericMode && Rest(st, s, i).Run?
    ensures i <= j <= |s| && GenericType(s[b..j]).Token? && AllWhitespace(s[j..])
    decreases |s| - i
  {
    hide Rest, GenericType, RunText, AllWhitespace;
    if i == |s| {
      RestEnd(st, s);
      j := i;
      assert s[j..] == [];
      NoSpaceLeft();
    } else {
      var c := s[i];
      RestStep(st, s, i);
      if IsWhitespace(c) {
        j := i;
        CompleteSound(Step(st, c).state, s, i + 1);
        SpaceFirst(s, i);
      } else {
        assert s[b..i + 1] == s[b..i] + [c];
        RestStay(st, s, i, st.(value := st.value + [c]));
        j := RootToken(st.(value := st.value + [c]), s, b, i + 1);
      }
    }
  }

  lemma NoSpaceLeft()
    ensures AllWhitespace([])
  {
  }

  lemma SpaceFirst(s: Text, i: nat)
    requires i < |s| && IsWhitespace(s[i]) && AllWhitespace(s[i + 1..])
    ensures AllWhitespace(s[i..])
  {
    assert s[i..] == [s[i]] + s[i + 1..];
  }

  /** The root of an accepted text whose child containers are JSON. */
  lemma RootValue(s: Text) returns (v: Value)
    requires Verdict(s).Run? && Fine(Verdict(s).events)
    ensures var i := SkipWs(s, 0);
      ValueOk(v) && Height(v) <= MAX_NESTING && Occurs(s, i, PrintValue(v)) && i + |PrintValue(v)| <= |s| &&
      AllWhitespace(s[..i]) && AllWhitespace(s[i + |PrintValue(v)|..])
  {
    hide Rest, Fine, Occurs, AllWhitespace, PrintChars, CharsOk, ValueOk, PrintValue, RunText, Height, ValidBody, Step;
    assert s[0..] == s;
    VerdictIsRest(s);
    var i := SkipWs(s, 0);
    RestSpace(INITIAL, s, 0);
    SpaceIs(s, 0);
    assert s[0..i] == s[..i];
    if i == |s| {
      NoEnd(INITIAL, s);
    }
    Started(INITIAL, s[i]);
    var st := Step(INITIAL, s[i]).state;
    RestStay(INITIAL, s, i, st);
    if s[i] == LBRACE || s[i] == LBRACKET {
      v := RootSound(st, s, i);
    } else {
      v := RootScalar(st, s, i);
    }
  }

  lemma RootScalar(st: State, s: Text, i: nat) returns (v: Value)
    requires i < |s| && s[i] != LBRACE && s[i] != LBRACKET && !IsWhitespace(s[i]) && Rest(st, s, i + 1).Run?
    requires st ==
      if s[i] == QUOTE then INITIAL.(mode := StringMode, value := [], phase := FindStringEnd)
      else INITIAL.(mode := GenericMode, value := [s[i]], phase := FindGenericEnd)
    ensures ValueOk(v) && Height(v) <= MAX_NESTING && Occurs(s, i, PrintValue(v)) && i + |PrintValue(v)| <= |s|
    ensures AllWhitespace(s[i + |PrintValue(v)|..])
  {
    hide Rest, Occurs, AllWhitespace, PrintChars, CharsOk, ValueOk, PrintValue, RunText, Height, ValidBody, GenericType, IsBare;
    if s[i] == QUOTE {
      assert s[i + 1..i + 1] == [];
      var j, after, e := StringEnds(st, s, i + 1, i + 1);
      var cs := BodyValue(s, i, j);
      v := Str(cs);
      StringValue(cs);
      CompleteSound(after, s, j + 1);
    } else {
      assert s[i..i + 1] == [s[i]];
      var j := RootToken(st, s, i, i + 1);
      v := TokenValue(s[i..j]);
      OccursRange(s, i, j, PrintValue(v));
      BareIsLow(v);
    }
  }

  lemma StringValue(cs: seq<Char>)
    requires CharsOk(cs)
    ensures ValueOk(Str(cs)) && PrintValue(Str(cs)) == Quoted(cs) && Height(Str(cs)) == 0
  {
  }

  lemma VerdictIsRest(s: Text)
    ensures Verdict(s) == Rest(INITIAL, s, 0)
  {
    assert s[0..] == s;
  }

  /** Exactly when an accepted text is JSON: when every slice that was passed through
      as a child container is a JSON value at depth at most MAX_NESTING - 1. */
  lemma AcceptedIsJson(s: Text)
    requires Verdict(s).Run?
    ensures IsJsonText(s) <==> Fine(Verdict(s).events)
  {
    hide Verdict, Fine, ValueOk, PrintValue, AllWhitespace, Height, Occurs;
    if IsJsonText(s) {
      JsonIsFine(s);
    }
    if Fine(Verdict(s).events) {
      var v := RootValue(s);
      var i := SkipWs(s, 0);
      var n := i + |PrintValue(v)|;
      var d := Document(s[..i], v, s[n..]);
      DocumentTogether(s, i, n, v);
    }
  }

  lemma DocumentTogether(s: Text, i: nat, n: nat, v: Value)
    requires i <= n <= |s| && ValueOk(v) && Occurs(s, i, PrintValue(v)) && n == i + |PrintValue(v)|
    requires AllWhitespace(s[..i]) && AllWhitespace(s[n..])
    ensures var d := Document(s[..i], v, s[n..]); DocumentOk(d) && PrintDocument(d) == s
  {
    hide ValueOk, PrintValue, AllWhitespace;
    assert s == s[..i] + (s[i..n] + s[n..]);
  }

  /** Feeding a document in chunks: with enough scratch the stream accepts it, and then
      it is a JSON text exactly when the reported child containers are JSON values. */
  method ParseAndJudge(chunks: seq<Text>, scratchSize: nat, policy: Stream.StreamPolicy)
    returns (r: Stream.FeedResult, log: seq<StreamEvent>)
    requires StreamChunks.NeverBreaks(policy) && scratchSize >= |StreamChunks.Concat(chunks)| + 2
    ensures r == Stream.Success ==> (IsJsonText(StreamChunks.Concat(chunks)) <==> AllChildTexts(Slices(log, [])))
    ensures r != Stream.Success ==> !IsJsonText(StreamChunks.Concat(chunks))
  {
    hide Verdict, AllChildTexts, IsJsonText, Slices, Fits, Stream.Flat;
    var s := StreamChunks.Concat(chunks);
    StreamChunks.AlwaysFits(s, scratchSize);
    r, log := StreamChunks.ParseChunks(chunks, scratchSize, policy);
    if r == Stream.Success {
      AcceptedIsJson(s);
      SlicesFlat(log, [], []);
      assert Stream.Flat(log) + [] == Stream.Flat(log) && log + [] == log;
    } else if IsJsonText(s) {
      JsonIsFine(s);
    }
  }
}
