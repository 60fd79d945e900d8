/** The chunked parser refines the scanner: every JSON text is accepted, with the
    root scalar or the immediate children of the root as its events, and scratch
    need not be larger than those children demand. */
module StreamRefinement {
  import opened Bytes
  import opened JsonString
  import opened Grammar
  import opened Events
  import opened Modes
  import opened StreamSpec
  import opened StreamReads

  // ---------------------------------------------------- what is reported

  /** What a value event carries: a string without its quotes, any other scalar whole. */
  function ScalarText(v: Value): Text
    requires ValueOk(v)
  {
    if v.Str? then PrintChars(v.chars) else PrintValue(v)
  }

  /** The bytes between the brackets. */
  function Inner(v: Value): Text
    requires ValueOk(v) && IsContainer(v)
  {
    if v.Filled? then v.ws + PrintMembers(v.members, v.kind) else v.ws
  }

  lemma PrintedContainer(v: Value)
    requires ValueOk(v) && IsContainer(v)
    ensures PrintValue(v) == [OpenOf(v.kind)] + (Inner(v) + [CloseOf(v.kind)])
  {
    if v.Filled? {
      assert v.ws + PrintMembers(v.members, v.kind) + [CloseOf(v.kind)] ==
        v.ws + (PrintMembers(v.members, v.kind) + [CloseOf(v.kind)]);
    }
  }

  /** The events of one child of the root, fragments cut into bytes. */
  function ChildEvents(name: Name, v: Value): seq<StreamEvent>
    requires ValueOk(v)
  {
    if IsContainer(v) then
      var t := KindType(v.kind);
      [StreamEvent(StreamBegin, t, name, [OpenOf(v.kind)])] +
      (Parts(t, Inner(v)) + [StreamEvent(StreamEnd, t, NoName, [CloseOf(v.kind)])])
    else [StreamEvent(StreamValue, TypeOf(v), name, ScalarText(v))]
  }

  function NameOfKey(key: Key): Name
    requires key.Key? ==> CharsOk(key.chars)
  {
    if key.Key? then Name(PrintChars(key.chars)) else NoName
  }

  function MemberEvents(m: Member, kind: Kind): seq<StreamEvent>
    requires MemberOk(m, kind)
  {
    ChildEvents(NameOfKey(m.key), m.value)
  }

  function MembersEvents(ms: Members, kind: Kind): seq<StreamEvent>
    requires MembersOk(ms, kind)
  {
    var first := MemberEvents(ms.member, kind);
    if ms.Last? then first else first + MembersEvents(ms.rest, kind)
  }

  function DocumentEvents(d: Document): seq<StreamEvent>
    requires DocumentOk(d)
  {
    match d.value
    case Empty(_, _) => []
    case Filled(kind, _, ms) => MembersEvents(ms, kind)
    case _ => ChildEvents(NoName, d.value)
  }

  // --------------------------------------------------- how much is stored

  function KeyLength(key: Key): nat
    requires key.Key? ==> CharsOk(key.chars)
  {
    if key.Key? then |PrintChars(key.chars)| else 0
  }

  /** A key together with a scalar, or the brackets of a container. */
  function ChildNeed(key: nat, v: Value): nat
    requires ValueOk(v)
  {
    if IsContainer(v) then Max(key, BracketDepth(v)) else key + |ScalarText(v)|
  }

  function MemberNeed(m: Member, kind: Kind): nat
    requires MemberOk(m, kind)
  {
    ChildNeed(KeyLength(m.key), m.value)
  }

  function MembersNeed(ms: Members, kind: Kind): nat
    requires MembersOk(ms, kind)
  {
    var first := MemberNeed(ms.member, kind);
    if ms.Last? then first else Max(first, MembersNeed(ms.rest, kind))
  }

  function DocumentNeed(d: Document): nat
    requires DocumentOk(d)
  {
    match d.value
    case Empty(_, _) => 0
    case Filled(kind, _, ms) => MembersNeed(ms, kind)
    case _ => |ScalarText(d.value)|
  }

  // ---------------------------------------------- inside a child container

  /** `after` differs from `st` in the leftovers of the string automaton only. */
  predicate SameInside(st: State, after: State) {
    after == st.(str := after.str)
  }

  predicate Inside(st: State) {
    st.phase == InContainer && !st.inString && st.stack != []
  }

  lemma SpaceIsInert(w: Text)
    requires AllWhitespace(w)
    ensures forall k | 0 <= k < |w| :: IsInert(w[k])
  {
  }

  lemma BareIsInert(v: Value)
    requires ValueOk(v) && IsBare(v)
    ensures forall k | 0 <= k < |PrintValue(v)| :: IsInert(PrintValue(v)[k])
  {
    hide PrintValue;
    BareBytes(v);
  }

  lemma SpacePasses(st: State, w: Text, size: nat)
    requires AllWhitespace(w) && Inside(st) && |st.stack| <= size - 1
    ensures Passes(st, w, st, size)
  {
    hide Passes;
    SpaceIsInert(w);
    InertRuns(st, w, size);
  }

  lemma InertPasses(st: State, c: Byte, size: nat)
    requires IsInert(c) && Inside(st) && |st.stack| <= size - 1
    ensures Passes(st, [c], st, size)
  {
    hide Passes;
    PassesByte(st, c, st, size);
  }

  lemma {:induction false} ValuePasses(st: State, v: Value, size: nat) returns (after: State)
    requires ValueOk(v) && Inside(st) && |st.stack| + BracketDepth(v) <= size - 1
    ensures SameInside(st, after) && Passes(st, PrintValue(v), after, size)
    decreases v, 1
  {
    hide Passes, PrintValue, Inner, Quoted, MembersOk, BracketDepth, MembersDepth;
    if IsContainer(v) {
      PrintedContainer(v);
      DepthOf(v);
      var mid := st.(stack := st.stack + [OpenOf(v.kind)]);
      PassesByte(st, OpenOf(v.kind), mid, size);
      var done := InnerPasses(mid, v, size);
      after := done.(stack := st.stack);
      assert done.stack[..|done.stack| - 1] == st.stack;
      PassesByte(done, CloseOf(v.kind), after, size);
      PassesThen(mid, Inner(v), done, [CloseOf(v.kind)], after, size);
      PassesThen(st, [OpenOf(v.kind)], mid, Inner(v) + [CloseOf(v.kind)], after, size);
    } else if v.Str? {
      after := StringPasses(st, v, size);
    } else {
      after := st;
      BareIsInert(v);
      InertRuns(st, PrintValue(v), size);
    }
  }

  lemma StringPasses(st: State, v: Value, size: nat) returns (after: State)
    requires ValueOk(v) && v.Str? && Inside(st) && |st.stack| <= size - 1
    ensures SameInside(st, after) && Passes(st, PrintValue(v), after, size)
  {
    hide Passes, Quoted;
    after := QuotedRuns(st, v.chars, size);
  }

  lemma DepthOf(v: Value)
    requires IsContainer(v)
    ensures BracketDepth(v) == if v.Filled? then 1 + MembersDepth(v.members) else 1
  {
  }

  lemma {:induction false} InnerPasses(st: State, v: Value, size: nat) returns (after: State)
    requires ValueOk(v) && IsContainer(v) && Inside(st)
    requires |st.stack| + BracketDepth(v) - 1 <= size - 1
    ensures SameInside(st, after) && Passes(st, Inner(v), after, size)
    decreases v, 0
  {
    hide Passes, PrintMembers;
    SpacePasses(st, v.ws, size);
    after := st;
    if v.Filled? {
      after := MembersPass(st, v.members, v.kind, size);
      PassesThen(st, v.ws, st, PrintMembers(v.members, v.kind), after, size);
    }
  }

  lemma KeyPasses(st: State, key: Key, kind: Kind, size: nat) returns (after: State)
    requires KeyOk(key, kind) && Inside(st) && |st.stack| <= size - 1
    ensures SameInside(st, after) && Passes(st, PrintKey(key, kind), after, size)
  {
    hide Passes, Quoted;
    if key.NoKey? {
      after := st;
      PassesNothing(st, size);
    } else {
      after := QuotedRuns(st, key.chars, size);
      SpacePasses(after, key.before, size);
      SpacePasses(after, key.after, size);
      InertPasses(after, COLON, size);
      PassesThen(after, [COLON], after, key.after, after, size);
      PassesThen(after, key.before, after, [COLON] + key.after, after, size);
      PassesThen(st, Quoted(key.chars), after, key.before + ([COLON] + key.after), after, size);
    }
  }

  lemma {:induction false} MemberPasses(st: State, m: Member, kind: Kind, size: nat) returns (after: State)
    requires MemberOk(m, kind) && Inside(st) && |st.stack| + BracketDepth(m.value) <= size - 1
    ensures SameInside(st, after) && Passes(st, PrintMember(m, kind), after, size)
    decreases m, 2
  {
    hide Passes, PrintKey, PrintValue, KeyOk, ValueOk, BracketDepth;
    var keyed := KeyPasses(st, m.key, kind, size);
    after := ValuePasses(keyed, m.value, size);
    SpacePasses(after, m.ws, size);
    PassesThen(keyed, PrintValue(m.value), after, m.ws, after, size);
    PassesThen(st, PrintKey(m.key, kind), keyed, PrintValue(m.value) + m.ws, after, size);
  }

  lemma {:induction false} MembersPass(st: State, ms: Members, kind: Kind, size: nat) returns (after: State)
    requires MembersOk(ms, kind) && Inside(st) && |st.stack| + MembersDepth(ms) <= size - 1
    ensures SameInside(st, after) && Passes(st, PrintMembers(ms, kind), after, size)
    decreases ms, 3
  {
    hide Passes, PrintMember, MemberOk;
    var first := MemberPasses(st, ms.member, kind, size);
    after := first;
    if ms.More? {
      InertPasses(first, COMMA, size);
      SpacePasses(first, ms.gap, size);
      after := MembersPass(first, ms.rest, kind, size);
      PassesThen(first, ms.gap, first, PrintMembers(ms.rest, kind), after, size);
      PassesThen(first, [COMMA], first, ms.gap + PrintMembers(ms.rest, kind), after, size);
      PassesThen(st, PrintMember(ms.member, kind), first, [COMMA] + (ms.gap + PrintMembers(ms.rest, kind)), after, size);
    }
  }

  // ------------------------------------------------ the children of the root

  function ModeOf(kind: Kind): Mode {
    if kind.Object? then ObjectMode else ArrayMode
  }

  /** Between two tokens of the root container. */
  predicate Idle(st: State, kind: Kind, phase: Phase) {
    st.mode == ModeOf(kind) && st.phase == phase && !st.hasKey && st.key == [] && st.value == [] &&
    st.hexLeft == 0 && st.stack == []
  }

  /** A value of the root container is about to start. */
  predicate Awaits(st: State, kind: Kind) {
    st.mode == ModeOf(kind) && st.phase == FindValueBegin && st.value == [] && st.hexLeft == 0 && st.stack == []
  }

  function PhaseAfter(kind: Kind, c: Byte): Phase {
    if c == COMMA then AfterSeparator(ModeOf(kind)) else Complete
  }

  predicate Separates(kind: Kind, c: Byte) {
    c == COMMA || c == CloseOf(kind)
  }

  /** White space, then a comma or the closing bracket. */
  lemma SeparatorRuns(st: State, kind: Kind, ws: Text, c: Byte, size: nat)
    requires Idle(st, kind, FindParamSep) && AllWhitespace(ws) && Separates(kind, c) && size >= 1
    ensures Reads(st, ws + [c], st.(phase := PhaseAfter(kind, c)), [], size)
  {
    hide Reads, AllWhitespace;
    SpaceRuns(st, ws, size);
    ReadsByteOn(st, ws, st, c, st.(phase := PhaseAfter(kind, c)), size);
  }

  /** A string or a container, after which the machine looks for a separator. */
  lemma ClosedChildRuns(st: State, kind: Kind, v: Value, size: nat) returns (after: State)
    requires Awaits(st, kind) && ValueOk(v) && !IsBare(v) && ChildNeed(|st.key|, v) <= size - 1
    ensures Idle(after, kind, FindParamSep) && after.hasEntries
    ensures Reads(st, PrintValue(v), after, ChildEvents(NameOf(st), v), size)
  {
    hide Reads, PrintValue, ValueOk;
    if IsContainer(v) {
      after := ContainerChildRuns(st, kind, v, size);
    } else {
      after := StringChildRuns(st, kind, v, size);
    }
  }

  lemma StringChildRuns(st: State, kind: Kind, v: Value, size: nat) returns (after: State)
    requires Awaits(st, kind) && ValueOk(v) && v.Str? && ChildNeed(|st.key|, v) <= size - 1
    ensures Idle(after, kind, FindParamSep) && after.hasEntries
    ensures Reads(st, PrintValue(v), after, ChildEvents(NameOf(st), v), size)
  {
    hide Reads, PrintChars, CharsOk, ValidBody;
    var t := PrintChars(v.chars);
    var begun := st.(phase := FindStringEnd);
    ReadsByte(st, QUOTE, begun, [], size);
    StringRuns(begun, v.chars, size);
    after := CommitString(begun.(value := t)).state;
    ReadsOn(st, [QUOTE], begun, t + [QUOTE], after, ChildEvents(NameOf(st), v), size);
  }

  lemma DepthIsPositive(v: Value)
    requires IsContainer(v)
    ensures BracketDepth(v) >= 1
  {
  }

  lemma ContainerChildRuns(st: State, kind: Kind, v: Value, size: nat) returns (after: State)
    requires Awaits(st, kind) && ValueOk(v) && IsContainer(v) && Max(|st.key|, BracketDepth(v)) <= size - 1
    ensures Idle(after, kind, FindParamSep) && after.hasEntries
    ensures Reads(st, PrintValue(v), after, ChildEvents(NameOf(st), v), size)
  {
    hide Reads, PrintValue, ValueOk, Inner, BracketDepth;
    var t := KindType(v.kind);
    var open, close := OpenOf(v.kind), CloseOf(v.kind);
    DepthIsPositive(v);
    PrintedContainer(v);
    var begun := StartContainer(st, open).state;
    ReadsByte(st, open, begun, [StreamEvent(StreamBegin, t, NameOf(st), [open])], size);
    var done := InnerPasses(begun, v, size);
    after := Cleared(done).(hasEntries := true, phase := FindParamSep);
    ReadsMore(begun, Inner(v), done, Parts(t, Inner(v)), close, after, [StreamEvent(StreamEnd, t, NoName, [close])], size);
    ReadsThen(st, [open], begun, [StreamEvent(StreamBegin, t, NameOf(st), [open])],
      Inner(v) + [close], after, Parts(t, Inner(v)) + [StreamEvent(StreamEnd, t, NoName, [close])], size);
  }

  /** The bytes of a bare token are read into the pending value. */
  lemma TokenRuns(st: State, kind: Kind, v: Value, size: nat)
    requires Awaits(st, kind) && ValueOk(v) && IsBare(v) && |st.key| + |PrintValue(v)| <= size - 1
    ensures Reads(st, PrintValue(v), st.(phase := FindGenericEnd, value := PrintValue(v)), [], size)
  {
    hide Reads, PrintValue, ValueOk;
    BareBytes(v);
    var t := PrintValue(v);
    var begun := st.(value := [t[0]], phase := FindGenericEnd);
    ReadsByte(st, t[0], begun, [], size);
    BareRuns(begun, t[1..], size);
    assert [t[0]] + t[1..] == t;
    ReadsOn(st, [t[0]], begun, t[1..], st.(phase := FindGenericEnd, value := t), [], size);
  }

  /** A bare token is reported at the byte behind it. */
  lemma DelimiterRuns(st: State, kind: Kind, v: Value, b: Byte, size: nat) returns (after: State)
    requires st.mode == ModeOf(kind) && st.phase == FindGenericEnd && st.stack == [] && Need(st) <= size - 1
    requires ValueOk(v) && IsBare(v) && st.value == PrintValue(v)
    requires Separates(kind, b) || IsWhitespace(b)
    ensures Idle(after, kind, if IsWhitespace(b) then FindParamSep else PhaseAfter(kind, b)) && after.hasEntries
    ensures Reads(st, [b], after, ChildEvents(NameOf(st), v), size)
  {
    hide Reads, PrintValue, ValueOk, GenericType;
    BareType(v);
    after := CommitGeneric(st, b).state;
    ReadsByte(st, b, after, ChildEvents(NameOf(st), v), size);
  }

  lemma TailRuns(st: State, kind: Kind, v: Value, ws: Text, c: Byte, size: nat) returns (after: State)
    requires st.mode == ModeOf(kind) && st.phase == FindGenericEnd && st.stack == [] && Need(st) <= size - 1
    requires ValueOk(v) && IsBare(v) && st.value == PrintValue(v)
    requires AllWhitespace(ws) && Separates(kind, c)
    ensures Idle(after, kind, PhaseAfter(kind, c)) && after.hasEntries
    ensures Reads(st, ws + [c], after, ChildEvents(NameOf(st), v), size)
  {
    hide Reads, PrintValue, ValueOk, ChildEvents, NameOf, Need, Step;
    if ws == [] {
      after := DelimiterRuns(st, kind, v, c, size);
      assert ws + [c] == [c];
    } else {
      var mid := DelimiterRuns(st, kind, v, ws[0], size);
      SeparatorRuns(mid, kind, ws[1..], c, size);
      after := mid.(phase := PhaseAfter(kind, c));
      assert ws + [c] == [ws[0]] + (ws[1..] + [c]);
      var es := ChildEvents(NameOf(st), v);
      ReadsThen(st, [ws[0]], mid, es, ws[1..] + [c], after, [], size);
      assert es + [] == es;
    }
  }

  lemma BareChildRuns(st: State, kind: Kind, v: Value, ws: Text, c: Byte, size: nat) returns (after: State)
    requires Awaits(st, kind) && ValueOk(v) && IsBare(v) && |st.key| + |PrintValue(v)| <= size - 1
    requires AllWhitespace(ws) && Separates(kind, c)
    ensures Idle(after, kind, PhaseAfter(kind, c)) && after.hasEntries
    ensures Reads(st, PrintValue(v) + (ws + [c]), after, ChildEvents(NameOf(st), v), size)
  {
    hide Reads, PrintValue, ValueOk, AllWhitespace, Separates, ChildEvents, PhaseAfter, Step;
    var t := PrintValue(v);
    var pending := st.(phase := FindGenericEnd, value := t);
    TokenRuns(st, kind, v, size);
    after := TailRuns(pending, kind, v, ws, c, size);
    ReadsOn(st, t, pending, ws + [c], after, ChildEvents(NameOf(st), v), size);
  }

  /** A value, the white space behind it and the separator. */
  lemma ChildRuns(st: State, kind: Kind, v: Value, ws: Text, c: Byte, size: nat) returns (after: State)
    requires Awaits(st, kind) && ValueOk(v) && ChildNeed(|st.key|, v) <= size - 1
    requires AllWhitespace(ws) && Separates(kind, c)
    ensures Idle(after, kind, PhaseAfter(kind, c)) && after.hasEntries
    ensures Reads(st, PrintValue(v) + (ws + [c]), after, ChildEvents(NameOf(st), v), size)
  {
    hide Reads, PrintValue, ValueOk, AllWhitespace, ChildEvents;
    if IsBare(v) {
      after := BareChildRuns(st, kind, v, ws, c, size);
    } else {
      var mid := ClosedChildRuns(st, kind, v, size);
      SeparatorRuns(mid, kind, ws, c, size);
      after := mid.(phase := PhaseAfter(kind, c));
      var es := ChildEvents(NameOf(st), v);
      ReadsThen(st, PrintValue(v), mid, es, ws + [c], after, [], size);
      assert es + [] == es;
    }
  }

  /** The key of a member and its colon; nothing in an array. */
  lemma MemberKeyRuns(st: State, key: Key, kind: Kind, size: nat) returns (after: State)
    requires KeyOk(key, kind) && Idle(st, kind, AfterSeparator(ModeOf(kind))) && KeyLength(key) <= size - 1 && size >= 1
    ensures Awaits(after, kind) && |after.key| == KeyLength(key) && NameOf(after) == NameOfKey(key)
    ensures Reads(st, PrintKey(key, kind), after, [], size)
  {
    hide Reads, PrintChars, CharsOk, AllWhitespace, Quoted;
    if key.NoKey? {
      after := st;
      ReadsNothing(st, size);
    } else {
      KeyRuns(st, key.chars, size);
      var keyed := Cleared(st).(key := PrintChars(key.chars), hasKey := true, phase := FindValueSep);
      after := keyed.(phase := FindValueBegin);
      SpaceRuns(keyed, key.before, size);
      ReadsByte(keyed, COLON, after, [], size);
      SpaceRuns(after, key.after, size);
      ReadsOn(keyed, [COLON], after, key.after, after, [], size);
      ReadsOn(keyed, key.before, keyed, [COLON] + key.after, after, [], size);
      ReadsOn(st, Quoted(key.chars), keyed, key.before + ([COLON] + key.after), after, [], size);
    }
  }

  lemma NeedOfMember(m: Member, kind: Kind)
    requires MemberOk(m, kind)
    ensures KeyLength(m.key) <= MemberNeed(m, kind) == ChildNeed(KeyLength(m.key), m.value)
  {
  }

  lemma MemberRuns(st: State, m: Member, kind: Kind, c: Byte, size: nat) returns (after: State)
    requires MemberOk(m, kind) && Idle(st, kind, AfterSeparator(ModeOf(kind))) && MemberNeed(m, kind) <= size - 1
    requires Separates(kind, c) && size >= 1
    ensures Idle(after, kind, PhaseAfter(kind, c)) && after.hasEntries
    ensures Reads(st, PrintMember(m, kind) + [c], after, MemberEvents(m, kind), size)
  {
    hide Reads, PrintKey, PrintValue, KeyOk, ValueOk, AllWhitespace, ChildEvents, ChildNeed, MemberNeed, KeyLength;
    NeedOfMember(m, kind);
    var keyed := MemberKeyRuns(st, m.key, kind, size);
    after := ChildRuns(keyed, kind, m.value, m.ws, c, size);
    ReadsOn(st, PrintKey(m.key, kind), keyed, PrintValue(m.value) + (m.ws + [c]), after, MemberEvents(m, kind), size);
    assert PrintMember(m, kind) + [c] == PrintKey(m.key, kind) + (PrintValue(m.value) + (m.ws + [c]));
  }

  /** All members of the root and its closing bracket. */
  lemma {:induction false} MembersRun(st: State, ms: Members, kind: Kind, size: nat) returns (after: State)
    requires MembersOk(ms, kind) && Idle(st, kind, AfterSeparator(ModeOf(kind))) && MembersNeed(ms, kind) <= size - 1
    requires size >= 1
    ensures Idle(after, kind, Complete)
    ensures Reads(st, PrintMembers(ms, kind) + [CloseOf(kind)], after, MembersEvents(ms, kind), size)
    decreases ms
  {
    hide Reads, PrintMember, MemberOk, MemberNeed, MemberEvents, AllWhitespace;
    var m, close := ms.member, CloseOf(kind);
    if ms.Last? {
      after := MemberRuns(st, m, kind, close, size);
    } else {
      var mid := MemberRuns(st, m, kind, COMMA, size);
      SpaceRuns(mid, ms.gap, size);
      after := MembersRun(mid, ms.rest, kind, size);
      var rest := PrintMembers(ms.rest, kind) + [close];
      ReadsOn(mid, ms.gap, mid, rest, after, MembersEvents(ms.rest, kind), size);
      ReadsThen(st, PrintMember(m, kind) + [COMMA], mid, MemberEvents(m, kind),
        ms.gap + rest, after, MembersEvents(ms.rest, kind), size);
      assert PrintMembers(ms, kind) + [close] == PrintMember(m, kind) + [COMMA] + (ms.gap + rest);
    }
  }

  // ------------------------------------------------------- whole documents

  lemma RootContainerRuns(d: Document, size: nat) returns (after: State)
    requires DocumentOk(d) && IsContainer(d.value) && DocumentNeed(d) <= size - 1 && size >= 1
    ensures after.phase == Complete && Need(after) == 0
    ensures Reads(INITIAL, PrintValue(d.value), after, DocumentEvents(d), size)
  {
    hide Reads, ValueOk, PrintValue, PrintMembers, MembersNeed, MembersEvents;
    var v := d.value;
    var open, close := OpenOf(v.kind), CloseOf(v.kind);
    var begun := INITIAL.(mode := ModeOf(v.kind), phase := AfterSeparator(ModeOf(v.kind)));
    ReadsByte(INITIAL, open, begun, [], size);
    ContainerOk(v);
    SpaceRuns(begun, v.ws, size);
    PrintedContainer(v);
    if v.Empty? {
      after := begun.(phase := Complete);
      ReadsByteOn(begun, v.ws, begun, close, after, size);
    } else {
      var rest := PrintMembers(v.members, v.kind) + [close];
      after := MembersRun(begun, v.members, v.kind, size);
      ReadsOn(begun, v.ws, begun, rest, after, DocumentEvents(d), size);
      assert Inner(v) + [close] == v.ws + rest;
    }
    ReadsOn(INITIAL, [open], begun, Inner(v) + [close], after, DocumentEvents(d), size);
  }

  lemma ContainerOk(v: Value)
    requires ValueOk(v) && IsContainer(v)
    ensures AllWhitespace(v.ws) && (v.Filled? ==> MembersOk(v.members, v.kind))
  {
  }

  lemma RootStringRuns(d: Document, size: nat) returns (after: State)
    requires DocumentOk(d) && d.value.Str? && DocumentNeed(d) <= size - 1
    ensures after.phase == Complete && Need(after) == 0
    ensures Reads(INITIAL, PrintValue(d.value), after, DocumentEvents(d), size)
  {
    hide Reads, PrintChars, CharsOk, ValidBody;
    var t := PrintChars(d.value.chars);
    var begun := INITIAL.(mode := StringMode, phase := FindStringEnd);
    ReadsByte(INITIAL, QUOTE, begun, [], size);
    StringRuns(begun, d.value.chars, size);
    after := CommitString(begun.(value := t)).state;
    ReadsOn(INITIAL, [QUOTE], begun, t + [QUOTE], after, DocumentEvents(d), size);
  }

  lemma RootTokenRuns(v: Value, size: nat)
    requires ValueOk(v) && IsBare(v) && |PrintValue(v)| <= size - 1
    ensures Reads(INITIAL, PrintValue(v), INITIAL.(mode := GenericMode, phase := FindGenericEnd, value := PrintValue(v)), [], size)
  {
    hide Reads, PrintValue, ValueOk;
    BareBytes(v);
    var t := PrintValue(v);
    var begun := INITIAL.(mode := GenericMode, value := [t[0]], phase := FindGenericEnd);
    ReadsByte(INITIAL, t[0], begun, [], size);
    BareRuns(begun, t[1..], size);
    assert [t[0]] + t[1..] == t;
    ReadsOn(INITIAL, [t[0]], begun, t[1..], begun.(value := t), [], size);
  }

  /** A bare root token is reported at the white space behind it, or at the end. */
  lemma RootBareRuns(v: Value, ws: Text, size: nat) returns (after: State, es: seq<StreamEvent>)
    requires ValueOk(v) && IsBare(v) && |PrintValue(v)| <= size - 1 && AllWhitespace(ws)
    ensures Reads(INITIAL, PrintValue(v) + ws, after, es, size)
    ensures Finish(Run(after, es)).Run? && Finish(Run(after, es)).events == ChildEvents(NoName, v)
  {
    hide Reads, PrintValue, ValueOk, GenericType;
    var t := PrintValue(v);
    var pending := INITIAL.(mode := GenericMode, phase := FindGenericEnd, value := t);
    RootTokenRuns(v, size);
    BareType(v);
    after, es := pending, [];
    if ws == [] {
      assert t + ws == t;
      assert es + ChildEvents(NoName, v) == ChildEvents(NoName, v);
    } else {
      after := CommitGeneric(pending, ws[0]).state;
      es := ChildEvents(NoName, v);
      ReadsByte(pending, ws[0], after, es, size);
      SpaceRuns(after, ws[1..], size);
      ReadsThen(pending, [ws[0]], after, es, ws[1..], after, [], size);
      assert [ws[0]] + ws[1..] == ws && es + [] == es;
      ReadsOn(INITIAL, t, pending, ws, after, es, size);
    }
  }

  /** Every document: accepted, with the events of its tree, in scratch of
      `DocumentNeed(d) + 1` bytes. */
  lemma DocumentRuns(d: Document, size: nat)
    requires DocumentOk(d) && DocumentNeed(d) < size
    ensures Verdict(PrintDocument(d)).Run? && Verdict(PrintDocument(d)).events == DocumentEvents(d)
    ensures Fits(INITIAL, PrintDocument(d), size)
  {
    hide ValueOk, PrintValue, RunText, Fits, CommitGeneric, DocumentEvents, Step, AllWhitespace, DocumentNeed;
    SpaceRuns(INITIAL, d.before, size);
    var t, es := PrintValue(d.value) + d.after, DocumentEvents(d);
    if IsBare(d.value) {
      BareDocument(d);
      var after, es' := RootBareRuns(d.value, d.after, size);
      ReadsOn(INITIAL, d.before, INITIAL, t, after, es', size);
    } else {
      var after := RootClosedRuns(d, size);
      SpaceRuns(after, d.after, size);
      ReadsThen(INITIAL, PrintValue(d.value), after, es, d.after, after, [], size);
      assert es + [] == es;
      ReadsOn(INITIAL, d.before, INITIAL, t, after, es, size);
    }
  }

  lemma BareDocument(d: Document)
    requires DocumentOk(d) && IsBare(d.value)
    ensures DocumentEvents(d) == ChildEvents(NoName, d.value) && DocumentNeed(d) == |PrintValue(d.value)|
  {
  }

  lemma RootClosedRuns(d: Document, size: nat) returns (after: State)
    requires DocumentOk(d) && !IsBare(d.value) && DocumentNeed(d) < size
    ensures after.phase == Complete && Need(after) == 0
    ensures Reads(INITIAL, PrintValue(d.value), after, DocumentEvents(d), size)
  {
    hide DocumentOk, DocumentNeed, DocumentEvents, Reads, PrintValue, Need;
    if IsContainer(d.value) {
      after := RootContainerRuns(d, size);
    } else {
      after := RootStringRuns(d, size);
    }
  }
}
