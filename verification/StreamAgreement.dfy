/** What the chunked parser reports, compared with what the scanner reports when
    its callback captures the children of the root. */
module StreamAgreement {
  import opened Bytes
  import opened JsonString
  import opened Number
  import opened Grammar
  import opened Events
  import opened Modes
  import opened StreamSpec
  import opened StreamRefinement
  import Scanner
  import Stream
  import StreamChunks

  /** A callback that enters the root and captures every container in it. */
  function CaptureChildren(): Policy {
    (log: seq<Event>) => if |log| > 1 && log[|log| - 1].kind.BeginEvent? then CAPTURE else ENTER
  }

  function TextAt(s: Text, span: Span): Text {
    if span.lo <= span.hi <= |s| then s[span.lo..span.hi] else []
  }

  function OwnerName(s: Text, key: Owner): Name {
    match key
    case NoKeyOwner => NoName
    case KeyOwner(span) => Name(TextAt(s, span))
  }

  /** The slice of a captured container as the stream reports it: its bracket, the
      bytes up to the other bracket, and that bracket. */
  function CapturedEvents(valueType: Type, name: Name, t: Text): seq<StreamEvent> {
    if |t| < 2 then []
    else
      [StreamEvent(StreamBegin, valueType, name, [t[0]])] +
      (Parts(valueType, t[1..|t| - 1]) + [StreamEvent(StreamEnd, valueType, NoName, [t[|t| - 1]])])
  }

  /** One scanner event as stream events: a value is the same, a capture is the
      bytes of its slice. */
  function Shown(s: Text, e: Event): seq<StreamEvent> {
    match e.kind
    case ValueEvent => [StreamEvent(StreamValue, e.valueType, OwnerName(s, e.key), TextAt(s, e.span))]
    case BeginEvent => []
    case EndEvent => CapturedEvents(e.valueType, OwnerName(s, e.key), TextAt(s, e.span))
  }

  function ShownAll(s: Text, log: seq<Event>): seq<StreamEvent> {
    if log == [] then [] else ShownAll(s, log[..|log| - 1]) + Shown(s, log[|log| - 1])
  }

  /** The events inside the root; a scalar root is its own event. */
  function ShownChildren(s: Text, log: seq<Event>): seq<StreamEvent> {
    if log != [] && log[0].kind.BeginEvent? then ShownAll(s, log[..|log| - 1]) else ShownAll(s, log)
  }

  lemma ShownSnoc(s: Text, log: seq<Event>, e: Event)
    ensures ShownAll(s, log + [e]) == ShownAll(s, log) + Shown(s, e)
  {
    hide Shown;
    assert (log + [e])[..|log|] == log;
  }

  lemma OccursText(s: Text, i: nat, t: Text)
    requires Occurs(s, i, t)
    ensures TextAt(s, Span(i, i + |t|)) == t
  {
  }

  lemma CapturedContainer(s: Text, v: Value, p: nat, key: Owner)
    requires ValueOk(v) && IsContainer(v) && Occurs(s, p, PrintValue(v))
    ensures Shown(s, EndOf(v.kind, p, p + |PrintValue(v)| - 1, key, MemberCount(v))) == ChildEvents(OwnerName(s, key), v)
  {
    hide PrintValue, ValueOk, Inner, Occurs, TextAt, MemberCount, Parts, OwnerName;
    var t := PrintValue(v);
    OccursText(s, p, t);
    PrintedContainer(v);
    var open, close := OpenOf(v.kind), CloseOf(v.kind);
    assert t == [open] + Inner(v) + [close];
    assert t[1..|t| - 1] == Inner(v) && t[0] == open && t[|t| - 1] == close;
  }

  lemma ShownScalar(s: Text, v: Value, p: nat, key: Owner)
    requires ValueOk(v) && !IsContainer(v) && Occurs(s, p, PrintValue(v))
    ensures Shown(s, Event(ValueEvent, TypeOf(v), key, PrimitiveSpan(v, p), 1)) == ChildEvents(OwnerName(s, key), v)
  {
    hide CharsOk, PrintChars, Occurs, TextAt, OwnerName;
    if v.Str? {
      var t := PrintChars(v.chars);
      OccursConcat(s, p, [QUOTE], t + [QUOTE]);
      OccursConcat(s, p + 1, t, [QUOTE]);
      OccursText(s, p + 1, t);
    } else {
      OccursText(s, p, PrintValue(v));
    }
  }

  lemma CaptureAnswers(log: seq<Event>, e: Event)
    requires log != []
    ensures CaptureChildren()(log + [e]) == if e.kind.BeginEvent? then CAPTURE else ENTER
  {
  }

  /** One child of the root: captured when it is a container. */
  lemma ChildShown(s: Text, v: Value, p: nat, key: Owner, log: seq<Event>)
    requires ValueOk(v) && Occurs(s, p, PrintValue(v)) && log != []
    ensures var t := ValueTrace(v, p, key, true, CaptureChildren(), log);
      t.status.Going? && log <= t.log && ShownAll(s, t.log) == ShownAll(s, log) + ChildEvents(OwnerName(s, key), v)
  {
    hide ValueOk, PrintValue, Occurs, PrimitiveSpan, MembersTrace, Shown, ShownAll, ChildEvents, CaptureChildren;
    if IsContainer(v) {
      var begin, end := BeginOf(v.kind, p, key), EndOf(v.kind, p, p + |PrintValue(v)| - 1, key, MemberCount(v));
      CaptureAnswers(log, begin);
      CaptureAnswers(log + [begin], end);
      ShownSnoc(s, log, begin);
      ShownSnoc(s, log + [begin], end);
      BeginShown(s, begin);
      assert ShownAll(s, log) + [] == ShownAll(s, log);
      CapturedContainer(s, v, p, key);
    } else {
      var e := Event(ValueEvent, TypeOf(v), key, PrimitiveSpan(v, p), 1);
      CaptureAnswers(log, e);
      ShownSnoc(s, log, e);
      ShownScalar(s, v, p, key);
    }
  }

  lemma BeginShown(s: Text, e: Event)
    requires e.kind.BeginEvent?
    ensures Shown(s, e) == []
  {
  }

  lemma KeyShown(s: Text, key: Key, kind: Kind, p: nat)
    requires KeyOk(key, kind) && Occurs(s, p, PrintKey(key, kind))
    ensures OwnerName(s, KeyOwnerAt(key, p)) == NameOfKey(key)
  {
    hide CharsOk, PrintChars, Occurs, TextAt, AllWhitespace;
    if key.Key? {
      var t := PrintChars(key.chars);
      OccursConcat(s, p, Quoted(key.chars), key.before + ([COLON] + key.after));
      OccursConcat(s, p, [QUOTE], t + [QUOTE]);
      OccursConcat(s, p + 1, t, [QUOTE]);
      OccursText(s, p + 1, t);
    }
  }

  lemma MemberShown(s: Text, m: Member, kind: Kind, p: nat, log: seq<Event>)
    requires MemberOk(m, kind) && Occurs(s, p, PrintMember(m, kind)) && log != []
    ensures var t := MemberTrace(m, kind, p, true, CaptureChildren(), log);
      t.status.Going? && log <= t.log && ShownAll(s, t.log) == ShownAll(s, log) + MemberEvents(m, kind)
  {
    hide ValueOk, PrintKey, PrintValue, Occurs, KeyOwnerAt, ValueTrace, ShownAll, ChildEvents, CaptureChildren;
    OccursConcat(s, p, PrintKey(m.key, kind), PrintValue(m.value) + m.ws);
    OccursConcat(s, p + |PrintKey(m.key, kind)|, PrintValue(m.value), m.ws);
    KeyShown(s, m.key, kind, p);
    ChildShown(s, m.value, p + |PrintKey(m.key, kind)|, KeyOwnerAt(m.key, p), log);
  }

  lemma {:induction false} MembersShown(s: Text, ms: Members, kind: Kind, p: nat, log: seq<Event>)
    requires MembersOk(ms, kind) && Occurs(s, p, PrintMembers(ms, kind)) && log != []
    ensures var t := MembersTrace(ms, kind, p, true, CaptureChildren(), log);
      t.status.Going? && log <= t.log && ShownAll(s, t.log) == ShownAll(s, log) + MembersEvents(ms, kind)
    decreases ms
  {
    hide MemberOk, PrintMember, Occurs, MemberTrace, ShownAll, MemberEvents, CaptureChildren;
    var m := ms.member;
    if ms.Last? {
      MemberShown(s, m, kind, p, log);
    } else {
      var q := p + |PrintMember(m, kind)|;
      var rest := PrintMembers(ms.rest, kind);
      MoreOccurs(s, p, PrintMember(m, kind), ms.gap, rest);
      MemberShown(s, m, kind, p, log);
      var log' := MemberTrace(m, kind, p, true, CaptureChildren(), log).log;
      MembersShown(s, ms.rest, kind, q + 1 + |ms.gap|, log');
      assert ShownAll(s, log) + MemberEvents(m, kind) + MembersEvents(ms.rest, kind) ==
        ShownAll(s, log) + (MemberEvents(m, kind) + MembersEvents(ms.rest, kind));
    }
  }

  /** The scanner with a capturing callback shows exactly the events of the tree. */
  lemma DocumentShown(d: Document)
    requires DocumentOk(d)
    ensures var t := DocumentTrace(d, CaptureChildren());
      t.status.Going? && ShownChildren(PrintDocument(d), t.log) == DocumentEvents(d)
  {
    hide ValueOk, PrintValue, PrintMembers, Occurs, MembersTrace, ShownAll, MembersEvents, AllWhitespace, PrimitiveSpan;
    var s, v, p := PrintDocument(d), d.value, |d.before|;
    OccursWhole(s, s);
    OccursConcat(s, 0, d.before, PrintValue(v) + d.after);
    OccursConcat(s, p, PrintValue(v), d.after);
    ShownOfNothing(s);
    if IsContainer(v) {
      RootShown(s, v, p);
    } else {
      var e := Event(ValueEvent, TypeOf(v), NoKeyOwner, PrimitiveSpan(v, p), 1);
      ShownSnoc(s, [], e);
      assert [] + [e] == [e];
      ShownScalar(s, v, p, NoKeyOwner);
      assert [] + ChildEvents(NoName, v) == ChildEvents(NoName, v);
    }
  }

  lemma ShownOfNothing(s: Text)
    ensures ShownAll(s, []) == []
  {
  }

  lemma RootShown(s: Text, v: Value, p: nat)
    requires ValueOk(v) && IsContainer(v) && Occurs(s, p, PrintValue(v))
    ensures var t := ValueTrace(v, p, NoKeyOwner, true, CaptureChildren(), []);
      t.status.Going? && ShownChildren(s, t.log) == if v.Filled? then MembersEvents(v.members, v.kind) else []
  {
    hide ValueOk, PrintValue, PrintMembers, Occurs, MembersTrace, ShownAll, MembersEvents, CaptureChildren, Inner;
    var begin := BeginOf(v.kind, p, NoKeyOwner);
    assert [] + [begin] == [begin];
    CaptureEntersRoot(begin);
    ShownOfNothing(s);
    ShownSnoc(s, [], begin);
    BeginShown(s, begin);
    var inner := [begin];
    if v.Filled? {
      InnerOccurs(s, v, p);
      MembersShown(s, v.members, v.kind, p + 1 + |v.ws|, [begin]);
      inner := MembersTrace(v.members, v.kind, p + 1 + |v.ws|, true, CaptureChildren(), [begin]).log;
      assert [] + MembersEvents(v.members, v.kind) == MembersEvents(v.members, v.kind);
    }
    var closing := p + |PrintValue(v)| - 1;
    var end := EndOf(v.kind, closing, closing, NoKeyOwner, MemberCount(v));
    CaptureAnswers(inner, end);
    assert (inner + [end])[..|inner|] == inner;
  }

  lemma CaptureEntersRoot(e: Event)
    ensures CaptureChildren()([e]) == ENTER
  {
  }

  lemma InnerOccurs(s: Text, v: Value, p: nat)
    requires ValueOk(v) && v.Filled? && Occurs(s, p, PrintValue(v))
    ensures MembersOk(v.members, v.kind) && Occurs(s, p + 1 + |v.ws|, PrintMembers(v.members, v.kind))
  {
    hide Occurs, PrintMembers, MembersOk;
    var ms := PrintMembers(v.members, v.kind);
    OccursConcat(s, p, [OpenOf(v.kind)], v.ws + (ms + [CloseOf(v.kind)]));
    OccursConcat(s, p + 1, v.ws, ms + [CloseOf(v.kind)]);
    OccursConcat(s, p + 1 + |v.ws|, ms, [CloseOf(v.kind)]);
  }

  /** Both parsers on the same input. When the scanner accepts and scratch can hold
      the longest pending child, the stream accepts too, however the input is cut,
      and reports what the scanner reports with the children of the root captured. */
  method ParseBothWays(chunks: seq<Text>, scratchSize: nat, policy: Stream.StreamPolicy)
    returns (scanned: Scanner.Result, events: seq<Event>, fed: Stream.FeedResult, log: seq<StreamEvent>)
    requires scratchSize > 1 && StreamChunks.NeverBreaks(policy)
    ensures scanned.Success? <==> IsJsonText(StreamChunks.Concat(chunks))
    ensures forall d | DocumentOk(d) && Height(d.value) <= MAX_NESTING && PrintDocument(d) == StreamChunks.Concat(chunks) ::
      DocumentNeed(d) < scratchSize ==>
        fed == Stream.Success && Stream.Flat(log) == ShownChildren(StreamChunks.Concat(chunks), events) == DocumentEvents(d)
  {
    hide DocumentTrace, PrintDocument, DocumentOk, Fits, Verdict, Stream.Flat, ShownChildren, DocumentEvents, DocumentNeed;
    var s := StreamChunks.Concat(chunks);
    var scan := new Scanner.Scan(s, CaptureChildren());
    scanned := scan.Parse();
    events := scan.log;
    CaptureNeverBreaks(events);
    fed, log := StreamChunks.ParseChunks(chunks, scratchSize, policy);
    forall d | DocumentOk(d) && Height(d.value) <= MAX_NESTING && PrintDocument(d) == s
      ensures DocumentTrace(d, CaptureChildren()).status.Going?
      ensures ShownChildren(s, DocumentTrace(d, CaptureChildren()).log) == DocumentEvents(d)
      ensures DocumentNeed(d) < scratchSize ==>
        fed == Stream.Success && Stream.Flat(log) == DocumentEvents(d)
    {
      DocumentShown(d);
      if DocumentNeed(d) < scratchSize {
        DocumentRuns(d, scratchSize);
      }
    }
  }

  lemma CaptureNeverBreaks(log: seq<Event>)
    ensures log != [] ==> CaptureChildren()(log) != BREAK
  {
  }

  /** The converse fails: inside a child container the stream checks brackets and
      strings only. */
  lemma StreamAcceptsMore()
    ensures var s: Text := [LBRACKET, LBRACKET, 0x31, 0x20, 0x32, RBRACKET, RBRACKET];
      Verdict(s).Run? && !IsJsonText(s)
  {
    var s: Text := [LBRACKET, LBRACKET, 0x31, 0x20, 0x32, RBRACKET, RBRACKET];
    ReadDocumentIffJsonText(s);
    hide IsJsonText;
    StreamOnNested(s);
    ReaderOnNested(s);
  }

  /** One more byte. */
  lemma RunMore(st: State, t: Text, c: Byte, after: State)
    requires RunText(st, t).Run? && Step(RunText(st, t).state, c).Run? && Step(RunText(st, t).state, c).state == after
    ensures RunText(st, t + [c]).Run? && RunText(st, t + [c]).state == after
  {
    hide Step;
    assert (t + [c])[..|t|] == t;
  }

  lemma StreamOnNested(s: Text)
    requires s == [LBRACKET, LBRACKET, 0x31, 0x20, 0x32, RBRACKET, RBRACKET]
    ensures Verdict(s).Run?
  {
    var a := INITIAL.(mode := ArrayMode, phase := FindValueBegin);
    var b := StartContainer(a, LBRACKET).state;
    var c := Cleared(b).(hasEntries := true, phase := FindParamSep);
    StepsOnNested(a, b, c);
    hide Step, RunText;
    RunOne(INITIAL, LBRACKET);
    RunMore(INITIAL, [LBRACKET], LBRACKET, b);
    RunMore(INITIAL, [LBRACKET] + [LBRACKET], 0x31, b);
    RunMore(INITIAL, [LBRACKET] + [LBRACKET] + [0x31], 0x20, b);
    RunMore(INITIAL, [LBRACKET] + [LBRACKET] + [0x31] + [0x20], 0x32, b);
    RunMore(INITIAL, [LBRACKET] + [LBRACKET] + [0x31] + [0x20] + [0x32], RBRACKET, c);
    RunMore(INITIAL, [LBRACKET] + [LBRACKET] + [0x31] + [0x20] + [0x32] + [RBRACKET], RBRACKET, c.(phase := Complete));
    assert s == [LBRACKET] + [LBRACKET] + [0x31] + [0x20] + [0x32] + [RBRACKET] + [RBRACKET];
  }

  lemma StepsOnNested(a: State, b: State, c: State)
    requires a == INITIAL.(mode := ArrayMode, phase := FindValueBegin) && b == StartContainer(a, LBRACKET).state
    requires c == Cleared(b).(hasEntries := true, phase := FindParamSep)
    ensures Step(INITIAL, LBRACKET) == Run(a, []) && Step(a, LBRACKET).Run? && Step(a, LBRACKET).state == b
    ensures Step(b, 0x31).Run? && Step(b, 0x31).state == b && Step(b, 0x20).Run? && Step(b, 0x20).state == b
    ensures Step(b, 0x32).Run? && Step(b, 0x32).state == b && Step(b, RBRACKET).Run? && Step(b, RBRACKET).state == c
    ensures Step(c, RBRACKET).Run? && Step(c, RBRACKET).state == c.(phase := Complete)
  {
  }

  lemma ReaderOnNested(s: Text)
    requires s == [LBRACKET, LBRACKET, 0x31, 0x20, 0x32, RBRACKET, RBRACKET]
    ensures ReadDocument(s).NoRead?
  {
    assert SkipWs(s, 0) == 0 && SkipWs(s, 1) == 1 && SkipWs(s, 2) == 2 && SkipWs(s, 3) == SkipWs(s, 4) == 4;
    assert DigitsEnd(s, 3) == 3 && DigitsEnd(s, 2) == 3;
    assert ReadNumber(s, 2).Read? && ReadNumber(s, 2).next == 3;
    assert ReadValue(s, 2, 2) == ReadPrimitive(s, 2);
    assert ReadMember(s, 2, 1, Array).Read? && ReadMember(s, 2, 1, Array).next == 4;
    assert ReadMembers(s, 2, 1, Array).NoRead?;
    assert ReadValue(s, 1, 1).NoRead?;
    assert ReadMembers(s, 1, 0, Array).NoRead?;
    assert ReadValue(s, 0, 0).NoRead?;
  }
}
