/** Exactly when a text the stream accepts is JSON: when the slices it passed through
    as child containers are. */
module StreamExact {
  import opened Bytes
  import opened JsonString
  import opened Grammar
  import opened Events
  import opened StreamSpec
  import opened StreamRefinement
  import Stream

  // ------------------------------------------------------- container slices

  /** The texts of the child containers: begin, fragments and end joined; `pending` is
      what has come of a container so far. */
  function Slices(log: seq<StreamEvent>, pending: Text): seq<Text> {
    if log == [] then []
    else
      var e := log[0];
      match e.kind
      case StreamValue => Slices(log[1..], [])
      case StreamBegin => Slices(log[1..], e.text)
      case StreamPart => Slices(log[1..], pending + e.text)
      case StreamEnd => [pending + e.text] + Slices(log[1..], [])
  }

  /** A JSON object or array that may stand inside a document's root. */
  ghost predicate IsChildText(t: Text) {
    exists v :: ValueOk(v) && IsContainer(v) && PrintValue(v) == t && Height(v) < MAX_NESTING
  }

  ghost predicate AllChildTexts(texts: seq<Text>) {
    forall k | 0 <= k < |texts| :: IsChildText(texts[k])
  }

  ghost predicate Fine(log: seq<StreamEvent>) {
    AllChildTexts(Slices(log, []))
  }

  lemma {:induction false} SlicesOfParts(containerType: Type, t: Text, rest: seq<StreamEvent>, pending: Text)
    ensures Slices(Parts(containerType, t) + rest, pending) == Slices(rest, pending + t)
    decreases |t|
  {
    var parts := Parts(containerType, t);
    if t == [] {
      assert parts + rest == rest && pending + t == pending;
    } else {
      assert parts[0] == StreamEvent(StreamPart, containerType, NoName, [t[0]]);
      assert parts[1..] == Parts(containerType, t[1..]);
      assert (parts + rest)[1..] == Parts(containerType, t[1..]) + rest;
      SlicesOfParts(containerType, t[1..], rest, pending + [t[0]]);
      assert pending + [t[0]] + t[1..] == pending + t;
    }
  }

  /** One container's events give its slice. */
  lemma SlicesOfContainer(begin: StreamEvent, t: Text, end: StreamEvent, rest: seq<StreamEvent>)
    requires begin.kind.StreamBegin? && end.kind.StreamEnd?
    ensures Slices([begin] + (Parts(begin.valueType, t) + [end]) + rest, []) == [begin.text + t + end.text] + Slices(rest, [])
  {
    var inner := Parts(begin.valueType, t) + ([end] + rest);
    assert ([begin] + (Parts(begin.valueType, t) + [end]) + rest)[1..] == inner;
    SlicesOfParts(begin.valueType, t, [end] + rest, begin.text);
    assert ([end] + rest)[1..] == rest;
  }

  lemma SlicesOfValue(e: StreamEvent, rest: seq<StreamEvent>)
    requires e.kind.StreamValue?
    ensures Slices([e] + rest, []) == Slices(rest, [])
  {
    assert ([e] + rest)[1..] == rest;
  }

  /** The slices do not depend on how the fragments are cut. */
  lemma {:induction false} SlicesFlat(log: seq<StreamEvent>, rest: seq<StreamEvent>, pending: Text)
    ensures Slices(Stream.Flat(log) + rest, pending) == Slices(log + rest, pending)
    decreases |log|
  {
    hide Slices;
    if log == [] {
      assert Stream.Flat(log) == [];
    } else {
      var front, e := log[..|log| - 1], log[|log| - 1];
      SlicesFlat(front, Stream.FlatEvent(e) + rest, pending);
      assert Stream.Flat(log) + rest == Stream.Flat(front) + (Stream.FlatEvent(e) + rest);
      assert log + rest == front + ([e] + rest);
      SlicesFront(front, Stream.FlatEvent(e) + rest, [e] + rest, pending) by {
        forall p: Text ensures Slices(Stream.FlatEvent(e) + rest, p) == Slices([e] + rest, p) {
          SlicesOfEvent(e, rest, p);
        }
      }
    }
  }

  lemma SlicesOfEvent(e: StreamEvent, rest: seq<StreamEvent>, pending: Text)
    ensures Slices(Stream.FlatEvent(e) + rest, pending) == Slices([e] + rest, pending)
  {
    if e.kind.StreamPart? {
      SlicesOfCut(e, e.text, rest, pending);
      assert ([e] + rest)[1..] == rest;
    }
  }

  lemma {:induction false} SlicesOfCut(e: StreamEvent, t: Text, rest: seq<StreamEvent>, pending: Text)
    requires e.kind.StreamPart?
    ensures Slices(Stream.FlatEvent(e.(text := t)) + rest, pending) == Slices(rest, pending + t)
    decreases |t|
  {
    var cut := Stream.FlatEvent(e.(text := t));
    if t == [] {
      assert cut + rest == rest && pending + t == pending;
    } else {
      assert cut[0] == e.(text := [t[0]]);
      assert cut[1..] == Stream.FlatEvent(e.(text := t[1..]));
      assert (cut + rest)[1..] == cut[1..] + rest;
      SlicesOfCut(e, t[1..], rest, pending + [t[0]]);
      assert pending + [t[0]] + t[1..] == pending + t;
    }
  }

  lemma {:induction false} SlicesFront(front: seq<StreamEvent>, a: seq<StreamEvent>, b: seq<StreamEvent>, pending: Text)
    requires forall p: Text :: Slices(a, p) == Slices(b, p)
    ensures Slices(front + a, pending) == Slices(front + b, pending)
    decreases |front|
  {
    if front == [] {
      assert front + a == a && front + b == b;
    } else {
      var e := front[0];
      assert (front + a)[1..] == front[1..] + a && (front + b)[1..] == front[1..] + b;
      SlicesFront(front[1..], a, b, if e.kind.StreamBegin? then e.text else if e.kind.StreamPart? then pending + e.text else []);
    }
  }

  // ----------------------------------------- the tree's slices are its containers

  lemma {:induction false} MembersFine(ms: Members, kind: Kind, rest: seq<StreamEvent>)
    requires MembersOk(ms, kind) && MembersHeight(ms) < MAX_NESTING && Fine(rest)
    ensures Fine(MembersEvents(ms, kind) + rest)
    decreases ms
  {
    hide MemberOk, ChildEvents, Fine;
    var m := ms.member;
    MemberParts(m, kind);
    if ms.Last? {
      ChildFine(NameOfKey(m.key), m.value, rest);
    } else {
      MembersFine(ms.rest, kind, rest);
      ChildFine(NameOfKey(m.key), m.value, MembersEvents(ms.rest, kind) + rest);
      assert MembersEvents(ms, kind) + rest == MemberEvents(m, kind) + (MembersEvents(ms.rest, kind) + rest);
    }
  }

  lemma MemberParts(m: Member, kind: Kind)
    requires MemberOk(m, kind)
    ensures ValueOk(m.value) && (m.key.Key? ==> CharsOk(m.key.chars))
  {
  }

  lemma ChildFine(name: Name, v: Value, rest: seq<StreamEvent>)
    requires ValueOk(v) && Height(v) < MAX_NESTING && Fine(rest)
    ensures Fine(ChildEvents(name, v) + rest)
  {
    hide Slices, ValueOk, PrintValue, Parts, Inner;
    if IsContainer(v) {
      var t := KindType(v.kind);
      var begin, end := StreamEvent(StreamBegin, t, name, [OpenOf(v.kind)]), StreamEvent(StreamEnd, t, NoName, [CloseOf(v.kind)]);
      SlicesOfContainer(begin, Inner(v), end, rest);
      PrintedContainer(v);
      assert begin.text + Inner(v) + end.text == PrintValue(v);
      assert IsChildText(PrintValue(v));
      FineMore(PrintValue(v), Slices(rest, []));
    } else {
      SlicesOfValue(ChildEvents(name, v)[0], rest);
    }
  }

  lemma FineMore(t: Text, texts: seq<Text>)
    ensures AllChildTexts([t] + texts) <==> IsChildText(t) && AllChildTexts(texts)
  {
    hide IsChildText;
    if AllChildTexts([t] + texts) {
      assert ([t] + texts)[0] == t;
      forall k | 0 <= k < |texts| ensures IsChildText(texts[k]) {
        assert ([t] + texts)[k + 1] == texts[k];
      }
    }
  }

  /** The slices of a JSON text are JSON values one level down. */
  lemma JsonIsFine(s: Text)
    requires IsJsonText(s)
    ensures Verdict(s).Run? && Fine(Verdict(s).events)
  {
    hide Slices, ValueOk, PrintDocument, DocumentOk, Verdict, MembersEvents, ChildEvents, AllChildTexts;
    var d :| DocumentOk(d) && Height(d.value) <= MAX_NESTING && PrintDocument(d) == s;
    DocumentRuns(d, DocumentNeed(d) + 1);
    NoEventsFine();
    DocumentFine(d);
  }

  lemma NoEventsFine()
    ensures Fine([])
  {
  }

  lemma DocumentFine(d: Document)
    requires DocumentOk(d) && Height(d.value) <= MAX_NESTING
    ensures Fine(DocumentEvents(d))
  {
    hide Slices, MembersOk, AllChildTexts, ChildEvents, MembersEvents, AllWhitespace, Fine;
    NoEventsFine();
    var es := DocumentEvents(d);
    assert es + [] == es;
    if d.value.Filled? {
      MembersFine(d.value.members, d.value.kind, []);
    } else if d.value.Empty? {
    } else {
      ChildFine(NoName, d.value, []);
    }
  }
}
