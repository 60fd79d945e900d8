/** Formatting keeps the meaning: compacting after pretty printing is compacting,
    and the scanner reports the same keys, types and scalar texts throughout. */
module FormatMeaning {
  import opened Bytes
  import opened JsonString
  import opened Grammar
  import opened Events
  import opened Actions
  import opened Format
  import opened FormatTrees
  import opened FormatPretty
  import Scanner

  function CompactDocument(d: Document): Document {
    Document([], CompactValue(d.value), [NEWLINE])
  }

  function PrettyDocument(d: Document): Document {
    Document([], PrettyValue(d.value, 0), [NEWLINE])
  }

  lemma FormattedOk(d: Document)
    requires DocumentOk(d)
    ensures DocumentOk(CompactDocument(d)) && DocumentOk(PrettyDocument(d))
    ensures Height(CompactDocument(d).value) == Height(d.value) == Height(PrettyDocument(d).value)
    ensures BracketDepth(CompactDocument(d).value) == BracketDepth(d.value) == BracketDepth(PrettyDocument(d).value)
  {
    CompactOk(d.value);
    PrettyOk(d.value, 0);
  }

  /** The value of a document in its text. */
  lemma ValueAt(d: Document)
    requires DocumentOk(d)
    ensures var t, i, x := PrintDocument(d), |d.before|, PrintValue(d.value);
      Occurs(t, 0, d.before) && Occurs(t, i, x) && Occurs(t, i + |x|, d.after) && i + |x| + |d.after| == |t| &&
      ValueOk(d.value) && AllWhitespace(d.before) && AllWhitespace(d.after)
  {
    hide PrintValue, ValueOk, Occurs;
    var t, x := PrintDocument(d), PrintValue(d.value);
    OccursWhole(t, t);
    OccursConcat(t, 0, d.before, x + d.after);
    OccursConcat(t, |d.before|, x, d.after);
  }

  lemma AtEnd(t: Text)
    ensures CompactFrom(t, |t|, Outside) == [] && PrettyFrom(t, |t|, Outside, []) == Pretty([])
  {
  }

  /** write_compact_json writes the compact tree. */
  lemma CompactWritten(d: Document)
    requires DocumentOk(d)
    ensures DocumentOk(CompactDocument(d))
    ensures CompactFrom(PrintDocument(d), 0, Outside) + [NEWLINE] == PrintDocument(CompactDocument(d))
  {
    hide CompactFrom, PrintValue, ValueOk, AllWhitespace, Occurs, PrintDocument, DocumentOk;
    FormattedOk(d);
    ValueAt(d);
    var t, i, x := PrintDocument(d), |d.before|, PrintValue(d.value);
    SpaceDropped(t, 0, d.before);
    ValueCompacted(t, i, d.value);
    SpaceDropped(t, i + |x|, d.after);
    AtEnd(t);
    PrintedWithLine(CompactDocument(d));
  }

  lemma PrintedWithLine(d: Document)
    requires DocumentOk(d) && d.before == [] && d.after == [NEWLINE]
    ensures ValueOk(d.value) && PrintDocument(d) == PrintValue(d.value) + [] + [NEWLINE]
  {
    hide PrintValue;
    assert [] + (PrintValue(d.value) + [NEWLINE]) == PrintValue(d.value) + [] + [NEWLINE];
  }

  /** write_pretty_json stays within its array exactly when at most MAX_NESTING brackets
      are open at once, and then writes the pretty tree. */
  lemma PrettyWritten(d: Document)
    requires DocumentOk(d)
    ensures DocumentOk(PrettyDocument(d))
    ensures var r := PrettyFrom(PrintDocument(d), 0, Outside, []);
      (r.Pretty? <==> BracketDepth(d.value) <= MAX_NESTING) && (r.Pretty? ==> r.text + [NEWLINE] == PrintDocument(PrettyDocument(d)))
  {
    hide PrettyFrom, PrintValue, ValueOk, AllWhitespace, Occurs, PrintDocument, DocumentOk, BracketDepth;
    FormattedOk(d);
    ValueAt(d);
    var t, i, x := PrintDocument(d), |d.before|, PrintValue(d.value);
    TruesNothing();
    SpaceSkipped(t, 0, d.before, []);
    if BracketDepth(d.value) > MAX_NESTING {
      ValueTooDeep(t, i, d.value, []);
    } else {
      ValuePretty(t, i, d.value, []);
      SpaceSkipped(t, i + |x|, d.after, []);
      AtEnd(t);
      PrintedWithLine(PrettyDocument(d));
    }
  }

  /** `n` arrays inside each other, the innermost one empty. */
  function Nested(n: nat): (v: Value)
    requires n > 0
    ensures ValueOk(v) && Height(v) == n - 1 && BracketDepth(v) == n
  {
    if n == 1 then Empty(Array, [])
    else
      var ms := Last(Member(NoKey, Nested(n - 1), []));
      assert MembersOk(ms, Array) && MembersHeight(ms) == n - 2 && MembersDepth(ms) == n - 1;
      Filled(Array, [], ms)
  }

  /** A JSON text whose values lie within the depth limit and whose brackets do not. */
  lemma PrettyTooDeep()
    ensures var d := Document([], Nested(MAX_NESTING + 1), []);
      IsJsonText(PrintDocument(d)) && !PrettyFrom(PrintDocument(d), 0, Outside, []).Pretty?
  {
    hide PrettyFrom, PrintDocument, Nested;
    PrettyWritten(Document([], Nested(MAX_NESTING + 1), []));
  }

  /** Both printers on a JSON text whose brackets nest at most MAX_NESTING deep: they
      write JSON texts, and every further round of printing writes the same again. */
  method FormatTwice(s: Text, ghost d: Document)
    returns (compact: Text, pretty: Text, compactOfPretty: Text, prettyOfCompact: Text, prettyOfPretty: Text)
    requires DocumentOk(d) && PrintDocument(d) == s && BracketDepth(d.value) <= MAX_NESTING
    ensures compactOfPretty == compact && prettyOfCompact == prettyOfPretty == pretty
    ensures DocumentOk(CompactDocument(d)) && DocumentOk(PrettyDocument(d))
    ensures compact == PrintDocument(CompactDocument(d)) && pretty == PrintDocument(PrettyDocument(d))
    ensures IsJsonText(s) && IsJsonText(compact) && IsJsonText(pretty)
  {
    hide CompactFrom, PrettyFrom, PrintDocument, DocumentOk, CompactValue, PrettyValue, Height, BracketDepth;
    FormattedOk(d);
    HeightBelowDepth(d.value);
    CompactWritten(d);
    PrettyWritten(d);
    CompactWritten(PrettyDocument(d));
    PrettyWritten(CompactDocument(d));
    PrettyWritten(PrettyDocument(d));
    CompactOfPretty(d.value, 0);
    PrettyOfPretty(d.value, 0);
    compact := WriteCompact(s);
    pretty := WritePretty(s);
    compactOfPretty := WriteCompact(pretty);
    prettyOfCompact := WritePretty(compact);
    prettyOfPretty := WritePretty(pretty);
  }

  lemma {:induction false} HeightBelowDepth(v: Value)
    ensures Height(v) <= BracketDepth(v) <= Height(v) + 1
    decreases v
  {
    if v.Filled? {
      HeightsBelow(v.members);
    }
  }

  lemma {:induction false} HeightsBelow(ms: Members)
    ensures MembersHeight(ms) <= MembersDepth(ms) <= MembersHeight(ms) + 1
    decreases ms
  {
    HeightBelowDepth(ms.member.value);
    if ms.More? {
      HeightsBelow(ms.rest);
    }
  }

  // --------------------------------------------------- what the scanner sees

  datatype Title = NoTitle | Title(text: Text)

  /** An event without positions: its key, and for scalars their text. */
  datatype Note = Note(kind: EventKind, valueType: Type, key: Title, text: Text, count: nat)

  function TextOf(s: Text, span: Span): Text {
    if span.lo <= span.hi <= |s| then s[span.lo..span.hi] else []
  }

  function TitleOf(s: Text, key: Owner): Title {
    if key.NoKeyOwner? then NoTitle else Title(TextOf(s, key.span))
  }

  function NoteOf(s: Text, e: Event): Note {
    Note(e.kind, e.valueType, TitleOf(s, e.key), if e.kind.ValueEvent? then TextOf(s, e.span) else [], e.count)
  }

  function Notes(s: Text, es: seq<Event>): seq<Note> {
    if es == [] then [] else [NoteOf(s, es[0])] + Notes(s, es[1..])
  }

  /** The same from the tree, white space left out. */
  function ShapeNotes(v: Value, key: Title): seq<Note>
    requires ValueOk(v)
    decreases v, 1
  {
    if IsContainer(v) then
      [Note(BeginEvent, KindType(v.kind), key, [], 0)] +
      ((if v.Filled? then MembersNotes(v.members, v.kind) else []) +
      [Note(EndEvent, KindType(v.kind), key, [], if v.kind.Array? then MemberCount(v) else 1)])
    else [Note(ValueEvent, TypeOf(v), key, if v.Str? then PrintChars(v.chars) else PrintValue(v), 1)]
  }

  function MemberNotes(m: Member, kind: Kind): seq<Note>
    requires MemberOk(m, kind)
    decreases m, 2
  {
    ShapeNotes(m.value, if m.key.Key? then Title(PrintChars(m.key.chars)) else NoTitle)
  }

  function MembersNotes(ms: Members, kind: Kind): seq<Note>
    requires MembersOk(ms, kind)
    decreases ms, 3
  {
    if ms.Last? then MemberNotes(ms.member, kind) else MemberNotes(ms.member, kind) + MembersNotes(ms.rest, kind)
  }

  lemma {:induction false} NotesConcat(s: Text, a: seq<Event>, b: seq<Event>)
    ensures Notes(s, a + b) == Notes(s, a) + Notes(s, b)
    decreases |a|
  {
    hide NoteOf;
    if a == [] {
      assert a + b == b;
    } else {
      assert (a + b)[0] == a[0] && (a + b)[1..] == a[1..] + b;
      NotesConcat(s, a[1..], b);
      assert [NoteOf(s, a[0])] + (Notes(s, a[1..]) + Notes(s, b)) == [NoteOf(s, a[0])] + Notes(s, a[1..]) + Notes(s, b);
    }
  }

  lemma OneNote(s: Text, e: Event)
    ensures Notes(s, [e]) == [NoteOf(s, e)]
  {
    hide NoteOf;
    assert [e][1..] == [];
  }

  lemma OccursTextOf(s: Text, i: nat, x: Text)
    requires Occurs(s, i, x)
    ensures TextOf(s, Span(i, i + |x|)) == x
  {
  }

  lemma ScalarNote(s: Text, v: Value, p: nat, key: Owner)
    requires ValueOk(v) && !IsContainer(v) && Occurs(s, p, PrintValue(v))
    ensures Notes(s, Full(v, p, key)) == ShapeNotes(v, TitleOf(s, key))
  {
    hide CharsOk, PrintChars, Occurs, TextOf, TitleOf, Notes;
    var e := Event(ValueEvent, TypeOf(v), key, PrimitiveSpan(v, p), 1);
    OneNote(s, e);
    if v.Str? {
      var x := PrintChars(v.chars);
      OccursConcat(s, p, [QUOTE], x + [QUOTE]);
      OccursConcat(s, p + 1, x, [QUOTE]);
      OccursTextOf(s, p + 1, x);
    } else {
      OccursTextOf(s, p, PrintValue(v));
    }
  }

  lemma {:induction false} FullNotes(s: Text, v: Value, p: nat, key: Owner)
    requires ValueOk(v) && Occurs(s, p, PrintValue(v))
    ensures Notes(s, Full(v, p, key)) == ShapeNotes(v, TitleOf(s, key))
    decreases v, 1
  {
    hide PrintValue, PrimitiveSpan, ValueOk, MembersOk, Occurs, Notes, TitleOf, FullMembers, MembersNotes, PrintMembers;
    if IsContainer(v) {
      ContainerText(v);
      ContainerAt(s, p, v);
      var closing := p + |PrintValue(v)| - 1;
      var begin, end := BeginOf(v.kind, p, key), EndOf(v.kind, closing, closing, key, MemberCount(v));
      var inner := if v.Filled? then FullMembers(v.members, v.kind, p + 1 + |v.ws|) else [];
      if v.Filled? {
        FullMembersNotes(s, v.members, v.kind, p + 1 + |v.ws|);
      } else {
        NoNotes(s);
      }
      assert Full(v, p, key) == [begin] + (inner + [end]);
      NotesConcat(s, [begin], inner + [end]);
      NotesConcat(s, inner, [end]);
      OneNote(s, begin);
      OneNote(s, end);
    } else {
      ScalarNote(s, v, p, key);
    }
  }

  lemma NoNotes(s: Text)
    ensures Notes(s, []) == []
  {
  }

  lemma KeyNote(s: Text, key: Key, kind: Kind, p: nat)
    requires KeyOk(key, kind) && Occurs(s, p, PrintKey(key, kind))
    ensures TitleOf(s, KeyOwnerAt(key, p)) == if key.Key? then Title(PrintChars(key.chars)) else NoTitle
  {
    hide CharsOk, PrintChars, Occurs, TextOf, AllWhitespace;
    if key.Key? {
      var x := PrintChars(key.chars);
      OccursConcat(s, p, Quoted(key.chars), key.before + ([COLON] + key.after));
      OccursConcat(s, p, [QUOTE], x + [QUOTE]);
      OccursConcat(s, p + 1, x, [QUOTE]);
      OccursTextOf(s, p + 1, x);
    }
  }

  lemma {:induction false} FullMemberNotes(s: Text, m: Member, kind: Kind, p: nat)
    requires MemberOk(m, kind) && Occurs(s, p, PrintMember(m, kind))
    ensures Notes(s, FullMember(m, kind, p)) == MemberNotes(m, kind)
    decreases m, 2
  {
    hide ValueOk, PrintKey, PrintValue, Occurs, KeyOwnerAt, Notes, TitleOf, Full, ShapeNotes;
    OccursConcat(s, p, PrintKey(m.key, kind), PrintValue(m.value) + m.ws);
    OccursConcat(s, p + |PrintKey(m.key, kind)|, PrintValue(m.value), m.ws);
    KeyNote(s, m.key, kind, p);
    FullNotes(s, m.value, p + |PrintKey(m.key, kind)|, KeyOwnerAt(m.key, p));
  }

  lemma {:induction false} FullMembersNotes(s: Text, ms: Members, kind: Kind, p: nat)
    requires MembersOk(ms, kind) && Occurs(s, p, PrintMembers(ms, kind))
    ensures Notes(s, FullMembers(ms, kind, p)) == MembersNotes(ms, kind)
    decreases ms, 3
  {
    hide MemberOk, PrintMember, Occurs, Notes, FullMember, MemberNotes;
    var m := ms.member;
    if ms.Last? {
      FullMemberNotes(s, m, kind, p);
    } else {
      var q := p + |PrintMember(m, kind)|;
      MoreOccurs(s, p, PrintMember(m, kind), ms.gap, PrintMembers(ms.rest, kind));
      FullMemberNotes(s, m, kind, p);
      FullMembersNotes(s, ms.rest, kind, q + 1 + |ms.gap|);
      NotesConcat(s, FullMember(m, kind, p), FullMembers(ms.rest, kind, q + 1 + |ms.gap|));
    }
  }

  lemma {:induction false} CompactNotes(v: Value, key: Title)
    requires ValueOk(v)
    ensures ValueOk(CompactValue(v)) && ShapeNotes(CompactValue(v), key) == ShapeNotes(v, key)
    decreases v, 1
  {
    hide PrintValue, MembersOk, AllWhitespace;
    CompactOk(v);
    if v.Filled? {
      ContainerText(v);
      CompactMembersNotes(v.members, v.kind);
    }
  }

  lemma {:induction false} CompactMembersNotes(ms: Members, kind: Kind)
    requires MembersOk(ms, kind)
    ensures MembersOk(CompactMembers(ms), kind) && MembersNotes(CompactMembers(ms), kind) == MembersNotes(ms, kind)
    ensures Count(CompactMembers(ms)) == Count(ms)
    decreases ms, 3
  {
    hide PrintValue, ValueOk, KeyOk, AllWhitespace;
    CompactMembersOk(ms, kind);
    CompactMemberNotes(ms.member, kind);
    if ms.More? {
      CompactMembersNotes(ms.rest, kind);
    }
  }

  lemma {:induction false} CompactMemberNotes(m: Member, kind: Kind)
    requires MemberOk(m, kind) && MemberOk(CompactMember(m), kind)
    ensures MemberNotes(CompactMember(m), kind) == MemberNotes(m, kind)
    decreases m, 2
  {
    hide ShapeNotes, ValueOk;
    CompactNotes(m.value, if m.key.Key? then Title(PrintChars(m.key.chars)) else NoTitle);
  }

  /** What the scanner reports for a document when everything is entered. */
  lemma DocumentNotes(d: Document)
    requires DocumentOk(d)
    ensures Notes(PrintDocument(d), DocumentTrace(d, EnterAll()).log) == ShapeNotes(d.value, NoTitle)
  {
    hide PrintValue, ValueOk, Occurs, Full, ShapeNotes, ValueTrace, Notes, PrintDocument;
    ValueAt(d);
    FullIsTrace(d.value, |d.before|, NoKeyOwner, []);
    assert [] + Full(d.value, |d.before|, NoKeyOwner) == Full(d.value, |d.before|, NoKeyOwner);
    FullNotes(PrintDocument(d), d.value, |d.before|, NoKeyOwner);
  }

  /** Scanning the original, the compact and the pretty text gives the same keys,
      types, scalar texts and element counts in the same order. */
  lemma SameNotes(d: Document)
    requires DocumentOk(d)
    ensures DocumentOk(CompactDocument(d)) && DocumentOk(PrettyDocument(d))
    ensures var notes := Notes(PrintDocument(d), DocumentTrace(d, EnterAll()).log);
      notes == Notes(PrintDocument(CompactDocument(d)), DocumentTrace(CompactDocument(d), EnterAll()).log) &&
      notes == Notes(PrintDocument(PrettyDocument(d)), DocumentTrace(PrettyDocument(d), EnterAll()).log)
  {
    hide Notes, PrintDocument, DocumentTrace, ShapeNotes, DocumentOk, PrettyValue, CompactValue;
    FormattedOk(d);
    DocumentNotes(d);
    DocumentNotes(CompactDocument(d));
    DocumentNotes(PrettyDocument(d));
    RootOk(d);
    RootOk(PrettyDocument(d));
    CompactNotes(d.value, NoTitle);
    CompactNotes(PrettyDocument(d).value, NoTitle);
    CompactOfPretty(d.value, 0);
  }

  lemma RootOk(d: Document)
    requires DocumentOk(d)
    ensures ValueOk(d.value)
  {
  }

  /** Scans the text before and after formatting. */
  method ScanFormatted(s: Text, ghost d: Document) returns (before: seq<Note>, compact: seq<Note>, pretty: seq<Note>)
    requires DocumentOk(d) && PrintDocument(d) == s && BracketDepth(d.value) <= MAX_NESTING
    ensures before == compact == pretty == ShapeNotes(d.value, NoTitle)
  {
    hide Notes, DocumentTrace, ShapeNotes, PrintDocument, DocumentOk, Height, BracketDepth;
    var c, p, cp, pc, pp := FormatTwice(s, d);
    FormattedOk(d);
    HeightBelowDepth(d.value);
    DocumentNotes(d);
    SameNotes(d);
    before := ScanNotes(s, d);
    compact := ScanNotes(c, CompactDocument(d));
    pretty := ScanNotes(p, PrettyDocument(d));
  }

  method ScanNotes(s: Text, ghost d: Document) returns (notes: seq<Note>)
    requires DocumentOk(d) && PrintDocument(d) == s && Height(d.value) <= MAX_NESTING
    ensures notes == Notes(s, DocumentTrace(d, EnterAll()).log)
  {
    hide Notes, DocumentTrace, PrintDocument, DocumentOk;
    var scan := new Scanner.Scan(s, EnterAll());
    var r := scan.Parse();
    notes := Notes(s, scan.log);
  }
}
