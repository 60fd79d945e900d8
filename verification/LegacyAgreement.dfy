/** Exactly what kason_parse_internal accepts, and its agreement with the scanner. */
module LegacyAgreement {
  import opened Bytes
  import opened JsonString
  import opened Number
  import opened Grammar
  import opened Events
  import opened Modes
  import opened LegacySpec
  import opened LegacyTokens
  import opened LegacyBrackets
  import opened LegacyTrees
  import opened LegacyComplete
  import opened LegacySound
  import Legacy

  /** JSON texts within the limit of the older parser. */
  ghost predicate IsLegacyText(t: Text) {
    exists d :: DocumentOk(d) && WithinLimit(0, Enters(d.value)) && PrintDocument(d) == t
  }

  /** A bare root token behind which one more byte is dropped: a comma that is not
      the last byte, or a NUL byte. */
  ghost predicate DropsByte(t: Text) {
    exists before, v, c: Byte, after :: Dropped(t, before, v, c, after)
  }

  predicate Dropped(t: Text, before: Text, v: Value, c: Byte, after: Text) {
    ValueOk(v) && IsBare(v) && AllWhitespace(before) && AllWhitespace(after) && ((c == COMMA && after != []) || c == 0) &&
    t == before + (PrintValue(v) + ([c] + after))
  }

  /** The callback of a document's root. */
  function RootChildren(d: Document): seq<Child>
    requires DocumentOk(d)
  {
    if IsObject(d.value) then ObjectChildren(d.value, |d.before|) else [ChildAt(NoKeyOwner, d.value, |d.before|)]
  }

  lemma DocumentParts(d: Document)
    requires DocumentOk(d)
    ensures var t := PrintDocument(d);
      Occurs(t, 0, d.before) && Occurs(t, |d.before|, PrintValue(d.value)) && |d.before| < |t| &&
      t[|d.before| + |PrintValue(d.value)|..] == d.after && SkipWs(t, 0) == |d.before| &&
      t[|d.before|] == PrintValue(d.value)[0]
  {
    hide ValueOk, PrintValue, SkipWs;
    var t, x := PrintDocument(d), PrintValue(d.value);
    OccursWhole(t, t);
    OccursConcat(t, 0, d.before, x + d.after);
    OccursConcat(t, |d.before|, x, d.after);
    ValueStart(t, |d.before|, d.value);
    SkipWsTo(t, 0, d.before);
  }

  // ---------------------------------------------------------------- objects

  lemma ObjectDocument(d: Document)
    requires DocumentOk(d) && IsObject(d.value)
    ensures ParseText(PrintDocument(d), AutoMode, 0) ==
      if WithinLimit(0, Enters(d.value)) then Accepted(RootChildren(d)) else Rejected
  {
    hide ValueOk, PrintValue, AllWhitespace, ParseText, ObjectChildren, SkipWs;
    DocumentParts(d);
    ObjectText(PrintDocument(d), d.before, d.value, 0);
  }

  // ------------------------------------------------------------ other roots

  lemma RootBegins(t: Text)
    ensures SkipWs(t, 0) >= |t| ==> ParseText(t, AutoMode, 0) == Rejected
    ensures SkipWs(t, 0) < |t| && t[SkipWs(t, 0)] != LBRACE ==>
      var i := SkipWs(t, 0);
      var mode := RootMode(t[i]);
      ParseText(t, AutoMode, 0) == Continue(Job(t, mode, t[i] == LBRACKET, 0), Begin(mode, i), i)
  {
    hide Continue, SkipWs;
  }

  lemma RootCommit(job: Job, p: Parser, stop: int, at: nat)
    requires at < |job.t| && job.depth <= MAX_NESTING && job.mode != ObjectMode && (job.mode == ArrayMode ==> job.rootArray)
    ensures AtCommit(job, p, stop, at) ==
      if Checked(job, p, stop) && AllWhitespace(job.t[at + 1..]) then Accepted([ChildOf(p, job.t, stop)]) else Rejected
  {
    hide Checked, ChildOf, AllWhitespace, Continue;
    var q := Noted(Committed(job, p, job.t[at]), job.t[at], at);
    EndComplete(job, q, at + 1);
    var child := ChildOf(p, job.t, stop);
    assert [child] + [] == [child];
  }

  lemma ArrayDocument(d: Document)
    requires DocumentOk(d) && IsContainer(d.value) && d.value.kind.Array?
    ensures ParseText(PrintDocument(d), AutoMode, 0) ==
      if WithinLimit(0, Enters(d.value)) then Accepted(RootChildren(d)) else Rejected
  {
    hide ValueOk, PrintValue, AllWhitespace, ParseText, SkipWs, Continue, AtCommit, Occurs, Content, ChildAt, ChildOf, DocumentOk, PrintDocument;
    var t, v, i := PrintDocument(d), d.value, |d.before|;
    PartsOk(d);
    DocumentParts(d);
    FirstOfArray(v);
    RootBegins(t);
    var job, p := Job(t, ArrayMode, true, 0), Begin(ArrayMode, i);
    var q := ArrayRest(job, p, i, v);
    OccursFits(t, i, PrintValue(v));
    RootCommit(job, q, if v.Empty? then i + 1 else i + 1 + |Content(v)|, i + |PrintValue(v)| - 1);
    EnteredIff(v, 0);
  }

  lemma PartsOk(d: Document)
    requires DocumentOk(d)
    ensures ValueOk(d.value) && AllWhitespace(d.before) && AllWhitespace(d.after)
  {
  }

  lemma FirstOfArray(v: Value)
    requires ValueOk(v) && IsContainer(v)
    ensures PrintValue(v)[0] == OpenOf(v.kind)
  {
  }

  lemma StringDocument(d: Document)
    requires DocumentOk(d) && d.value.Str?
    ensures ParseText(PrintDocument(d), AutoMode, 0) == Accepted(RootChildren(d))
  {
    hide CharsOk, PrintChars, AllWhitespace, ParseText, SkipWs, Continue, AtCommit, PrintDocument, ReadBody;
    var t, i := PrintDocument(d), |d.before|;
    DocumentParts(d);
    RootBegins(t);
    var x := PrintChars(d.value.chars);
    OccursConcat(t, i, [QUOTE], x + [QUOTE]);
    OccursConcat(t, i + 1, x, [QUOTE]);
    OccursByte(t, i + 1 + |x|, QUOTE);
    ReadBodyComplete(t, i + 1, d.value.chars);
    var job, p := Job(t, StringMode, false, 0), Begin(StringMode, i);
    var begun := p.(phase := FindStringEnd, quoting := InString, valueBegin := i + 1, unclean := false);
    GoRest(job, p, i, begun);
    var q := StringRest(job, Noted(begun, QUOTE, i), i + 1);
    RootCommit(job, q, i + 1 + |x|, i + 1 + |x|);
  }

  lemma ArraySound(t: Text) returns (d: Document)
    requires ParseText(t, AutoMode, 0).Accepted? && At(t, SkipWs(t, 0)) == LBRACKET
    ensures DocumentOk(d) && PrintDocument(d) == t
  {
    hide AllWhitespace, ParseText, SkipWs, Continue, AtCommit, Occurs, FindClose, LastSolid, PrintValue, ValueOk, Checked, ChildOf, Step;
    var i := SkipWs(t, 0);
    RootBegins(t);
    var job, p := Job(t, ArrayMode, true, 0), Begin(ArrayMode, i);
    var noted := ArrayBegun(job, p, i);
    ContainerRest(job, noted, i + 1, Array);
    var r := FindClose(t, i + 1, Array, Outside, Brackets(1, 0, 0));
    var last := LastSolid(t, i + 1, r.at, i);
    RootCommit(job, Closed(noted, t, i + 1, r), last + 1, r.at);
    RootChecked(job, Closed(noted, t, i + 1, r), last + 1);
    var v := SliceSound(t, i, r.at, 0);
    d := WholeDocument(t, v);
  }

  /** A value behind the leading white space, followed by white space only. */
  lemma WholeDocument(t: Text, v: Value) returns (d: Document)
    requires ValueOk(v) && Occurs(t, SkipWs(t, 0), PrintValue(v))
    requires var n := SkipWs(t, 0) + |PrintValue(v)|; n <= |t| && AllWhitespace(t[n..])
    ensures DocumentOk(d) && PrintDocument(d) == t && d.value == v
  {
    hide AllWhitespace, SkipWs, Occurs, PrintValue, ValueOk;
    var i := SkipWs(t, 0);
    d := Document(t[..i], v, t[i + |PrintValue(v)|..]);
    SpaceBefore(t);
    WholeText(t, t[..i], PrintValue(v));
  }

  lemma RootChecked(job: Job, p: Parser, stop: int)
    requires job.rootArray && job.depth <= MAX_NESTING && p.phase == FindArrayEnd
    ensures Checked(job, p, stop) <==>
      p.valueBegin >= stop || ParseText(Slice(job.t, p.valueBegin, stop), ArrayMode, job.depth).Accepted?
  {
    hide ParseText;
  }

  lemma {:induction false} StringRootSound(t: Text) returns (d: Document)
    requires ParseText(t, AutoMode, 0).Accepted? && At(t, SkipWs(t, 0)) == QUOTE
    ensures DocumentOk(d) && d.value.Str? && PrintDocument(d) == t
  {
    hide AllWhitespace, ParseText, SkipWs, Continue, AtCommit, Occurs, ReadBody, CharsOk, PrintChars, Checked;
    var i := SkipWs(t, 0);
    RootBegins(t);
    var job, p := Job(t, StringMode, false, 0), Begin(StringMode, i);
    var begun := p.(phase := FindStringEnd, quoting := InString, valueBegin := i + 1, unclean := false);
    GoRest(job, p, i, begun);
    var q := StringRest(job, Noted(begun, QUOTE, i), i + 1);
    var body := ReadBody(t, i + 1);
    RootCommit(job, q, body.close, body.close);
    ReadQuotedSound(t, i);
    d := WholeDocument(t, Str(body.chars));
  }

  // ------------------------------------------------------ bare root tokens

  /** What a bare root token is followed by when it is accepted. */
  predicate RootRest(t: Text, n: nat)
    requires n <= |t|
  {
    n == |t| || AllWhitespace(t[n + 1..])
  }

  lemma TokenRoot(t: Text) returns (q: Parser)
    requires var i := SkipWs(t, 0); i < |t| && StartsToken(t[i])
    ensures var i := SkipWs(t, 0);
      var n := TokenStop(t, i + 1, GenericMode);
      q.phase == (if NumberBegin(t[i]) != Invalid then FindNumberEnd else FindGenericEnd) &&
      ParseText(t, AutoMode, 0) ==
        if TokenOk(t[i..n]) && RootRest(t, n) then Accepted([Child(NoKeyOwner, ValueTypeOf(q, t[i..n]), i, n, 1)])
        else Rejected
  {
    hide AllWhitespace, ParseText, SkipWs, Continue, TokenOk, TokenStop, Committed, ChildOf, NumberBegin;
    var i := SkipWs(t, 0);
    RootBegins(t);
    var job, p := Job(t, GenericMode, false, 0), Begin(GenericMode, i);
    q := TokenRest(job, p, i);
    var n := TokenEnd(job, i);
    var at := CommitByte(t, n);
    TokenCommit(job, q, at, ChildOf(q, t, n));
    NothingBehind(t);
  }

  lemma NothingBehind(t: Text)
    ensures AllWhitespace(t[|t|..])
  {
  }

  lemma TokenCommit(job: Job, q: Parser, at: nat, child: Child)
    requires at < |job.t| && job.mode == GenericMode && job.depth <= MAX_NESTING
    ensures Prepend(child, Continue(job, Noted(Committed(job, q, job.t[at]), job.t[at], at), at + 1)) ==
      if AllWhitespace(job.t[at + 1..]) then Accepted([child]) else Rejected
  {
    hide Continue, AllWhitespace;
    EndComplete(job, Noted(Committed(job, q, job.t[at]), job.t[at], at), at + 1);
    assert [child] + [] == [child];
  }

  lemma {:induction false} FinalCommaStays(t: Text, i: nat, mode: Mode)
    requires i <= |t| && TokenStop(t, i, mode) < |t| && t[TokenStop(t, i, mode)] == COMMA
    requires EndToken(mode) != COMMA
    ensures TokenStop(t, i, mode) < |t| - 1
    decreases |t| - i
  {
    if i < |t| && !Delimits(mode, t[i]) && TokenStop(t, i, mode) != i {
      FinalCommaStays(t, i + 1, mode);
    }
  }

  lemma TokenRootSound(t: Text)
    requires ParseText(t, AutoMode, 0).Accepted?
    requires var i := SkipWs(t, 0); i < |t| && StartsToken(t[i])
    ensures IsLegacyText(t) || DropsByte(t)
  {
    hide ParseText, SkipWs, Continue, TokenOk, TokenStop, ValueTypeOf, PrintValue, ValueOk, NumberBegin, Enters, IsBare;
    var i := SkipWs(t, 0);
    var q := TokenRoot(t);
    var n := TokenStop(t, i + 1, GenericMode);
    var v := ValueOfToken(t[i..n]);
    BareEnters(v);
    if n == |t| || IsWhitespace(t[n]) {
      SpaceBehind(t, n);
      OccursSlice(t, i, n);
      var d := WholeDocument(t, v);
    } else {
      StopDelimits(t, i + 1, GenericMode);
      if t[n] == COMMA {
        FinalCommaStays(t, i + 1, GenericMode);
      }
      SpaceBefore(t);
      assert t == t[..i] + (t[i..n] + ([t[n]] + t[n + 1..]));
      assert Dropped(t, t[..i], v, t[n], t[n + 1..]);
    }
  }

  lemma SpaceBehind(t: Text, n: nat)
    requires n <= |t| && RootRest(t, n) && (n < |t| ==> IsWhitespace(t[n]))
    ensures AllWhitespace(t[n..])
  {
    assert n < |t| ==> t[n..] == [t[n]] + t[n + 1..];
  }

  lemma BareEnters(v: Value)
    requires IsBare(v)
    ensures Enters(v) == 0
  {
  }

  /** A bare root token and what may follow it. */
  lemma TokenRootAccepts(t: Text, before: Text, v: Value, rest: Text)
    requires ValueOk(v) && IsBare(v) && AllWhitespace(before) && t == before + (PrintValue(v) + rest)
    requires rest == [] || (Delimits(GenericMode, rest[0]) && AllWhitespace(rest[1..]) && (rest[0] == COMMA ==> |rest| > 1))
    ensures ParseText(t, AutoMode, 0) == Accepted([ChildAt(NoKeyOwner, v, |before|)])
  {
    hide ParseText, SkipWs, Continue, TokenOk, TokenStop, PrintValue, ValueOk, NumberBegin, IsBareByte, AllWhitespace, ChildAt, Delimits, Occurs;
    var x := PrintValue(v);
    var i, n := |before|, |before| + |x|;
    RootLayout(t, before, x, rest);
    ValueStart(t, i, v);
    SkipWsTo(t, 0, before);
    BareStarts(v);
    BytesAt(t, i, x);
    TokenStopIs(t, i + 1, n, GenericMode);
    var q := TokenRoot(t);
    TokenOfValue(v);
    BareChild(Begin(GenericMode, i), i, n, v, q);
  }

  lemma RootLayout(t: Text, before: Text, x: Text, rest: Text)
    requires t == before + (x + rest)
    ensures var i, n := |before|, |before| + |x|;
      Occurs(t, 0, before) && Occurs(t, i, x) && n <= |t| && t[i..n] == x && (n == |t| <==> rest == []) &&
      (rest != [] ==> t[n] == rest[0] && t[n + 1..] == rest[1..])
  {
    OccursWhole(t, t);
    OccursConcat(t, 0, before, x + rest);
    OccursConcat(t, |before|, x, rest);
  }

  lemma BareDocument(d: Document)
    requires DocumentOk(d) && IsBare(d.value)
    ensures ParseText(PrintDocument(d), AutoMode, 0) == Accepted(RootChildren(d))
  {
    hide ParseText, PrintValue, ValueOk, ChildAt;
    TokenRootAccepts(PrintDocument(d), d.before, d.value, d.after);
  }

  // ------------------------------------------------------- the main results

  /** A document is accepted exactly when the containers that are entered lie within
      the limit, and then the callback sees its children. */
  lemma DocumentParsed(d: Document)
    requires DocumentOk(d)
    ensures ParseText(PrintDocument(d), AutoMode, 0) ==
      if WithinLimit(0, Enters(d.value)) then Accepted(RootChildren(d)) else Rejected
  {
    hide ParseText, PrintDocument, RootChildren;
    if IsObject(d.value) {
      ObjectDocument(d);
    } else if IsContainer(d.value) {
      ArrayDocument(d);
    } else if d.value.Str? {
      StringDocument(d);
    } else {
      BareDocument(d);
    }
  }

  /** Exactly what is accepted: the JSON texts within the limit, and bare root
      tokens behind which a byte is dropped. */
  lemma AcceptsExactly(t: Text)
    ensures ParseText(t, AutoMode, 0).Accepted? <==> IsLegacyText(t) || DropsByte(t)
  {
    hide ParseText, PrintDocument, RootChildren, DocumentOk, SkipWs, Enters, Dropped;
    var i := SkipWs(t, 0);
    if ParseText(t, AutoMode, 0).Accepted? {
      RootBegins(t);
      if t[i] == LBRACE || t[i] == LBRACKET || t[i] == QUOTE {
        var d := RootSound(t);
        DocumentParsed(d);
      } else {
        StartsAt(t);
        TokenRootSound(t);
      }
    }
    if IsLegacyText(t) {
      var d :| DocumentOk(d) && WithinLimit(0, Enters(d.value)) && PrintDocument(d) == t;
      DocumentParsed(d);
    }
    if DropsByte(t) {
      var before, v, c: Byte, after :| Dropped(t, before, v, c, after);
      DroppedAccepted(t, before, v, c, after);
    }
  }

  lemma DroppedAccepted(t: Text, before: Text, v: Value, c: Byte, after: Text)
    requires Dropped(t, before, v, c, after)
    ensures ParseText(t, AutoMode, 0).Accepted?
  {
    hide ParseText, PrintValue, ValueOk;
    assert ([c] + after)[1..] == after;
    TokenRootAccepts(t, before, v, [c] + after);
  }

  lemma StartsAt(t: Text)
    requires var i := SkipWs(t, 0); i < |t| && t[i] != LBRACE && t[i] != LBRACKET && t[i] != QUOTE
    ensures StartsToken(t[SkipWs(t, 0)])
  {
  }

  lemma RootSound(t: Text) returns (d: Document)
    requires ParseText(t, AutoMode, 0).Accepted?
    requires var c := At(t, SkipWs(t, 0)); c == LBRACE || c == LBRACKET || c == QUOTE
    ensures DocumentOk(d) && PrintDocument(d) == t
  {
    hide ParseText, SkipWs, PrintValue, ValueOk;
    var c := At(t, SkipWs(t, 0));
    if c == LBRACE {
      var before, v, after := ObjectSound(t, 0);
      d := Document(before, v, after);
    } else if c == LBRACKET {
      d := ArraySound(t);
    } else {
      d := StringRootSound(t);
    }
  }

  /** The two limits differ by at most one level. */
  lemma {:induction false} LimitsDifferByOne(v: Value)
    ensures Height(v) <= Enters(v) <= Height(v) + 1
    decreases v
  {
    if v.Filled? {
      MembersLimits(v.members);
    }
  }

  lemma {:induction false} MembersLimits(ms: Members)
    ensures MembersHeight(ms) <= MembersEnter(ms) <= MembersHeight(ms) + 1
    decreases ms
  {
    LimitsDifferByOne(ms.member.value);
    if ms.More? {
      MembersLimits(ms.rest);
    }
  }

  /** Texts whose root is an object or an array: the two parsers agree on every text
      whose values all lie at depth at most MAX_NESTING, and the older parser
      accepts whatever the scanner accepts. */
  lemma ParsersAgree(t: Text)
    requires var c := At(t, SkipWs(t, 0)); c == LBRACE || c == LBRACKET
    ensures IsJsonText(t) <==>
      ParseText(t, AutoMode, 0).Accepted? && forall d | DocumentOk(d) && PrintDocument(d) == t :: Height(d.value) <= MAX_NESTING
  {
    hide ParseText, PrintDocument, DocumentOk, SkipWs, Enters, Height, RootChildren;
    if IsJsonText(t) {
      var d :| DocumentOk(d) && Height(d.value) <= MAX_NESTING && PrintDocument(d) == t;
      LimitsDifferByOne(d.value);
      DocumentParsed(d);
      forall d' | DocumentOk(d') && PrintDocument(d') == t ensures Height(d'.value) <= MAX_NESTING {
        Unambiguous(d, d');
      }
    } else if ParseText(t, AutoMode, 0).Accepted? {
      var d := RootSound(t);
    }
  }

  /** kason_parse_internal on a whole document, with the scanner's answer beside it:
      unless the callback breaks, the result and the children are those of the document;
      the first break ends the calls. */
  method Parse(t: Text, policy: Legacy.ChildPolicy) returns (ok: bool, log: seq<Child>)
    ensures !ok ==> !IsLegacyText(t) && !DropsByte(t) && !IsJsonText(t)
    ensures ok && !(log != [] && policy(log)) ==>
      (IsLegacyText(t) || DropsByte(t)) && forall d | DocumentOk(d) && PrintDocument(d) == t :: log == RootChildren(d)
    ensures forall k | 0 < k < |log| :: !policy(log[..k])
    ensures ok && log != [] && policy(log) && IsLegacyText(t) ==> forall d | DocumentOk(d) && PrintDocument(d) == t :: log <= RootChildren(d)
  {
    hide ParseText, PrintDocument, DocumentOk, RootChildren, IsLegacyText, DropsByte, IsJsonText;
    AcceptsExactly(t);
    JsonIsLegacy(t);
    forall d | DocumentOk(d) && PrintDocument(d) == t
      ensures ParseText(t, AutoMode, 0).Accepted? ==> ParseText(t, AutoMode, 0) == Accepted(RootChildren(d))
    {
      DocumentParsed(d);
    }
    ok, log := Legacy.ParseInternal(t, AutoMode, 0, null, policy);
    if ParseText(t, AutoMode, 0).Accepted? {
      Legacy.SelectEverything(t, ParseText(t, AutoMode, 0).children);
    }
    OneBreak(policy, log);
  }

  lemma OneBreak(policy: Legacy.ChildPolicy, log: seq<Child>)
    ensures Legacy.Patient(policy, log) && log != [] ==> !policy(log)
    ensures Legacy.Patient(policy, log) || Legacy.BrokeLast(policy, log) ==> forall k | 0 < k < |log| :: !policy(log[..k])
  {
    if Legacy.Patient(policy, log) && log != [] {
      assert log[..|log|] == log;
    }
    if Legacy.BrokeLast(policy, log) {
      forall k | 0 < k < |log| ensures !policy(log[..k]) {
        assert log[..|log| - 1][..k] == log[..k];
      }
    }
  }

  lemma JsonIsLegacy(t: Text)
    ensures IsJsonText(t) ==> IsLegacyText(t)
  {
    hide PrintDocument, DocumentOk;
    forall d | DocumentOk(d) && Height(d.value) <= MAX_NESTING && PrintDocument(d) == t
      ensures WithinLimit(0, Enters(d.value))
    {
      LimitsDifferByOne(d.value);
    }
  }
}
