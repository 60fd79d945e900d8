/** The bracket counters of kason_parse_internal: on a well-formed value they find
    its closing bracket. */
module LegacyBrackets {
  import opened Bytes
  import opened JsonString
  import opened Number
  import opened Grammar
  import opened LegacySpec
  import opened LegacyTokens

  /** Where the counters find the end of the container that surrounds `i`. */
  datatype Close = NoClose | ClosedAt(at: nat, brackets: Brackets)

  function FindClose(t: Text, i: nat, kind: Kind, q: Quoting, b: Brackets): (r: Close)
    ensures r.ClosedAt? ==> i <= r.at < |t| && t[r.at] == CloseOf(kind)
    decreases |t| - i
  {
    if i >= |t| then NoClose
    else if q != Outside then
      match QuotedStep(q, t[i])
      case BadQuoted => NoClose
      case StillQuoted(q') => FindClose(t, i + 1, kind, q', b)
      case QuoteCloses => FindClose(t, i + 1, kind, Outside, b)
    else if t[i] == QUOTE then FindClose(t, i + 1, kind, InString, b)
    else
      var b' := Counted(b, t[i]);
      if Negative(b') then NoClose
      else if Closes(kind, b', t[i]) then ClosedAt(i, b')
      else FindClose(t, i + 1, kind, Outside, b')
  }

  /** The last byte before `c` that is no white space. */
  function LastSolid(t: Text, i: nat, c: nat, last: int): int
    requires i <= c <= |t|
    decreases c - i
  {
    if i == c then last else LastSolid(t, i + 1, c, if IsWhitespace(t[i]) then last else i)
  }

  lemma {:induction false} LastSolidIs(t: Text, i: nat, c: nat, last: int, k: nat)
    requires i <= k < c <= |t| && !IsWhitespace(t[k]) && AllWhitespace(t[k + 1..c])
    ensures LastSolid(t, i, c, last) == k
    decreases c - i
  {
    if i < k {
      LastSolidIs(t, i + 1, c, if IsWhitespace(t[i]) then last else i, k);
    } else {
      LastSolidStays(t, i + 1, c, k);
    }
  }

  lemma {:induction false} LastSolidStays(t: Text, i: nat, c: nat, last: int)
    requires i <= c <= |t| && AllWhitespace(t[i..c])
    ensures LastSolid(t, i, c, last) == last
    decreases c - i
  {
    if i < c {
      assert IsWhitespace(t[i..c][0]);
      assert t[i + 1..c] == t[i..c][1..];
      LastSolidStays(t, i + 1, c, last);
    }
  }

  function PhaseOf(kind: Kind): Phase {
    if kind.Object? then FindObjectEnd else FindArrayEnd
  }

  /** What happens at the closing bracket. */
  function AtClose(job: Job, p: Parser, c: nat, kind: Kind): Outcome
    requires c < |job.t| && job.depth <= MAX_NESTING
  {
    if kind.Object? then AtCommit(job, p, c + 1, c)
    else if p.lastSolid >= p.valueBegin && ByteAt(job.t, p.lastSolid) == COMMA then Rejected
    else AtCommit(job, p, p.lastSolid + 1, c)
  }

  function Closed(p: Parser, t: Text, i: nat, r: Close): Parser
    requires r.ClosedAt? && i <= r.at <= |t|
  {
    p.(quoting := Outside, brackets := r.brackets, lastSolid := LastSolid(t, i, r.at, p.lastSolid))
  }

  lemma {:induction false} ContainerRest(job: Job, p: Parser, i: nat, kind: Kind)
    requires i <= |job.t| && job.depth <= MAX_NESTING && p.phase == PhaseOf(kind)
    ensures var r := FindClose(job.t, i, kind, p.quoting, p.brackets);
      Continue(job, p, i) == if r.NoClose? then Rejected else AtClose(job, Closed(p, job.t, i, r), r.at, kind)
    decreases |job.t| - i
  {
    hide Continue, AtCommit, QuotedStep, Counted, Negative, Closes, IsWhitespace;
    if i == |job.t| {
      HaltRest(job, p, i);
    } else {
      var c := job.t[i];
      var b := Counted(p.brackets, c);
      assert Step(p, job.t, i, job.mode) == StepContainerEnd(p, job.t, i, kind);
      hide Step;
      if p.quoting != Outside {
        match QuotedStep(p.quoting, c)
        case BadQuoted => HaltRest(job, p, i);
        case StillQuoted(q) => ContainerOn(job, p, i, kind, p.(quoting := q));
        case QuoteCloses => ContainerOn(job, p, i, kind, p.(quoting := Outside));
      } else if c == QUOTE {
        ContainerOn(job, p, i, kind, p.(quoting := InString));
      } else if Negative(b) {
        HaltRest(job, p, i);
      } else if !Closes(kind, b, c) {
        ContainerOn(job, p, i, kind, p.(brackets := b));
      } else if kind.Object? {
        CommitRest(job, p, i, p.(brackets := b), i + 1);
      } else if p.lastSolid >= p.valueBegin && ByteAt(job.t, p.lastSolid) == COMMA {
        HaltRest(job, p, i);
      } else {
        CommitRest(job, p, i, p.(brackets := b), p.lastSolid + 1);
      }
    }
  }

  /** One byte that leaves the container open. */
  lemma {:induction false} ContainerOn(job: Job, p: Parser, i: nat, kind: Kind, p': Parser)
    requires i < |job.t| && job.depth <= MAX_NESTING && p.phase == PhaseOf(kind)
    requires Step(p, job.t, i, job.mode) == Go(p') && p' == p.(quoting := p'.quoting, brackets := p'.brackets)
    ensures var r := FindClose(job.t, i + 1, kind, p'.quoting, p'.brackets);
      Continue(job, p, i) == if r.NoClose? then Rejected else AtClose(job, Closed(p, job.t, i, r), r.at, kind)
    decreases |job.t| - i, 0
  {
    hide Continue, AtCommit, AtClose, FindClose, Step;
    var n := Noted(p', job.t[i], i);
    GoRest(job, p, i, p');
    ContainerRest(job, n, i + 1, kind);
    var r := FindClose(job.t, i + 1, kind, p'.quoting, p'.brackets);
    if r.ClosedAt? {
      assert Closed(p, job.t, i, r) == Closed(n, job.t, i + 1, r);
    }
  }

  // -------------------------------------- well-formed values are passed over

  /** Inside the container: its counter is positive. */
  predicate Within(kind: Kind, b: Brackets) {
    b.arrays >= 0 && b.objects >= 0 && (if kind.Object? then b.objects else b.arrays) >= 1
  }

  predicate IsNeutral(c: int) {
    c != QUOTE && c != COMMA && c != LBRACE && c != RBRACE && c != LBRACKET && c != RBRACKET
  }

  lemma {:induction false} NeutralScans(t: Text, i: nat, kind: Kind, b: Brackets, x: Text)
    requires Within(kind, b) && Occurs(t, i, x) && forall k | 0 <= k < |x| :: IsNeutral(x[k])
    ensures FindClose(t, i, kind, Outside, b) == FindClose(t, i + |x|, kind, Outside, b)
    decreases |x|
  {
    if x == [] {
    } else {
      assert x == [x[0]] + x[1..];
      OccursConcat(t, i, [x[0]], x[1..]);
      OccursByte(t, i, x[0]);
      NeutralScans(t, i + 1, kind, b, x[1..]);
    }
  }

  lemma SpaceScans(t: Text, i: nat, kind: Kind, b: Brackets, w: Text)
    requires Within(kind, b) && Occurs(t, i, w) && AllWhitespace(w)
    ensures FindClose(t, i, kind, Outside, b) == FindClose(t, i + |w|, kind, Outside, b)
  {
    NeutralScans(t, i, kind, b, w);
  }

  lemma {:induction false} StringScans(t: Text, i: nat, kind: Kind, q: Quoting, b: Brackets)
    requires q != Outside && QuoteStop(t, i, q) >= 0
    ensures FindClose(t, i, kind, q, b) == FindClose(t, QuoteStop(t, i, q) + 1, kind, Outside, b)
    decreases |t| - i
  {
    match QuotedStep(q, t[i])
    case StillQuoted(q') => StringScans(t, i + 1, kind, q', b);
    case _ =>
  }

  lemma QuotedScans(t: Text, i: nat, kind: Kind, b: Brackets, cs: seq<Char>)
    requires CharsOk(cs) && Occurs(t, i, Grammar.Quoted(cs))
    ensures FindClose(t, i, kind, Outside, b) == FindClose(t, i + |Grammar.Quoted(cs)|, kind, Outside, b)
  {
    hide CharsOk, PrintChars;
    var x := PrintChars(cs);
    OccursConcat(t, i, [QUOTE], x + [QUOTE]);
    OccursConcat(t, i + 1, x, [QUOTE]);
    OccursByte(t, i, QUOTE);
    OccursByte(t, i + 1 + |x|, QUOTE);
    CharsStop(t, i + 1, cs);
    StringScans(t, i + 1, kind, InString, b);
  }

  /** The counters one level further in. */
  function Deeper(b: Brackets, kind: Kind): Brackets {
    if kind.Object? then b.(objects := b.objects + 1) else b.(arrays := b.arrays + 1)
  }

  lemma OpenScans(t: Text, i: nat, kind: Kind, b: Brackets, inner: Kind)
    requires Within(kind, b) && At(t, i) == OpenOf(inner)
    ensures Within(kind, Deeper(b, inner)) && !AtLevelOne(Deeper(b, inner))
    ensures FindClose(t, i, kind, Outside, b) == FindClose(t, i + 1, kind, Outside, Deeper(b, inner))
  {
  }

  lemma CloseScans(t: Text, i: nat, kind: Kind, b: Brackets, inner: Kind)
    requires Within(kind, b) && At(t, i) == CloseOf(inner)
    ensures FindClose(t, i, kind, Outside, Deeper(b, inner)) == FindClose(t, i + 1, kind, Outside, b)
  {
  }

  predicate AtLevelOne(b: Brackets) {
    b.arrays == 1 && b.objects == 0
  }

  lemma {:induction false} ValueScans(t: Text, i: nat, kind: Kind, b: Brackets, v: Value)
    requires ValueOk(v) && Within(kind, b) && Occurs(t, i, PrintValue(v))
    ensures FindClose(t, i, kind, Outside, b) == FindClose(t, i + |PrintValue(v)|, kind, Outside, b)
    decreases v, 1
  {
    hide FindClose, Within, AtLevelOne, Deeper, Occurs, PrintMembers, MembersOk, Grammar.Quoted, AllWhitespace, PrintNumber, NumberOk;
    match v
    case Str(cs) => QuotedScans(t, i, kind, b, cs);
    case Empty(inner, ws) =>
      OccursConcat(t, i, [OpenOf(inner)], ws + [CloseOf(inner)]);
      OccursConcat(t, i + 1, ws, [CloseOf(inner)]);
      OccursByte(t, i, OpenOf(inner));
      OccursByte(t, i + 1 + |ws|, CloseOf(inner));
      OpenScans(t, i, kind, b, inner);
      SpaceScans(t, i + 1, kind, Deeper(b, inner), ws);
      CloseScans(t, i + 1 + |ws|, kind, b, inner);
    case Filled(inner, ws, ms) => FilledScans(t, i, kind, b, v);
    case _ => BareScans(t, i, kind, b, v);
  }

  lemma BareScans(t: Text, i: nat, kind: Kind, b: Brackets, v: Value)
    requires ValueOk(v) && IsBare(v) && Within(kind, b) && Occurs(t, i, PrintValue(v))
    ensures FindClose(t, i, kind, Outside, b) == FindClose(t, i + |PrintValue(v)|, kind, Outside, b)
  {
    hide FindClose, Within, Occurs, PrintValue, ValueOk;
    BareBytes(v);
    NeutralScans(t, i, kind, b, PrintValue(v));
  }

  lemma {:induction false} FilledScans(t: Text, i: nat, kind: Kind, b: Brackets, v: Value)
    requires ValueOk(v) && v.Filled? && Within(kind, b) && Occurs(t, i, PrintValue(v))
    ensures FindClose(t, i, kind, Outside, b) == FindClose(t, i + |PrintValue(v)|, kind, Outside, b)
    decreases v, 0
  {
    hide FindClose, Within, AtLevelOne, Deeper, Occurs, PrintMembers, MembersOk, AllWhitespace;
    var inner, ws, x := v.kind, v.ws, PrintMembers(v.members, v.kind);
    OccursConcat(t, i, [OpenOf(inner)], ws + (x + [CloseOf(inner)]));
    OccursConcat(t, i + 1, ws, x + [CloseOf(inner)]);
    OccursConcat(t, i + 1 + |ws|, x, [CloseOf(inner)]);
    OccursByte(t, i, OpenOf(inner));
    OccursByte(t, i + 1 + |ws| + |x|, CloseOf(inner));
    OpenScans(t, i, kind, b, inner);
    SpaceScans(t, i + 1, kind, Deeper(b, inner), ws);
    MembersScan(t, i + 1 + |ws|, kind, Deeper(b, inner), v.members, inner);
    CloseScans(t, i + 1 + |ws| + |x|, kind, b, inner);
  }

  lemma KeyScans(t: Text, i: nat, kind: Kind, b: Brackets, key: Key, inner: Kind)
    requires KeyOk(key, inner) && Within(kind, b) && Occurs(t, i, PrintKey(key, inner))
    ensures FindClose(t, i, kind, Outside, b) == FindClose(t, i + |PrintKey(key, inner)|, kind, Outside, b)
  {
    hide FindClose, Within, Occurs, Grammar.Quoted, AllWhitespace, CharsOk;
    if key.Key? {
      var x := Grammar.Quoted(key.chars);
      var c := i + |x|;
      OccursConcat(t, i, x, key.before + ([COLON] + key.after));
      OccursConcat(t, c, key.before, [COLON] + key.after);
      OccursConcat(t, c + |key.before|, [COLON], key.after);
      QuotedScans(t, i, kind, b, key.chars);
      SpaceScans(t, c, kind, b, key.before);
      NeutralScans(t, c + |key.before|, kind, b, [COLON]);
      SpaceScans(t, c + |key.before| + 1, kind, b, key.after);
    }
  }

  lemma {:induction false} MemberScans(t: Text, i: nat, kind: Kind, b: Brackets, m: Member, inner: Kind)
    requires MemberOk(m, inner) && Within(kind, b) && Occurs(t, i, PrintMember(m, inner))
    ensures FindClose(t, i, kind, Outside, b) == FindClose(t, i + |PrintMember(m, inner)|, kind, Outside, b)
    decreases m, 2
  {
    hide FindClose, Within, Occurs, PrintKey, PrintValue, KeyOk, ValueOk, AllWhitespace;
    var k, x := PrintKey(m.key, inner), PrintValue(m.value);
    OccursConcat(t, i, k, x + m.ws);
    OccursConcat(t, i + |k|, x, m.ws);
    KeyScans(t, i, kind, b, m.key, inner);
    ValueScans(t, i + |k|, kind, b, m.value);
    SpaceScans(t, i + |k| + |x|, kind, b, m.ws);
  }

  /** The commas between members are counted at level one of an array. */
  function Separated(b: Brackets, n: nat): Brackets {
    if AtLevelOne(b) then b.(commas := b.commas + n) else b
  }

  lemma CommaScans(t: Text, i: nat, kind: Kind, b: Brackets)
    requires Within(kind, b) && At(t, i) == COMMA
    ensures Within(kind, Separated(b, 1))
    ensures FindClose(t, i, kind, Outside, b) == FindClose(t, i + 1, kind, Outside, Separated(b, 1))
  {
  }

  lemma SeparatedTwice(b: Brackets, n: nat)
    ensures Separated(Separated(b, 1), n) == Separated(b, n + 1)
    ensures Separated(b, 0) == b
  {
  }

  lemma {:induction false} MembersScan(t: Text, i: nat, kind: Kind, b: Brackets, ms: Members, inner: Kind)
    requires MembersOk(ms, inner) && Within(kind, b) && Occurs(t, i, PrintMembers(ms, inner))
    ensures FindClose(t, i, kind, Outside, b) ==
      FindClose(t, i + |PrintMembers(ms, inner)|, kind, Outside, Separated(b, Count(ms) - 1))
    decreases ms, 3
  {
    hide FindClose, Within, Separated, Occurs, PrintMember, MemberOk, AllWhitespace;
    SeparatedTwice(b, 0);
    if ms.Last? {
      MemberScans(t, i, kind, b, ms.member, inner);
    } else {
      var x, rest := PrintMember(ms.member, inner), PrintMembers(ms.rest, inner);
      var n := i + |x|;
      MoreOccurs(t, i, x, ms.gap, rest);
      MemberScans(t, i, kind, b, ms.member, inner);
      CommaScans(t, n, kind, b);
      SpaceScans(t, n + 1, kind, Separated(b, 1), ms.gap);
      MembersScan(t, n + 1 + |ms.gap|, kind, Separated(b, 1), ms.rest, inner);
      SeparatedTwice(b, Count(ms.rest) - 1);
    }
  }
}
