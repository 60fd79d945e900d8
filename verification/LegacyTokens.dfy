/** How kason_parse_internal gets past the tokens of a text: white space, quoted
    texts, bare tokens and whole containers. */
module LegacyTokens {
  import opened Bytes
  import opened JsonString
  import opened Number
  import opened StringScan
  import opened Modes
  import opened LegacySpec

  /** The result once the value has been read by `p` up to `stop` and committed at the byte `at`. */
  function AtCommit(job: Job, p: Parser, stop: int, at: nat): Outcome
    requires at < |job.t| && job.depth <= MAX_NESTING
  {
    if !Checked(job, p, stop) then Rejected
    else Prepend(ChildOf(p, job.t, stop), Continue(job, Noted(Committed(job, p, job.t[at]), job.t[at], at), at + 1))
  }

  lemma GoRest(job: Job, p: Parser, i: nat, after: Parser)
    requires i < |job.t| && job.depth <= MAX_NESTING && p.phase != Complete
    requires Step(p, job.t, i, job.mode) == Go(after)
    ensures Continue(job, p, i) == Continue(job, Noted(after, job.t[i], i), i + 1)
  {
    hide Step, Noted;
  }

  lemma CommitRest(job: Job, p: Parser, i: nat, after: Parser, stop: int)
    requires i < |job.t| && job.depth <= MAX_NESTING && p.phase != Complete
    requires Step(p, job.t, i, job.mode) == Commit(after, stop)
    ensures Continue(job, p, i) == AtCommit(job, after, stop, i)
  {
    hide Step, Noted, Checked, ChildOf, Committed, Prepend;
  }

  lemma HaltRest(job: Job, p: Parser, i: nat)
    requires i <= |job.t| && job.depth <= MAX_NESTING && p.phase != Complete && (p.phase == FindParamSeparator ==> i < |job.t|)
    requires i < |job.t| ==> Step(p, job.t, i, job.mode) == Halt
    ensures Continue(job, p, i) == Rejected
  {
    hide Step;
  }

  // ---------------------------------------------------------- white space

  predicate SkipsSpace(phase: Phase) {
    phase == FindKeyBegin || phase == FindValueSeparator || phase == FindValueBegin || phase == FindParamSeparator
  }

  lemma {:induction false} SpaceRest(job: Job, p: Parser, i: nat)
    requires i <= |job.t| && job.depth <= MAX_NESTING && SkipsSpace(p.phase)
    ensures Continue(job, p, i) == Continue(job, p, SkipWs(job.t, i))
    decreases |job.t| - i
  {
    hide Checked, ChildOf, Committed, Prepend;
    if i < |job.t| && IsWhitespace(job.t[i]) {
      assert Step(p, job.t, i, job.mode) == Go(p);
      SpaceRest(job, p, i + 1);
    }
  }

  // --------------------------------------------------------- quoted texts

  /** Where the string around position `i` is closed, or -1. */
  function QuoteStop(t: Text, i: nat, q: Quoting): (stop: int)
    ensures stop == -1 || i <= stop < |t|
    decreases |t| - i
  {
    if i >= |t| then -1
    else
      match QuotedStep(q, t[i])
      case BadQuoted => -1
      case StillQuoted(q') => QuoteStop(t, i + 1, q')
      case QuoteCloses => i
  }

  /** The inline check finds the same quote as the escape-flag loop. */
  lemma {:induction false} QuoteStopIsQuote(t: Text, i: nat, q: Quoting)
    requires q != Outside && QuoteStop(t, i, q) >= 0
    ensures QuoteStop(t, i, q) == QuoteFrom(t, i, q == Escape(0))
    decreases |t| - i
  {
    match QuotedStep(q, t[i])
    case StillQuoted(q') => QuoteStopIsQuote(t, i + 1, q');
    case _ =>
  }

  lemma {:induction false} PlainStops(t: Text, i: nat, n: nat)
    requires i + n <= |t| && forall k | i <= k < i + n :: IsPlain(t[k])
    ensures QuoteStop(t, i, InString) == QuoteStop(t, i + n, InString)
    decreases n
  {
    if n > 0 {
      PlainStops(t, i + 1, n - 1);
    }
  }

  lemma PlainTextStops(t: Text, i: nat, x: Text)
    requires Occurs(t, i, x) && forall k | 0 <= k < |x| :: IsPlain(x[k])
    ensures QuoteStop(t, i, InString) == QuoteStop(t, i + |x|, InString)
  {
    forall k | i <= k < i + |x| ensures IsPlain(t[k]) {
      OccursAt(t, i, x, k - i);
    }
    PlainStops(t, i, |x|);
  }

  lemma HexStops(t: Text, i: nat, h: Text)
    requires Occurs(t, i, [BACKSLASH, LOWER_U] + h) && HexText(h) >= 0
    ensures QuoteStop(t, i, InString) == QuoteStop(t, i + 6, InString)
  {
    var x := [BACKSLASH, LOWER_U] + h;
    forall k | 0 <= k < 6 ensures t[i + k] == x[k] {
      OccursAt(t, i, x, k);
    }
    assert QuoteStop(t, i, InString) == QuoteStop(t, i + 1, Escape(0)) == QuoteStop(t, i + 2, Escape(4));
    assert QuoteStop(t, i + 2, Escape(4)) == QuoteStop(t, i + 3, Escape(3)) == QuoteStop(t, i + 4, Escape(2));
    assert QuoteStop(t, i + 4, Escape(2)) == QuoteStop(t, i + 5, Escape(1)) == QuoteStop(t, i + 6, InString);
  }

  lemma CharStops(t: Text, i: nat, c: Char)
    requires CharOk(c) && Occurs(t, i, PrintChar(c))
    ensures QuoteStop(t, i, InString) == QuoteStop(t, i + |PrintChar(c)|, InString)
  {
    hide QuoteStop, Occurs, Utf8;
    match c
    case Plain(v) =>
      Utf8IsPlain(v);
      PlainTextStops(t, i, Utf8(v));
    case Short(b) => SimpleStops(t, i, b);
    case Unicode(h) => HexStops(t, i, h);
    case Pair(h, l) =>
      var x, y := [BACKSLASH, LOWER_U] + h, [BACKSLASH, LOWER_U] + l;
      assert PrintChar(c) == x + y;
      OccursConcat(t, i, x, y);
      HexStops(t, i, h);
      HexStops(t, i + 6, l);
  }

  lemma SimpleStops(t: Text, i: nat, b: Byte)
    requires IsSimpleEscape(b) && Occurs(t, i, [BACKSLASH, b])
    ensures QuoteStop(t, i, InString) == QuoteStop(t, i + 2, InString)
  {
    OccursAt(t, i, [BACKSLASH, b], 0);
    OccursAt(t, i, [BACKSLASH, b], 1);
    assert QuoteStop(t, i, InString) == QuoteStop(t, i + 1, Escape(0));
  }

  lemma {:induction false} CharsStop(t: Text, i: nat, cs: seq<Char>)
    requires CharsOk(cs) && Occurs(t, i, PrintChars(cs))
    ensures QuoteStop(t, i, InString) == QuoteStop(t, i + |PrintChars(cs)|, InString)
    decreases |cs|
  {
    hide CharOk, PrintChar, QuoteStop, Occurs;
    if cs == [] {
    } else {
      OccursConcat(t, i, PrintChar(cs[0]), PrintChars(cs[1..]));
      CharStops(t, i, cs[0]);
      CharsStop(t, i + |PrintChar(cs[0])|, cs[1..]);
    }
  }

  /** The inline check together with the validator accepts exactly the string bodies. */
  lemma QuoteStopIsBody(t: Text, i: nat)
    requires i <= |t|
    ensures var stop := QuoteStop(t, i, InString);
      (ReadBody(t, i).Body? <==> stop >= 0 && ValidBody(t[i..stop])) &&
      (ReadBody(t, i).Body? ==> ReadBody(t, i).close == stop)
  {
    hide ReadBody, QuoteFrom, ValidBody, CharsOk, PrintChars;
    ReadBodyIffQuote(t, i);
    if QuoteStop(t, i, InString) >= 0 {
      QuoteStopIsQuote(t, i, InString);
    }
    if ReadBody(t, i).Body? {
      ReadBodySound(t, i);
      CharsStop(t, i, ReadBody(t, i).chars);
    }
  }

  /** The unclean flag says whether a byte since `begin` needs the validator. */
  predicate FlagOk(t: Text, begin: int, i: nat, q: Quoting, unclean: bool) {
    0 <= begin <= i <= |t| && q != Outside && (q != InString ==> unclean) &&
    (!unclean ==> forall k | begin <= k < i :: IsPlain(t[k]) && t[k] < 0x80)
  }

  lemma CleanIsValid(t: Text, begin: int, i: nat, q: Quoting, unclean: bool)
    requires FlagOk(t, begin, i, q, unclean) && !unclean
    ensures ValidBody(Slice(t, begin, i))
  {
    AsciiIsValid(t[begin..i], 0);
  }

  lemma FlagKept(t: Text, begin: int, i: nat, q: Quoting, unclean: bool)
    requires FlagOk(t, begin, i, q, unclean) && i < |t| && QuotedStep(q, t[i]).StillQuoted?
    ensures FlagOk(t, begin, i + 1, QuotedStep(q, t[i]).quoting, unclean || NeedsValidation(t[i]))
  {
  }

  /** What is left after the closing quote of a key at `stop`. */
  ghost predicate KeyRead(job: Job, p: Parser, i: nat, stop: int, q: Parser)
    requires i <= |job.t| && job.depth <= MAX_NESTING
  {
    if stop >= 0 && ValidBody(Slice(job.t, p.keyBegin, stop)) then
      i <= stop < |job.t| && Continue(job, p, i) == Continue(job, q, stop + 1) &&
      q == p.(phase := FindValueSeparator, quoting := Outside, keyEnd := stop, unclean := q.unclean, lastSolid := q.lastSolid)
    else Continue(job, p, i) == Rejected
  }

  lemma {:induction false} KeyFrom(job: Job, p: Parser, i: nat) returns (q: Parser)
    requires i <= |job.t| && job.depth <= MAX_NESTING && p.phase == FindKeyEnd
    requires FlagOk(job.t, p.keyBegin, i, p.quoting, p.unclean)
    ensures KeyRead(job, p, i, QuoteStop(job.t, i, p.quoting), q)
    decreases |job.t| - i
  {
    hide Checked, ChildOf, Committed, Prepend, ValidBody, QuotedStep, Slice, FlagOk;
    q := p;
    if i < |job.t| {
      match QuotedStep(p.quoting, job.t[i])
      case BadQuoted =>
      case StillQuoted(quoting) =>
        FlagKept(job.t, p.keyBegin, i, p.quoting, p.unclean);
        q := KeyFrom(job, Noted(p.(quoting := quoting, unclean := p.unclean || NeedsValidation(job.t[i])), job.t[i], i), i + 1);
      case QuoteCloses =>
        if !p.unclean {
          CleanIsValid(job.t, p.keyBegin, i, p.quoting, p.unclean);
        }
        q := Noted(p.(phase := FindValueSeparator, quoting := Outside, keyEnd := i), job.t[i], i);
    }
  }

  /** A key whose opening quote has just been read. */
  lemma KeyRest(job: Job, p: Parser, i: nat) returns (q: Parser)
    requires i <= |job.t| && job.depth <= MAX_NESTING
    requires p.phase == FindKeyEnd && p.quoting == InString && p.keyBegin == i && !p.unclean
    ensures ReadBody(job.t, i).NoBody? ==> Continue(job, p, i) == Rejected
    ensures ReadBody(job.t, i).Body? ==>
      var close := ReadBody(job.t, i).close;
      Continue(job, p, i) == Continue(job, q, close + 1) &&
      q == p.(phase := FindValueSeparator, quoting := Outside, keyEnd := close, unclean := q.unclean, lastSolid := q.lastSolid)
  {
    hide Continue, ReadBody, ValidBody, QuoteStop;
    QuoteStopIsBody(job.t, i);
    q := KeyFrom(job, p, i);
  }

  lemma {:induction false} StringFrom(job: Job, p: Parser, i: nat) returns (q: Parser)
    requires i <= |job.t| && job.depth <= MAX_NESTING && p.phase == FindStringEnd
    requires FlagOk(job.t, p.valueBegin, i, p.quoting, p.unclean)
    ensures q == p.(quoting := Outside, unclean := q.unclean, lastSolid := q.lastSolid)
    ensures var stop := QuoteStop(job.t, i, p.quoting);
      Continue(job, p, i) ==
        if stop >= 0 && ValidBody(Slice(job.t, p.valueBegin, stop)) then AtCommit(job, q, stop, stop) else Rejected
    decreases |job.t| - i
  {
    hide ValidBody, QuotedStep, Slice, FlagOk, Continue, AtCommit;
    q := p.(quoting := Outside);
    if i == |job.t| {
      HaltRest(job, p, i);
    } else {
      match QuotedStep(p.quoting, job.t[i])
      case BadQuoted => HaltRest(job, p, i);
      case StillQuoted(quoting) =>
        FlagKept(job.t, p.valueBegin, i, p.quoting, p.unclean);
        var p' := p.(quoting := quoting, unclean := p.unclean || NeedsValidation(job.t[i]));
        GoRest(job, p, i, p');
        q := StringFrom(job, Noted(p', job.t[i], i), i + 1);
      case QuoteCloses =>
        if !p.unclean {
          CleanIsValid(job.t, p.valueBegin, i, p.quoting, p.unclean);
        }
        if ValidBody(Slice(job.t, p.valueBegin, i)) {
          CommitRest(job, p, i, q, i);
        } else {
          HaltRest(job, p, i);
        }
    }
  }

  /** A string value whose opening quote has just been read. */
  lemma StringRest(job: Job, p: Parser, i: nat) returns (q: Parser)
    requires i <= |job.t| && job.depth <= MAX_NESTING
    requires p.phase == FindStringEnd && p.quoting == InString && p.valueBegin == i && !p.unclean
    ensures q == p.(quoting := Outside, unclean := q.unclean, lastSolid := q.lastSolid)
    ensures Continue(job, p, i) ==
      if ReadBody(job.t, i).NoBody? then Rejected
      else AtCommit(job, q, ReadBody(job.t, i).close, ReadBody(job.t, i).close)
  {
    hide Continue, ReadBody, ValidBody, QuoteStop, AtCommit;
    QuoteStopIsBody(job.t, i);
    q := StringFrom(job, p, i);
  }

  // ---------------------------------------------------------- bare tokens

  predicate StartsToken(c: Byte) {
    !IsWhitespace(c) && c != QUOTE && c != LBRACE && c != LBRACKET
  }

  /** The end of a bare token: its delimiter, or the end of the text, of which a
      final comma is part. */
  function TokenStop(t: Text, i: nat, mode: Mode): (n: nat)
    ensures i <= |t| ==> i <= n <= |t|
    decreases |t| - i
  {
    if i >= |t| then i
    else if i == |t| - 1 && t[i] != EndToken(mode) && !IsWhitespace(t[i]) then |t|
    else if Delimits(mode, t[i]) then i
    else TokenStop(t, i + 1, mode)
  }

  /** The state at the end of a bare token, read on from `i`. */
  function AtToken(p: Parser, t: Text, i: nat, n: nat): Parser
    requires i <= n <= |t|
  {
    if p.phase == FindNumberEnd then p.(number := RunNumber(p.number, t[..n], i)) else p
  }

  /** At the end of the text the last byte of the token is the commit byte. */
  function CommitByte(t: Text, n: nat): nat
    requires n <= |t| && t != []
  {
    if n < |t| then n else |t| - 1
  }

  lemma {:induction false} BareFrom(job: Job, p: Parser, i: nat) returns (q: Parser)
    requires i < |job.t| && job.depth <= MAX_NESTING && (p.phase == FindNumberEnd || p.phase == FindGenericEnd)
    ensures var n := TokenStop(job.t, i, job.mode);
      q == AtToken(p, job.t, i, n).(lastSolid := q.lastSolid) &&
      Continue(job, p, i) == AtCommit(job, q, n, CommitByte(job.t, n))
    decreases |job.t| - i
  {
    hide Checked, ChildOf, Committed, Prepend, NumberNext, Delimits, IsWhitespace;
    var t, c := job.t, job.t[i];
    var n := TokenStop(t, i, job.mode);
    var inside := if p.phase == FindNumberEnd then p.(number := NumberNext(p.number, c)) else p;
    if i == |t| - 1 && c != EndToken(job.mode) && !IsWhitespace(c) {
      assert t[..n] == t;
      assert RunNumber(p.number, t, i) == RunNumber(NumberNext(p.number, c), t, i + 1) == NumberNext(p.number, c);
      q := inside;
    } else if Delimits(job.mode, c) {
      assert RunNumber(p.number, t[..n], i) == p.number;
      q := p;
    } else {
      LastDelimits(c, job.mode);
      assert t[..n][i] == c;
      assert RunNumber(p.number, t[..n], i) == RunNumber(NumberNext(p.number, c), t[..n], i + 1);
      q := BareFrom(job, Noted(inside, c, i), i + 1);
    }
  }

  lemma LastDelimits(c: Byte, mode: Mode)
    ensures c == EndToken(mode) || IsWhitespace(c) ==> Delimits(mode, c)
  {
  }
}
