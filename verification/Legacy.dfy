/** kason_parse_internal: one loop over mutable state, two bracket counters and
    three skip helpers; containers are parsed again from their slices. */
module Legacy {
  import opened Bytes
  import opened JsonString
  import opened Number
  import opened Grammar
  import opened StringScan
  import opened Events
  import opened Modes
  import opened LegacySpec
  import opened LegacyTokens
  import opened Lookup

  /** A callback answers CONTINUE (false) or BREAK (true) from all it was shown. */
  type ChildPolicy = seq<Child> -> bool

  // ------------------------------------------------- what the helpers skip

  /** Inside a string it does not matter which byte was the last solid one. */
  lemma {:induction false} LastSolidFree(job: Job, p: Parser, i: nat, x: int)
    requires i <= |job.t| && job.depth <= MAX_NESTING && p.quoting != Outside
    requires p.phase == FindKeyEnd || p.phase == FindStringEnd || p.phase == FindArrayEnd || p.phase == FindObjectEnd
    ensures Continue(job, p, i) == Continue(job, p.(lastSolid := x), i)
    decreases |job.t| - i
  {
    hide Continue, ParseText, QuotedStep, ValidBody, Slice;
    var q := p.(lastSolid := x);
    if i == |job.t| {
      HaltRest(job, p, i);
      HaltRest(job, q, i);
    } else {
      var m := Step(p, job.t, i, job.mode);
      match m
      case Halt =>
        HaltRest(job, p, i);
        HaltRest(job, q, i);
      case Go(p') =>
        GoRest(job, p, i, p');
        GoRest(job, q, i, p'.(lastSolid := x));
        if IsWhitespace(job.t[i]) {
          SpaceStaysQuoted(p.quoting, job.t[i]);
          LastSolidFree(job, p', i + 1, x);
        }
      case Commit(p', stop) =>
        CommitRest(job, p, i, p', stop);
        CommitRest(job, q, i, p'.(lastSolid := x), stop);
        QuoteIsSolid(p.quoting, job.t[i]);
    }
  }

  lemma SpaceStaysQuoted(q: Quoting, c: Byte)
    requires IsWhitespace(c) && q != Outside
    ensures !QuotedStep(q, c).QuoteCloses? && (QuotedStep(q, c).StillQuoted? ==> QuotedStep(q, c).quoting != Outside)
  {
  }

  lemma QuoteIsSolid(q: Quoting, c: Byte)
    ensures QuotedStep(q, c).QuoteCloses? ==> !IsWhitespace(c)
  {
  }

  /** A run of unescaped ASCII inside a string. */
  lemma {:induction false} PlainRunRest(job: Job, p: Parser, i: nat, k: nat, x: int)
    requires i <= k <= |job.t| && job.depth <= MAX_NESTING && p.quoting == InString
    requires p.phase == FindKeyEnd || p.phase == FindStringEnd || p.phase == FindArrayEnd || p.phase == FindObjectEnd
    requires forall j | i <= j < k :: IsPlain(job.t[j]) && job.t[j] < 0x80
    ensures Continue(job, p, i) == Continue(job, p.(lastSolid := x), k)
    decreases k - i
  {
    hide Continue;
    if i == k {
      LastSolidFree(job, p, i, x);
    } else {
      GoRest(job, p, i, p);
      PlainRunRest(job, Noted(p, job.t[i], i), i + 1, k, x);
    }
  }

  /** A run inside a bare token that stops short of the last byte. */
  lemma {:induction false} TokenRunRest(job: Job, p: Parser, i: nat, k: nat)
    requires i < k < |job.t| && job.depth <= MAX_NESTING
    requires p.phase == FindGenericEnd || (p.phase == FindNumberEnd && Looping(p.number))
    requires forall j | i <= j < k :: IsBareByte(job.t[j]) && (p.phase == FindNumberEnd ==> IsDigit(job.t[j]))
    ensures Continue(job, p, i) == Continue(job, p.(lastSolid := k - 1), k)
    decreases k - i
  {
    hide Continue;
    BareDelimitsNothing(job.t[i], job.mode);
    GoRest(job, p, i, p);
    if i + 1 < k {
      TokenRunRest(job, Noted(p, job.t[i], i), i + 1, k);
    }
  }

  lemma BareDelimitsNothing(c: Byte, mode: Mode)
    requires IsBareByte(c)
    ensures !Delimits(mode, c) && c != EndToken(mode) && !IsWhitespace(c)
  {
  }

  lemma BareIsSolid(p: Parser, c: Byte, i: nat, c': Byte, i': nat)
    requires IsBareByte(c')
    ensures Noted(p, c', i') == Noted(p, c, i).(lastSolid := i')
  {
  }

  /** The states in which a digit changes nothing. */
  predicate Looping(state: NumberState) {
    state == Integer || state == Fraction || state == ExponentDigits
  }

  /** kason_skip_number_digits: the last of the digits behind `ptr`, except that the
      last byte of the text is left alone. */
  method SkipNumberDigits(t: Text, ptr: nat) returns (last: nat)
    requires ptr < |t|
    ensures ptr <= last < |t| && (last > ptr ==> last < |t| - 1)
    ensures forall k | ptr < k <= last :: IsDigit(t[k])
  {
    last := ptr;
    while last + 1 < |t| - 1 && IsDigit(t[last + 1])
      invariant ptr <= last < |t| && (last > ptr ==> last < |t| - 1)
      invariant forall k | ptr < k <= last :: IsDigit(t[k])
    {
      last := last + 1;
    }
  }

  /** kason_skip_keyword: the last byte of the keyword at `ptr`, or the one before
      when that is the last byte of the text. */
  method SkipKeyword(t: Text, ptr: nat) returns (last: nat)
    requires ptr < |t|
    ensures ptr <= last < |t| && (last > ptr ==> last < |t| - 1)
    ensures forall k | ptr < k <= last :: IsBareByte(t[k])
  {
    var keyword;
    if t[ptr] == 0x74 {
      keyword := TRUE;
    } else if t[ptr] == 0x66 {
      keyword := FALSE;
    } else if t[ptr] == 0x6E {
      keyword := NULL;
    } else {
      return ptr;
    }
    if |t| - ptr < |keyword| {
      return ptr;
    }
    var i := 1;
    while i < |keyword|
      invariant 1 <= i <= |keyword|
      invariant forall k | ptr < k < ptr + i :: t[k] == keyword[k - ptr]
    {
      if t[ptr + i] != keyword[i] {
        return ptr;
      }
      i := i + 1;
    }
    if ptr + |keyword| == |t| {
      return ptr + |keyword| - 2;
    }
    return ptr + |keyword| - 1;
  }

  /** The states of the source; the four `Format` states are behind a backslash. */
  datatype State =
    | BeginObject | BeginKey | EndKey | KeyFormat | ValueSeparator | BeginValue | EndString | StringFormat
    | EndArray | EndArrayStr | ArrayFormat | EndObject | EndObjectStr | ObjectFormat
    | EndGeneric | EndNumber | ParamSeparator | Done

  function PhaseOfState(s: State): Phase {
    match s
    case BeginObject => FindObjectBegin
    case BeginKey => FindKeyBegin
    case EndKey => FindKeyEnd
    case KeyFormat => FindKeyEnd
    case ValueSeparator => FindValueSeparator
    case BeginValue => FindValueBegin
    case EndString => FindStringEnd
    case StringFormat => FindStringEnd
    case EndArray => FindArrayEnd
    case EndArrayStr => FindArrayEnd
    case ArrayFormat => FindArrayEnd
    case EndObject => FindObjectEnd
    case EndObjectStr => FindObjectEnd
    case ObjectFormat => FindObjectEnd
    case EndGeneric => FindGenericEnd
    case EndNumber => FindNumberEnd
    case ParamSeparator => FindParamSeparator
    case Done => Complete
  }

  function QuotingOfState(s: State, omit: nat): Quoting {
    match s
    case EndKey => InString
    case EndString => InString
    case EndArrayStr => InString
    case EndObjectStr => InString
    case KeyFormat => Escape(omit)
    case StringFormat => Escape(omit)
    case ArrayFormat => Escape(omit)
    case ObjectFormat => Escape(omit)
    case _ => Outside
  }

  /** What begins a value that is no string. */
  lemma ValueStep(p: Parser, t: Text, i: nat, mode: Mode)
    requires i < |t| && p.phase == FindValueBegin
    ensures t[i] == LBRACE ==>
      Step(p, t, i, mode) == Go(p.(phase := FindObjectEnd, valueBegin := i, brackets := Brackets(0, 1, 0)))
    ensures t[i] == LBRACKET ==>
      Step(p, t, i, mode) == Go(p.(phase := FindArrayEnd, valueBegin := i + 1, brackets := Brackets(1, 0, 0)))
    ensures StartsToken(t[i]) ==>
      var begun :=
        if NumberBegin(t[i]) != Invalid then p.(phase := FindNumberEnd, valueBegin := i, number := NumberBegin(t[i]))
        else p.(phase := FindGenericEnd, valueBegin := i);
      Step(p, t, i, mode) == if i == |t| - 1 then LegacySpec.Commit(begun, i + 1) else Go(begun)
  {
    hide NumberBegin;
  }

  /** A byte where a hexadecimal digit of an escape is due. */
  lemma HexStep(p: Parser, t: Text, i: nat, mode: Mode)
    requires i < |t| && p.quoting.Escape? && p.quoting.omit > 0
    requires p.phase == FindArrayEnd || p.phase == FindObjectEnd || ((p.phase == FindKeyEnd || p.phase == FindStringEnd) && p.unclean)
    ensures Step(p, t, i, mode) ==
      if !IsHexDigit(t[i]) then Halt
      else Go(p.(quoting := if p.quoting.omit == 1 then InString else Escape(p.quoting.omit - 1)))
  {
    hide IsHexDigit, ValidBody;
  }

  /** States in which a value is committed. */
  predicate Commits(s: State) {
    s == EndString || s == EndArray || s == EndObject || s == EndGeneric || s == EndNumber
  }

  /** The state behind a value that is committed at the byte `c`. */
  function StateBehind(mode: Mode, rootArray: bool, s: State, c: Byte): State {
    match mode
    case ObjectMode =>
      if s != EndObject && c == RBRACE then Done else if c == COMMA then BeginKey else ParamSeparator
    case ArrayMode => if rootArray then Done else if c == COMMA then BeginValue else ParamSeparator
    case _ => Done
  }

  lemma StateBehindCommit(job: Job, p: Parser, s: State, c: Byte)
    requires Commits(s) && p.phase == PhaseOfState(s)
    ensures var s' := StateBehind(job.mode, job.rootArray, s, c);
      PhaseOfState(s') == Committed(job, p, c).phase && QuotingOfState(s', 0) == Outside && !IsFormat(s') &&
      PhaseOfState(s') != FindArrayEnd && PhaseOfState(s') != FindObjectEnd && s' != EndKey
  {
  }

  /** States in which no key has been read for the next value. */
  predicate BeforeKey(s: State) {
    s == BeginObject || s == BeginKey || s == EndKey || s == KeyFormat || s == ParamSeparator
  }

  ghost function ChoiceOf(lookup: Table?): Choice
    reads if lookup == null then {} else {lookup, lookup.slots}
  {
    if lookup == null then Everything else Only(lookup.Keys())
  }

  lemma NothingMatched(t: Text, choice: Choice)
    ensures KeyMatched(t, choice, false, -1, -1)
  {
  }

  lemma CommittedIs(job: Job, p: Parser, c: Byte)
    ensures var q := Committed(job, p, c);
      q == p.(keyBegin := -1, keyEnd := -1, valueBegin := -1, phase := q.phase, hasEntries := p.hasEntries || job.mode == ObjectMode)
  {
  }

  predicate IsFormat(s: State) {
    s == KeyFormat || s == StringFormat || s == ArrayFormat || s == ObjectFormat
  }

  /** restore_escaped_state. */
  function Restored(s: State): State {
    match s
    case KeyFormat => EndKey
    case StringFormat => EndString
    case ArrayFormat => EndArrayStr
    case ObjectFormat => EndObjectStr
    case _ => s
  }

  lemma AtCommitCases(job: Job, p: Parser, stop: int, at: nat)
    requires at < |job.t| && job.depth <= MAX_NESTING
    ensures AtCommit(job, p, stop, at) ==
      if !Checked(job, p, stop) then Rejected
      else Prepend(ChildOf(p, job.t, stop), Continue(job, Noted(Committed(job, p, job.t[at]), job.t[at], at), at + 1))
  {
    hide Checked, Prepend, ChildOf, Continue, Committed;
  }

  /** What one round of the switch asks for. */
  datatype Signal = Stay | Commit | Error

  datatype Progress = Onward | Broke | Failed

  /** How the loop comes to rest. */
  datatype Pause = Shown | Ended | Malformed

  /** The outcome when `log` has been reported before `o`. */
  function Total(log: seq<Child>, o: Outcome): Outcome {
    if o.Rejected? then Rejected else Accepted(log + o.children)
  }

  /** Which children the callback is shown: all of them, or those whose decoded key is in a table. */
  datatype Choice = Everything | Only(keys: set<Text>)

  predicate Wanted(t: Text, choice: Choice, child: Child) {
    choice.Everything? ||
    (child.key.KeyOwner? && Decoded(Slice(t, child.key.span.lo, child.key.span.hi)) in choice.keys)
  }

  ghost predicate KeyMatched(t: Text, choice: Choice, matched: bool, keyBegin: int, keyEnd: int) {
    (choice.Only? ==> (matched <==> keyBegin >= 0 && keyEnd >= 0 && Decoded(Slice(t, keyBegin, keyEnd)) in choice.keys)) &&
    (keyEnd >= 0 ==> ValidBody(Slice(t, keyBegin, keyEnd)))
  }

  lemma NoKeyMatched(t: Text, choice: Choice, matched: bool, keyBegin: int, keyBegin': int)
    requires KeyMatched(t, choice, matched, keyBegin, -1)
    ensures KeyMatched(t, choice, matched, keyBegin', -1)
  {
  }

  function IfWanted(t: Text, choice: Choice, child: Child): seq<Child> {
    if Wanted(t, choice, child) then [child] else []
  }

  function Selection(t: Text, choice: Choice, children: seq<Child>): seq<Child> {
    if children == [] then [] else IfWanted(t, choice, children[0]) + Selection(t, choice, children[1..])
  }

  function Picked(t: Text, choice: Choice, o: Outcome): Outcome {
    if o.Rejected? then Rejected else Accepted(Selection(t, choice, o.children))
  }

  /** None of the calls so far was answered with a break. */
  ghost predicate Patient(policy: ChildPolicy, log: seq<Child>) {
    forall k | 0 < k <= |log| :: !policy(log[..k])
  }

  /** Only the last call was answered with a break. */
  ghost predicate BrokeLast(policy: ChildPolicy, log: seq<Child>) {
    log != [] && policy(log) && Patient(policy, log[..|log| - 1])
  }

  lemma PatientMore(policy: ChildPolicy, log: seq<Child>, more: seq<Child>)
    requires Patient(policy, log) && |more| <= 1
    ensures more != [] && policy(log + more) ==> BrokeLast(policy, log + more)
    ensures more == [] || !policy(log + more) ==> Patient(policy, log + more)
  {
    assert more == [] ==> log + more == log;
    if more != [] {
      assert (log + more)[..|log|] == log;
      forall k | 0 < k <= |log| ensures (log + more)[..k] == log[..k] {
      }
      assert (log + more)[..|log| + 1] == log + more;
    }
  }

  /** A child is only shown once its name, and the text of an object, have been validated. */
  ghost predicate Solid(t: Text, child: Child) {
    (child.key.KeyOwner? ==> ValidBody(Slice(t, child.key.span.lo, child.key.span.hi))) &&
    (child.valueType == ObjectType ==> exists depth: nat :: ParseText(Slice(t, child.lo, child.hi), AutoMode, depth).Accepted?)
  }

  /** At most one more child has been shown. */
  ghost predicate Grows(t: Text, before: seq<Child>, log: seq<Child>) {
    log == before || (|log| == |before| + 1 && before <= log && Solid(t, log[|before|]))
  }

  lemma CheckedIsSolid(job: Job, p: Parser, stop: int)
    requires job.depth <= MAX_NESTING && Checked(job, p, stop) && (p.keyEnd >= 0 ==> ValidBody(Slice(job.t, p.keyBegin, p.keyEnd)))
    ensures Solid(job.t, ChildOf(p, job.t, stop))
  {
    hide ParseText, ValidBody;
  }

  lemma GrowsByOne(t: Text, choice: Choice, before: seq<Child>, child: Child)
    requires Solid(t, child)
    ensures Grows(t, before, before + IfWanted(t, choice, child))
  {
    hide Solid, Wanted;
    assert before + [] == before;
  }

  /** The children of an accepted text begin with the log. */
  predicate Leads(log: seq<Child>, o: Outcome) {
    o.Accepted? ==> log <= o.children
  }

  predicate BeginsWith(child: Child, o: Outcome) {
    o.Accepted? ==> o.children != [] && o.children[0] == child
  }

  lemma LeadingPart(t: Text, choice: Choice, log: seq<Child>, child: Child, o: Outcome)
    requires BeginsWith(child, o)
    ensures Leads(log + IfWanted(t, choice, child), Total(log, Picked(t, choice, o)))
  {
    hide Wanted;
    if o.Accepted? {
      var rest := Selection(t, choice, o.children[1..]);
      assert log + (IfWanted(t, choice, child) + rest) == log + IfWanted(t, choice, child) + rest;
    }
  }

  lemma TotalPrepend(t: Text, choice: Choice, log: seq<Child>, child: Child, o: Outcome)
    ensures Total(log, Picked(t, choice, Prepend(child, o))) == Total(log + IfWanted(t, choice, child), Picked(t, choice, o))
  {
    hide IfWanted;
    if o.Accepted? {
      assert ([child] + o.children)[1..] == o.children;
      var x, rest := IfWanted(t, choice, child), Selection(t, choice, o.children);
      assert log + (x + rest) == log + x + rest;
    }
  }

  lemma {:induction false} SelectEverything(t: Text, children: seq<Child>)
    ensures Selection(t, Everything, children) == children
  {
    if children != [] {
      SelectEverything(t, children[1..]);
    }
  }

  class Internal {
    const t: Text
    const mode: Mode
    const rootArray: bool
    const depth: nat
    const policy: ChildPolicy
    const lookup: Table?
    ghost const choice: Choice
    var log: seq<Child>
    var ptr: nat
    var state: State
    var keyBegin: int            // -1 is the null pointer; ends are exclusive
    var keyEnd: int
    var matched: bool            // the table has the key
    var valueBegin: int
    var valueEnd: int
    var needsValidation: bool    // of the key or string being read
    var numberState: NumberState
    var charsToOmit: nat
    var arrayBrackets: int
    var objectBrackets: int
    var arrayElements: nat
    var hasEntries: bool
    var lastNonWhitespace: int

    constructor (t: Text, mode: Mode, rootArray: bool, depth: nat, begin: nat, lookup: Table?, policy: ChildPolicy)
      requires lookup != null ==> lookup.Valid()
      ensures this.t == t && this.mode == mode && this.rootArray == rootArray && this.depth == depth && this.policy == policy
      ensures this.lookup == lookup && choice == ChoiceOf(lookup) && LookupOk() && KeyClean(begin)
      ensures log == [] && ptr == begin && Tidy() && state != Done && Abs() == Begin(mode, begin)
    {
      this.t, this.mode, this.rootArray, this.depth, this.policy := t, mode, rootArray, depth, policy;
      this.lookup, choice, matched := lookup, ChoiceOf(lookup), false;
      log, ptr, state := [], begin, if mode == ObjectMode then BeginObject else BeginValue;
      keyBegin, keyEnd, valueBegin, valueEnd := -1, -1, -1, -1;
      needsValidation, numberState, charsToOmit := false, Invalid, 0;
      arrayBrackets, objectBrackets, arrayElements := 0, 0, 0;
      hasEntries, lastNonWhitespace := false, begin;
    }

    /** The table stays as it was. */
    ghost predicate LookupOk()
      reads this, if lookup == null then {} else {lookup, lookup.slots}
    {
      (lookup != null ==> lookup.Valid()) && choice == ChoiceOf(lookup)
    }

    ghost function Abs(): Parser
      reads this
    {
      Parser(PhaseOfState(state), QuotingOfState(state, charsToOmit), hasEntries, keyBegin, keyEnd, valueBegin,
        needsValidation, numberState, Brackets(arrayBrackets, objectBrackets, arrayElements), lastNonWhitespace)
    }

    function TheJob(): Job {
      Job(t, mode, rootArray, depth)
    }

    /** Once a key has been read, `matched` says whether the table has it. */
    ghost predicate MatchOk()
      reads this
    {
      KeyMatched(t, choice, matched, keyBegin, keyEnd) &&
      (BeforeKey(state) ==> keyEnd == -1) && (state == EndKey || state == KeyFormat ==> keyBegin >= 0)
    }

    /** A key that needs no validation is unescaped ASCII so far. */
    ghost predicate KeyClean(limit: nat)
      reads this
    {
      state == EndKey && !needsValidation ==>
        0 <= keyBegin <= limit <= |t| && forall k | keyBegin <= k < limit :: IsPlain(t[k]) && t[k] < 0x80
    }

    ghost predicate Tidy()
      reads this
    {
      MatchOk() && (!IsFormat(state) ==> charsToOmit == 0) && (state == KeyFormat || state == StringFormat ==> needsValidation) &&
      arrayBrackets >= 0 && objectBrackets >= 0 &&
      (PhaseOfState(state) == FindArrayEnd ==> arrayBrackets >= 1) &&
      (PhaseOfState(state) == FindObjectEnd ==> objectBrackets >= 1)
    }

    ghost predicate Live()
      reads this
    {
      depth <= MAX_NESTING && ptr < |t| && state != Done && Tidy() && KeyClean(ptr)
    }

    /** One round of the switch from the state `p` at `i`. */
    ghost predicate Switched(p: Parser, i: nat, r: Signal)
      reads this
      requires i < |t| && depth <= MAX_NESTING
    {
      match r
      case Error => Continue(TheJob(), p, i) == Rejected
      case Stay =>
        i <= ptr < |t| && Tidy() && KeyClean(ptr + 1) &&
        Continue(TheJob(), p, i) == Continue(TheJob(), Noted(Abs(), t[ptr], ptr), ptr + 1)
      case Commit =>
        ptr == i && Commits(state) && MatchOk() && charsToOmit == 0 && arrayBrackets >= 0 && objectBrackets >= 0 && Continue(TheJob(), p, i) == AtCommit(TheJob(), Abs().(quoting := Outside), valueEnd, ptr)
    }

    lemma SwitchedGo(p: Parser, i: nat)
      requires depth <= MAX_NESTING && i == ptr < |t| && Tidy() && KeyClean(ptr + 1)
      requires p.phase != Complete && Step(p, t, i, mode) == Go(Abs())
      ensures Switched(p, i, Stay)
    {
      hide KeyMatched, Continue, Step;
      GoRest(TheJob(), p, i, Abs());
    }

    lemma SwitchedError(p: Parser, i: nat)
      requires depth <= MAX_NESTING && i < |t| && p.phase != Complete && Step(p, t, i, mode) == Halt
      ensures Switched(p, i, Error)
    {
      hide KeyMatched, Continue, Step;
      HaltRest(TheJob(), p, i);
    }

    lemma SwitchedCommit(p: Parser, i: nat)
      requires depth <= MAX_NESTING && i == ptr < |t| && Commits(state) && MatchOk() && charsToOmit == 0 && arrayBrackets >= 0 && objectBrackets >= 0
      requires p.phase != Complete && Step(p, t, i, mode) == LegacySpec.Commit(Abs().(quoting := Outside), valueEnd)
      ensures Switched(p, i, Signal.Commit)
    {
      hide KeyMatched, Continue, Step;
      CommitRest(TheJob(), p, i, Abs().(quoting := Outside), valueEnd);
    }

    // ------------------------------------------------ the cases of the switch

    /** States that look for a single byte. */
    method OnSeparators() returns (r: Signal)
      requires Live()
      requires state == BeginObject || state == BeginKey || state == ValueSeparator || state == ParamSeparator
      modifies this
      ensures log == old(log) && r != Signal.Commit && Switched(old(Abs()), old(ptr), r)
    {
      hide KeyMatched, Continue, Switched;
      ghost var p := Abs();
      var c := t[ptr];
      if state == BeginObject {
        if c == LBRACE {
          state := BeginKey;
        }
      } else if state == BeginKey {
        r := OnBeginKey(p);
        return;
      } else if state == ValueSeparator {
        if c == COLON {
          state := BeginValue;
        } else if !IsWhitespace(c) {
          SwitchedError(p, ptr);
          return Error;
        }
      } else {
        r := OnParamSeparator(p);
        return;
      }
      SwitchedGo(p, ptr);
      r := Stay;
    }

    method OnBeginKey(ghost p: Parser) returns (r: Signal)
      requires Live() && p == Abs() && state == BeginKey
      modifies this
      ensures log == old(log) && r != Signal.Commit && Switched(p, old(ptr), r)
    {
      hide KeyMatched, Continue, Switched;
      var c := t[ptr];
      if c == RBRACE && !hasEntries {
        state := Done;
      } else if c == QUOTE {
        NoKeyMatched(t, choice, matched, keyBegin, ptr + 1);
        state := EndKey;
        keyBegin := ptr + 1;
        needsValidation := false;
      } else if !IsWhitespace(c) {
        SwitchedError(p, ptr);
        return Error;
      }
      SwitchedGo(p, ptr);
      r := Stay;
    }

    method OnParamSeparator(ghost p: Parser) returns (r: Signal)
      requires Live() && p == Abs() && state == ParamSeparator
      modifies this
      ensures log == old(log) && r != Signal.Commit && Switched(p, old(ptr), r)
    {
      hide KeyMatched, Continue, Switched;
      var c := t[ptr];
      if c == COMMA {
        state := if mode == ObjectMode then BeginKey else BeginValue;
      } else if mode == ObjectMode && c == RBRACE {
        state := Done;
      } else if !IsWhitespace(c) {
        SwitchedError(p, ptr);
        return Error;
      }
      SwitchedGo(p, ptr);
      r := Stay;
    }

    /** The four states behind a backslash. */
    method OnFormat() returns (r: Signal)
      requires Live() && IsFormat(state)
      modifies this
      ensures log == old(log) && r != Signal.Commit && Switched(old(Abs()), old(ptr), r)
    {
      hide KeyMatched, Continue, Switched;
      ghost var p := Abs();
      var c := t[ptr];
      r := Stay;
      if charsToOmit > 0 {
        r := OnHexDigit(p);
      } else if c == LOWER_U {
        charsToOmit := 4;
        SwitchedGo(p, ptr);
      } else if IsSimpleEscape(c) {
        Restore(p);
      } else {
        SwitchedError(p, ptr);
        r := Error;
      }
    }

    method OnHexDigit(ghost p: Parser) returns (r: Signal)
      requires Live() && p == Abs() && IsFormat(state) && charsToOmit > 0
      modifies this
      ensures log == old(log) && r != Signal.Commit && Switched(p, old(ptr), r)
    {
      hide KeyMatched, Continue, Switched, Step, IsPlain, IsHexDigit;
      HexStep(p, t, ptr, mode);
      if !IsHexDigit(t[ptr]) {
        SwitchedError(p, ptr);
        return Error;
      }
      charsToOmit := charsToOmit - 1;
      if charsToOmit == 0 {
        Restore(p);
      } else {
        SwitchedGo(p, ptr);
      }
      r := Stay;
    }

    /** restore_escaped_state. */
    method Restore(ghost p: Parser)
      requires Live() && IsFormat(state) && charsToOmit == 0 && p.quoting.Escape?
      requires p == Abs().(quoting := p.quoting) && QuotedStep(p.quoting, t[ptr]) == StillQuoted(InString)
      modifies this`state
      ensures Switched(p, ptr, Stay)
    {
      hide KeyMatched, Continue, Switched, Decoded, QuotedStep;
      state := Restored(state);
      SwitchedGo(p, ptr);
    }

    /** Past a run of plain bytes inside a string. */
    method SkipPlain(ghost p: Parser)
      requires Live() && p == Abs() && p.quoting == InString && IsPlain(t[ptr]) && t[ptr] < 0x80
      modifies this`ptr
      ensures Switched(p, old(ptr), Stay)
    {
      hide KeyMatched, Continue, Switched;
      ghost var i := ptr;
      ptr := SkipPlainString(t, ptr);
      SwitchedPlain(p, i);
    }

    lemma SwitchedPlain(p: Parser, i: nat)
      requires depth <= MAX_NESTING && i <= ptr < |t| && Tidy() && KeyClean(i) && p == Abs() && p.quoting == InString
      requires forall k | i <= k <= ptr :: IsPlain(t[k]) && t[k] < 0x80
      ensures Switched(p, i, Stay)
    {
      hide KeyMatched, Continue, Tidy;
      PlainRunRest(TheJob(), p, i, ptr + 1, Noted(p, t[ptr], ptr).lastSolid);
    }

    /** Keys and string values. */
    method OnQuoted() returns (r: Signal)
      requires Live() && LookupOk() && (state == EndKey || state == EndString)
      modifies this
      ensures log == old(log) && Switched(old(Abs()), old(ptr), r)
    {
      hide KeyMatched, Continue, Switched, ValidBody;
      ghost var p := Abs();
      var c := t[ptr];
      var isKey := state == EndKey;
      if c == BACKSLASH {
        needsValidation := true;
        state := if isKey then KeyFormat else StringFormat;
        SwitchedGo(p, ptr);
        return Stay;
      } else if c == QUOTE {
        r := OnQuote(p);
        return;
      } else if IsControl(c) {
        SwitchedError(p, ptr);
        return Error;
      } else if c >= 0x80 {
        needsValidation := true;
        SwitchedGo(p, ptr);
        return Stay;
      }
      SkipPlain(p);
      r := Stay;
    }

    /** The closing quote of a key or a string value. */
    method OnQuote(ghost p: Parser) returns (r: Signal)
      requires Live() && LookupOk() && p == Abs() && (state == EndKey || state == EndString) && t[ptr] == QUOTE
      modifies this
      ensures log == old(log) && Switched(p, old(ptr), r)
    {
      hide KeyMatched, Continue, Switched, ValidBody;
      if state == EndKey {
        r := OnKeyQuote(p);
        return;
      }
      if needsValidation {
        var valid := StringIsValid(Slice(t, valueBegin, ptr));
        if !valid {
          SwitchedError(p, ptr);
          return Error;
        }
      }
      valueEnd := ptr;
      state := EndString;
      r := Signal.Commit;
      SwitchedCommit(p, ptr);
    }

    /** The closing quote of a key: it is validated, and looked up in the table. */
    method OnKeyQuote(ghost p: Parser) returns (r: Signal)
      requires Live() && LookupOk() && p == Abs() && state == EndKey && t[ptr] == QUOTE
      modifies this
      ensures log == old(log) && Switched(p, old(ptr), r)
    {
      hide Continue, Switched, ValidBody, Decoded, HashBytes;
      var key := Slice(t, keyBegin, ptr);
      var ok, found := CheckKey(key);
      if !ok {
        SwitchedError(p, ptr);
        return Error;
      }
      matched := found;
      keyEnd := ptr;
      state := ValueSeparator;
      SwitchedGo(p, ptr);
      r := Stay;
    }

    /** Validates the key where needed and finds it in the table, if there is one. */
    method CheckKey(key: Text) returns (ok: bool, found: bool)
      requires Live() && LookupOk() && state == EndKey && keyBegin >= 0 && key == Slice(t, keyBegin, ptr)
      ensures ok <==> (needsValidation ==> ValidBody(key))
      ensures ok ==> ValidBody(key)
      ensures ok && choice.Only? ==> (found <==> keyBegin >= 0 && Decoded(key) in choice.keys)
    {
      hide ValidBody, Decoded, HashBytes, Abs, Tidy, Table.Keys, Table.Valid;
      found := false;
      var hash, length := 0, 0;
      if needsValidation {
        if lookup == null {
          ok := StringIsValid(key);
          return;
        }
        ok, hash, length := DecodedKeyInfo(key);
        if !ok {
          return;
        }
      } else {
        ok := true;
        PlainKey(key, keyBegin, ptr);
        if lookup == null {
          return;
        }
        hash, length := HashBytes(key), |key|;
      }
      var r := lookup.Find(key, hash, length);
      found := r.FoundAt?;
    }

    lemma PlainKey(key: Text, begin: int, end: nat)
      requires 0 <= begin <= end <= |t| && key == t[begin..end]
      requires forall k | begin <= k < end :: IsPlain(t[k]) && t[k] < 0x80
      ensures ValidBody(key) && Decoded(key) == key
    {
      AsciiIsValid(key, 0);
      PlainIsDecoded(key);
    }

    /** The start of a value. */
    method OnBeginValue() returns (r: Signal)
      requires Live() && state == BeginValue
      modifies this
      ensures log == old(log) && Switched(old(Abs()), old(ptr), r)
    {
      hide KeyMatched, Continue, Switched, NumberBegin;
      ghost var p := Abs();
      var c := t[ptr];
      r := Stay;
      if IsWhitespace(c) {
        SwitchedGo(p, ptr);
      } else if c == QUOTE {
        state := EndString;
        valueBegin := ptr + 1;
        needsValidation := false;
        SwitchedGo(p, ptr);
      } else if c == LBRACE || c == LBRACKET {
        OnOpenBracket(p);
      } else {
        r := OnBeginToken(p);
      }
    }

    method OnOpenBracket(ghost p: Parser)
      requires Live() && p == Abs() && state == BeginValue && (t[ptr] == LBRACE || t[ptr] == LBRACKET)
      modifies this
      ensures log == old(log) && Switched(p, old(ptr), Stay)
    {
      hide KeyMatched, Tidy, KeyClean, Switched;
      if t[ptr] == LBRACE {
        OnOpenBrace(p);
      } else {
        OnOpenSquare(p);
      }
    }

    method OnOpenBrace(ghost p: Parser)
      requires Live() && p == Abs() && state == BeginValue && t[ptr] == LBRACE
      modifies this
      ensures log == old(log) && Switched(p, old(ptr), Stay)
    {
      hide KeyMatched, Continue, Switched, Step, IsPlain;
      ValueStep(p, t, ptr, mode);
      state := EndObject;
      valueBegin := ptr;
      arrayBrackets, objectBrackets, arrayElements := 0, 1, 0;
      SwitchedGo(p, ptr);
    }

    method OnOpenSquare(ghost p: Parser)
      requires Live() && p == Abs() && state == BeginValue && t[ptr] == LBRACKET
      modifies this
      ensures log == old(log) && Switched(p, old(ptr), Stay)
    {
      hide KeyMatched, Continue, Switched, Step, IsPlain;
      ValueStep(p, t, ptr, mode);
      state := EndArray;
      valueBegin := ptr + 1;
      arrayBrackets, objectBrackets, arrayElements := 1, 0, 0;
      SwitchedGo(p, ptr);
    }

    method OnBeginToken(ghost p: Parser) returns (r: Signal)
      requires Live() && p == Abs() && state == BeginValue && StartsToken(t[ptr])
      modifies this
      ensures log == old(log) && Switched(p, old(ptr), r)
    {
      hide KeyMatched, Continue, Switched, Step, IsPlain, NumberBegin, Tidy, KeyClean;
      ValueStep(p, t, ptr, mode);
      BeginToken();
      if ptr == |t| - 1 {
        TidyParts();
        valueEnd := ptr + 1;
        SwitchedCommit(p, ptr);
        return Signal.Commit;
      }
      SwitchedGo(p, ptr);
      if state == EndGeneric {
        SkipToken(p, ptr);
      }
      r := Stay;
    }

    /** A number, or what may be a keyword. */
    method BeginToken()
      requires Live() && state == BeginValue && StartsToken(t[ptr])
      modifies this`valueBegin, this`numberState, this`state
      ensures Tidy() && KeyClean(ptr) && KeyClean(ptr + 1) && (state == EndNumber || state == EndGeneric)
      ensures valueBegin == ptr && (state == EndNumber <==> NumberBegin(t[ptr]) != Invalid)
      ensures numberState == if state == EndNumber then NumberBegin(t[ptr]) else old(numberState)
    {
      hide KeyMatched, NumberBegin, IsPlain;
      var c := t[ptr];
      valueBegin := ptr;
      if NumberBegin(c) != Invalid {
        numberState := NumberBegin(c);
        state := EndNumber;
      } else {
        state := EndGeneric;
      }
    }

    lemma TidyParts()
      requires Tidy() && !IsFormat(state)
      ensures MatchOk() && charsToOmit == 0 && arrayBrackets >= 0 && objectBrackets >= 0
    {
      hide KeyMatched;
    }

    /** The rest of a run inside a bare token. */
    lemma SwitchedRun(p: Parser, i: nat, q: Parser)
      requires Live() && state != EndKey && i <= ptr && Abs() == q && (i < ptr ==> ptr < |t| - 1)
      requires q.phase == FindGenericEnd || (q.phase == FindNumberEnd && Looping(q.number))
      requires forall k | i < k <= ptr :: IsBareByte(t[k]) && (q.phase == FindNumberEnd ==> IsDigit(t[k]))
      requires Continue(TheJob(), p, i) == Continue(TheJob(), Noted(q, t[i], i), i + 1)
      ensures Switched(p, i, Stay)
    {
      hide KeyMatched, Continue, Abs;
      if ptr > i {
        TokenRunRest(TheJob(), Noted(q, t[i], i), i + 1, ptr + 1);
        BareIsSolid(q, t[i], i, t[ptr], ptr);
      }
    }

    /** kason_skip_keyword behind the first byte of a bare token. */
    method SkipToken(ghost p: Parser, ghost i: nat)
      requires Live() && state == EndGeneric && i == ptr && Switched(p, i, Stay)
      modifies this`ptr
      ensures Switched(p, i, Stay)
    {
      ghost var q := Abs();
      SwitchedCases(p, i, Stay);
      hide KeyMatched, Continue, Switched;
      ptr := SkipKeyword(t, ptr);
      SwitchedRun(p, i, q);
    }

    /** A bare token: a number runs its automaton, digits in a row are skipped. */
    method OnToken() returns (r: Signal)
      requires Live() && (state == EndGeneric || state == EndNumber)
      modifies this
      ensures log == old(log) && Switched(old(Abs()), old(ptr), r)
    {
      hide KeyMatched, Continue, Switched, NumberNext;
      ghost var p := Abs();
      var c := t[ptr];
      var lastToken := ptr == |t| - 1;
      var end := EndToken(mode);
      if c == COMMA || c == end || IsWhitespace(c) || lastToken {
        var whole := lastToken && c != end && !IsWhitespace(c);
        valueEnd := if whole then ptr + 1 else ptr;
        if whole && state == EndNumber {
          numberState := NumberNext(numberState, c);
        }
        SwitchedCommit(p, ptr);
        return Signal.Commit;
      }
      if state == EndNumber {
        numberState := NumberNext(numberState, c);
        SwitchedGo(p, ptr);
        if IsDigit(c) && Looping(numberState) {
          SkipDigitRun(p, ptr);
        }
      } else {
        SwitchedGo(p, ptr);
      }
      r := Stay;
    }

    method SkipDigitRun(ghost p: Parser, ghost i: nat)
      requires Live() && state == EndNumber && Looping(numberState) && i == ptr && Switched(p, i, Stay)
      modifies this`ptr
      ensures Switched(p, i, Stay)
    {
      ghost var q := Abs();
      SwitchedCases(p, i, Stay);
      hide KeyMatched, Continue, Switched;
      ptr := SkipNumberDigits(t, ptr);
      SwitchedRun(p, i, q);
    }

    /** Strings inside the container whose end is looked for. */
    method OnContainerString() returns (r: Signal)
      requires Live() && (state == EndArrayStr || state == EndObjectStr)
      modifies this
      ensures log == old(log) && Switched(old(Abs()), old(ptr), r)
    {
      hide KeyMatched, Continue, Switched;
      ghost var p := Abs();
      var c := t[ptr];
      r := Stay;
      if c == BACKSLASH {
        state := if state == EndArrayStr then ArrayFormat else ObjectFormat;
      } else if c == QUOTE {
        state := if state == EndArrayStr then EndArray else EndObject;
      } else if IsControl(c) {
        SwitchedError(p, ptr);
        return Error;
      } else if c < 0x80 {
        SkipPlain(p);
        return;
      }
      SwitchedGo(p, ptr);
    }

    /** check_end: counts one byte; `closed` when the counter of the container comes back to zero. */
    method CheckEnd() returns (closed: bool, negative: bool)
      requires Live() && (state == EndArray || state == EndObject)
      modifies this`state, this`arrayBrackets, this`objectBrackets
      ensures charsToOmit == 0
      ensures var p, c, kind := old(Abs()), t[ptr], if old(state) == EndArray then Array else Object;
        var b := Counted(p.brackets, c).(commas := arrayElements);
        if c == QUOTE then !closed && !negative && Abs() == p.(quoting := InString) && Tidy() && state != Done
        else
          state == old(state) && negative == Negative(b) && Abs() == p.(brackets := b) &&
          (!negative ==> (closed <==> Closes(kind, b, c)) && (!closed ==> Tidy()))
    {
      hide KeyMatched;
      var c := t[ptr];
      closed, negative := false, false;
      if c == LBRACKET {
        arrayBrackets := arrayBrackets + 1;
      } else if c == RBRACKET {
        arrayBrackets := arrayBrackets - 1;
        if arrayBrackets < 0 {
          negative := true;
        } else {
          closed := arrayBrackets == 0 && state == EndArray;
        }
      } else if c == LBRACE {
        objectBrackets := objectBrackets + 1;
      } else if c == RBRACE {
        objectBrackets := objectBrackets - 1;
        if objectBrackets < 0 {
          negative := true;
        } else {
          closed := objectBrackets == 0 && state == EndObject;
        }
      } else if c == QUOTE {
        state := if state == EndArray then EndArrayStr else EndObjectStr;
      }
    }

    /** A byte of the container whose end is looked for. */
    method OnContainer() returns (r: Signal)
      requires Live() && (state == EndArray || state == EndObject)
      modifies this
      ensures log == old(log) && Switched(old(Abs()), old(ptr), r)
    {
      hide KeyMatched, Continue, Switched;
      ghost var p := Abs();
      var isArray := state == EndArray;
      var closed, negative := CheckEnd();
      if negative {
        SwitchedError(p, ptr);
        return Error;
      }
      if closed {
        if isArray && lastNonWhitespace >= valueBegin && ByteAt(t, lastNonWhitespace) == COMMA {
          SwitchedError(p, ptr);
          return Error;
        }
        valueEnd := if isArray then lastNonWhitespace + 1 else ptr + 1;
        SwitchedCommit(p, ptr);
        return Signal.Commit;
      }
      if isArray && t[ptr] == COMMA && objectBrackets == 0 && arrayBrackets == 1 {
        arrayElements := arrayElements + 1;
      }
      SwitchedGo(p, ptr);
      r := Stay;
    }

    /** The switch. */
    method Switch() returns (r: Signal)
      requires Live() && LookupOk()
      modifies this
      ensures log == old(log) && Switched(old(Abs()), old(ptr), r)
    {
      hide KeyMatched, Continue, Switched, Abs;
      if state == EndKey || state == EndString {
        r := OnQuoted();
      } else if state == BeginValue {
        r := OnBeginValue();
      } else if state == EndGeneric || state == EndNumber {
        r := OnToken();
      } else if state == EndArray || state == EndObject {
        r := OnContainer();
      } else if state == EndArrayStr || state == EndObjectStr {
        r := OnContainerString();
      } else if IsFormat(state) {
        r := OnFormat();
      } else {
        r := OnSeparators();
      }
    }

    // ------------------------------------------------------------ the loop

    /** What the whole call will come to, should the callback not break. */
    ghost function Whole(): Outcome
      reads this
      requires depth <= MAX_NESTING && ptr <= |t|
    {
      Total(log, Picked(t, choice, Continue(TheJob(), Abs(), ptr)))
    }

    /** The checks of a committed value; containers are parsed from their slices. */
    method CheckValue() returns (ok: bool)
      requires depth <= MAX_NESTING && Commits(state)
      ensures ok <==> Checked(TheJob(), Abs().(quoting := Outside), valueEnd)
      decreases MAX_NESTING + 1 - depth, if rootArray then 2 else 0, 0
    {
      hide ParseText;
      var value := Slice(t, valueBegin, valueEnd);
      if state == EndArray {
        if valueBegin >= valueEnd {
          return true;
        }
        ok := Validate(value, ArrayMode, if rootArray then depth else depth + 1);
      } else if state == EndObject {
        ok := Validate(value, AutoMode, depth + 1);
      } else if state == EndNumber {
        ok := valueBegin < valueEnd && NumberComplete(numberState);
      } else if state == EndGeneric {
        ok := value == NULL || value == TRUE || value == FALSE;
      } else {
        NoCheck();
        ok := true;
      }
    }

    lemma NoCheck()
      requires depth <= MAX_NESTING && state == EndString
      ensures Checked(TheJob(), Abs().(quoting := Outside), valueEnd)
    {
    }

    /** What the callback is shown. */
    method MakeChild(ghost p: Parser) returns (child: Child)
      requires p == Abs().(quoting := Outside) && Commits(state)
      ensures child == ChildOf(p, t, valueEnd)
    {
      var value := Slice(t, valueBegin, valueEnd);
      var valueType, count := UnknownType, 1;
      match state {
        case EndString => valueType := StringType;
        case EndArray =>
          valueType := ArrayType;
          count := if valueBegin < valueEnd then arrayElements + 1 else 0;
        case EndObject => valueType := ObjectType;
        case EndNumber => valueType := NumberType;
        case _ => valueType := if value == NULL then NullType else if value == TRUE then TrueType else FalseType;
      }
      var key := if keyBegin < 0 || keyEnd < 0 then NoKeyOwner else KeyOwner(Span(keyBegin, keyEnd));
      return Child(key, valueType, valueBegin, valueEnd, count);
    }

    /** The callback for the committed value; with a table, only when it has the key. */
    method ReportValue(ghost p: Parser) returns (broke: bool)
      requires p == Abs().(quoting := Outside) && Commits(state) && MatchOk() && LookupOk()
      modifies this`log
      ensures log == old(log) + IfWanted(t, choice, ChildOf(p, t, valueEnd)) && Abs() == old(Abs())
      ensures Patient(policy, old(log)) ==> if broke then BrokeLast(policy, log) else Patient(policy, log)
    {
      WantedIs(p);
      var child := MakeChild(p);
      hide ChildOf, Wanted, LookupOk, Patient, BrokeLast;
      PatientCases(log, child);
      if lookup != null && !matched {
        assert log + [] == log;
        return false;
      }
      log := log + [child];
      broke := policy(log);
    }

    lemma PatientCases(log: seq<Child>, child: Child)
      ensures Patient(policy, log) ==>
        if policy(log + [child]) then BrokeLast(policy, log + [child]) else Patient(policy, log + [child])
    {
      hide Patient, BrokeLast;
      if Patient(policy, log) {
        PatientMore(policy, log, [child]);
      }
    }

    lemma WantedIs(p: Parser)
      requires p == Abs().(quoting := Outside) && MatchOk() && LookupOk()
      ensures Wanted(t, choice, ChildOf(p, t, valueEnd)) <==> lookup == null || matched
    {
      hide Decoded;
    }

    /** Leaves the committed value behind. */
    method Advance(ghost p: Parser)
      requires ptr < |t| && p == Abs().(quoting := Outside) && charsToOmit == 0 && Commits(state)
      requires arrayBrackets >= 0 && objectBrackets >= 0
      modifies this
      ensures Tidy() && state != EndKey && log == old(log) && ptr == old(ptr) && Abs() == Committed(TheJob(), p, t[ptr])
    {
      hide PhaseOfState, QuotingOfState, StateBehind, KeyMatched, Committed, Tidy, IsFormat;
      StateBehindCommit(TheJob(), p, state, t[ptr]);
      NothingMatched(t, choice);
      keyBegin, keyEnd, valueBegin, valueEnd := -1, -1, -1, -1;
      matched := false;
      hasEntries := hasEntries || mode == ObjectMode;
      state := StateBehind(mode, rootArray, state, t[ptr]);
      FormatNeedsFlag();
      CommittedIs(TheJob(), p, t[ptr]);
      CleanIsTidy();
    }

    lemma CleanIsTidy()
      requires !IsFormat(state) && state != EndKey && state != KeyFormat && state != StringFormat && charsToOmit == 0
      requires arrayBrackets >= 0 && objectBrackets >= 0 && keyEnd == -1 && KeyMatched(t, choice, matched, keyBegin, keyEnd)
      requires PhaseOfState(state) != FindArrayEnd && PhaseOfState(state) != FindObjectEnd
      ensures Tidy()
    {
      hide KeyMatched, PhaseOfState;
    }

    lemma FormatNeedsFlag()
      requires !IsFormat(state)
      ensures state != KeyFormat && state != StringFormat
    {
    }

    /** A committed value: checked, reported, and left behind. */
    method CommitValue(ghost p: Parser) returns (r: Progress)
      requires depth <= MAX_NESTING && ptr < |t| && p == Abs().(quoting := Outside) && mode != AutoMode
      requires charsToOmit == 0 && arrayBrackets >= 0 && objectBrackets >= 0
      requires Commits(state) && MatchOk() && LookupOk() && Patient(policy, log)
      modifies this
      ensures r == Failed ==> AtCommit(TheJob(), p, old(valueEnd), old(ptr)) == Rejected && Patient(policy, log)
      ensures r == Broke ==>
        BrokeLast(policy, log) && log == old(log) + IfWanted(t, choice, ChildOf(p, t, old(valueEnd))) &&
        BeginsWith(ChildOf(p, t, old(valueEnd)), AtCommit(TheJob(), p, old(valueEnd), old(ptr)))
      ensures r == Onward ==>
        Grows(t, old(log), log) && Patient(policy, log) && Tidy() && state != EndKey && ptr == old(ptr) && log == old(log) + IfWanted(t, choice, ChildOf(p, t, old(valueEnd))) &&
        AtCommit(TheJob(), p, old(valueEnd), ptr) ==
          Prepend(ChildOf(p, t, old(valueEnd)), Continue(TheJob(), Noted(Abs(), t[ptr], ptr), ptr + 1))
      decreases MAX_NESTING + 1 - depth, if rootArray then 2 else 0, 1
    {
      hide KeyMatched, Continue, Checked, ChildOf, Committed, Prepend, Abs, Tidy, MatchOk, LookupOk, IfWanted, AtCommit, Patient,
        BrokeLast, BeginsWith, Solid, Grows;
      AtCommitCases(TheJob(), p, valueEnd, ptr);
      var ok := CheckValue();
      if !ok {
        return Failed;
      }
      CommitBegins(p, valueEnd, ptr);
      KeyIsValid(p);
      CheckedIsSolid(TheJob(), p, valueEnd);
      GrowsByOne(t, choice, log, ChildOf(p, t, valueEnd));
      var broke := ReportValue(p);
      if broke {
        return Broke;
      }
      Advance(p);
      r := Onward;
    }

    lemma KeyIsValid(p: Parser)
      requires p == Abs().(quoting := Outside) && MatchOk()
      ensures p.keyEnd >= 0 ==> ValidBody(Slice(t, p.keyBegin, p.keyEnd))
    {
      hide Decoded, ValidBody;
    }

    lemma CommitBegins(p: Parser, stop: int, at: nat)
      requires at < |t| && depth <= MAX_NESTING
      ensures BeginsWith(ChildOf(p, t, stop), AtCommit(TheJob(), p, stop, at))
    {
      hide Continue, Checked, ChildOf, Committed;
      AtCommitCases(TheJob(), p, stop, at);
    }

    /** One round of the loop. */
    method Round() returns (r: Progress)
      requires Live() && LookupOk() && mode != AutoMode && Patient(policy, log)
      modifies this
      ensures r == Failed ==> old(Whole()) == Rejected && Patient(policy, log)
      ensures r == Broke ==> BrokeLast(policy, log) && Leads(log, old(Whole()))
      ensures r == Onward ==> Grows(t, old(log), log) && Patient(policy, log) && old(ptr) < ptr <= |t| && Tidy() && KeyClean(ptr) && Whole() == old(Whole())
      decreases MAX_NESTING + 1 - depth, if rootArray then 2 else 0, 2
    {
      hide KeyMatched, Continue, AtCommit, ChildOf, Abs, Prepend, Total, Tidy, IfWanted, MatchOk, Picked, Patient, BrokeLast, BeginsWith, Leads, Solid;
      ghost var p, i, before := Abs(), ptr, log;
      var s := Switch();
      SwitchedCases(p, i, s);
      if s == Error {
        TotalRejected(before);
        return Failed;
      }
      if s == Signal.Commit {
        ghost var q, stop := Abs().(quoting := Outside), valueEnd;
        r := CommitValue(q);
        if r == Failed {
          TotalRejected(before);
        }
        if r == Broke {
          LeadingPart(t, choice, before, ChildOf(q, t, stop), AtCommit(TheJob(), q, stop, i));
        }
        if r == Onward {
          TotalPrepend(t, choice, before, ChildOf(q, t, stop), Continue(TheJob(), Noted(Abs(), t[ptr], ptr), ptr + 1));
          Note();
        }
        return;
      }
      Note();
      r := Onward;
    }

    lemma TotalRejected(log: seq<Child>)
      ensures Total(log, Picked(t, choice, Rejected)) == Rejected
    {
    }

    lemma SwitchedCases(p: Parser, i: nat, s: Signal)
      requires depth <= MAX_NESTING && i < |t| && Switched(p, i, s)
      ensures s == Error ==> Continue(TheJob(), p, i) == Rejected
      ensures s == Stay ==>
        i <= ptr < |t| && Tidy() && KeyClean(ptr + 1) && Continue(TheJob(), p, i) == Continue(TheJob(), Noted(Abs(), t[ptr], ptr), ptr + 1)
      ensures s == Signal.Commit ==>
        ptr == i && Commits(state) && MatchOk() && charsToOmit == 0 && arrayBrackets >= 0 && objectBrackets >= 0 &&
        Continue(TheJob(), p, i) == AtCommit(TheJob(), Abs().(quoting := Outside), valueEnd, ptr)
    {
      hide KeyMatched, Continue;
    }

    /** The end of a round. */
    method Note()
      requires ptr < |t| && Tidy() && KeyClean(ptr + 1)
      modifies this`ptr, this`lastNonWhitespace
      ensures ptr == old(ptr) + 1 && Tidy() && KeyClean(ptr) && Abs() == Noted(old(Abs()), t[old(ptr)], old(ptr))
    {
      if !IsWhitespace(t[ptr]) {
        lastNonWhitespace := ptr;
      }
      ptr := ptr + 1;
    }

    /** The loop and what follows it. */
    method Run() returns (ok: bool)
      requires depth <= MAX_NESTING && ptr <= |t| && Tidy() && KeyClean(ptr) && LookupOk() && mode != AutoMode && log == []
      modifies this
      ensures !ok ==> old(Whole()) == Rejected && Patient(policy, log)
      ensures ok ==> (Patient(policy, log) && old(Whole()) == Accepted(log)) || (BrokeLast(policy, log) && Leads(log, old(Whole())))
      decreases MAX_NESTING + 1 - depth, if rootArray then 2 else 0, 3
    {
      hide KeyMatched, Continue, Abs, Total, Patient, BrokeLast, Leads;
      NoneYet();
      while ptr < |t| && state != Done
        invariant ptr <= |t| && Patient(policy, log) && Tidy() && KeyClean(ptr) && LookupOk() && Whole() == old(Whole())
        decreases |t| - ptr
      {
        var r := Round();
        if r == Failed {
          return false;
        }
        if r == Broke {
          return true;
        }
      }
      AtEnd();
      if state == Done {
        ok := OnlySpaceLeft();
        return;
      }
      return mode == ArrayMode && state == ParamSeparator;
    }

    /** Between two calls of the callback. */
    ghost predicate Paused()
      reads this, if lookup == null then {} else {lookup, lookup.slots}
    {
      depth <= MAX_NESTING && ptr <= |t| && Tidy() && KeyClean(ptr) && LookupOk() && mode != AutoMode &&
      Patient(policy, log) && forall l: seq<Child> :: !policy(l)
    }

    /** The loop up to the next call of the callback, or to its end. */
    method Next() returns (r: Pause)
      requires Paused()
      modifies this
      ensures r == Shown ==>
        Paused() && depth <= MAX_NESTING && ptr <= |t| && Whole() == old(Whole()) && |t| - ptr < |t| - old(ptr) && |log| == |old(log)| + 1 && old(log) <= log && Solid(t, log[|log| - 1])
      ensures r == Malformed ==> old(Whole()) == Rejected
      ensures r == Ended ==> old(Whole()) == Accepted(old(log))
    {
      hide KeyMatched, Continue, Abs, Total, Patient, BrokeLast, Leads, Solid, Tidy, KeyClean, Picked;
      ghost var before := log;
      while ptr < |t| && state != Done
        invariant Paused() && log == before && Whole() == old(Whole()) && ptr >= old(ptr)
        decreases |t| - ptr
      {
        var n := |log|;
        var progress := Round();
        BreaksNever();
        if progress == Failed {
          return Malformed;
        }
        if |log| > n {
          return Shown;
        }
      }
      AtEnd();
      if state == Done {
        var blank := OnlySpaceLeft();
        return if blank then Ended else Malformed;
      }
      return if mode == ArrayMode && state == ParamSeparator then Ended else Malformed;
    }

    /** What has been shown is what an accepted text begins with. */
    lemma LogLeads()
      requires depth <= MAX_NESTING && ptr <= |t|
      ensures Whole().Accepted? ==> log <= Whole().children
    {
      hide Continue;
    }

    lemma BreaksNever()
      requires forall l: seq<Child> :: !policy(l)
      ensures !BrokeLast(policy, log)
    {
    }

    lemma NoneYet()
      ensures Patient(policy, [])
    {
    }

    /** The loop behind a complete value. */
    method OnlySpaceLeft() returns (ok: bool)
      requires ptr <= |t|
      ensures ok <==> AllWhitespace(t[ptr..])
    {
      var k := ptr;
      while k < |t|
        invariant ptr <= k <= |t|
        invariant forall j | ptr <= j < k :: IsWhitespace(t[j])
      {
        if !IsWhitespace(t[k]) {
          assert t[ptr..][k - ptr] == t[k];
          return false;
        }
        k := k + 1;
      }
      return true;
    }

    lemma AtEnd()
      requires depth <= MAX_NESTING && ptr <= |t| && (state == Done || ptr == |t|)
      ensures Whole() ==
        if (if state == Done then AllWhitespace(t[ptr..]) else mode == ArrayMode && state == ParamSeparator) then Accepted(log)
        else Rejected
    {
      hide AllWhitespace;
      assert Selection(t, choice, []) == [];
      assert log + [] == log;
    }
  }

  /** Nested containers are parsed with a callback that does nothing. */
  method Validate(t: Text, mode: Mode, depth: nat) returns (ok: bool)
    ensures ok <==> ParseText(t, mode, depth).Accepted?
    decreases MAX_NESTING + 1 - depth, if mode == AutoMode then 4 else 1, 1
  {
    hide ParseText;
    var log;
    ok, log := ParseInternal(t, mode, depth, null, (log: seq<Child>) => false);
  }

  /** kason_parse_internal. Unless the callback breaks, the text is accepted exactly
      when the specification accepts it, and the callback is shown its children; with
      a table, those whose decoded key is in it. When the callback breaks, the parser
      stops at once, and what it has shown is what an accepted text begins with. */
  method ParseInternal(t: Text, mode: Mode, depth: nat, lookup: Table?, policy: ChildPolicy)
    returns (ok: bool, log: seq<Child>)
    requires lookup != null ==> lookup.Valid()
    ensures !ok ==> ParseText(t, mode, depth).Rejected? && Patient(policy, log)
    ensures ok ==>
      var whole := Picked(t, ChoiceOf(lookup), ParseText(t, mode, depth));
      (Patient(policy, log) && whole == Accepted(log)) || (BrokeLast(policy, log) && Leads(log, whole))
    decreases MAX_NESTING + 1 - depth, if mode == AutoMode then 4 else 1, 0
  {
    hide Continue, Selection, Leads, BrokeLast, Patient, ParseText;
    var parser := Open(t, mode, depth, lookup, policy);
    if parser == null {
      NothingShown(policy);
      return false, [];
    }
    ok := parser.Run();
    log := parser.log;
  }

  lemma NothingShown(policy: ChildPolicy)
    ensures Patient(policy, [])
  {
  }

  /** What precedes the loop: the depth limit, and the mode of a document's root. */
  method Open(t: Text, mode: Mode, depth: nat, lookup: Table?, policy: ChildPolicy) returns (parser: Internal?)
    requires lookup != null ==> lookup.Valid()
    ensures parser == null ==> ParseText(t, mode, depth).Rejected?
    ensures parser != null ==>
      fresh(parser) && parser.t == t && parser.lookup == lookup && parser.policy == policy && parser.depth == depth <= MAX_NESTING &&
      parser.choice == ChoiceOf(lookup) && parser.LookupOk() && parser.log == [] && parser.ptr <= |t| && parser.Tidy() &&
      parser.KeyClean(parser.ptr) && parser.mode != AutoMode && parser.rootArray == (mode == AutoMode && parser.mode == ArrayMode) &&
      (mode != AutoMode ==> parser.mode == mode) && parser.Whole() == Picked(t, ChoiceOf(lookup), ParseText(t, mode, depth))
  {
    hide KeyMatched, Continue, SkipWs, Selection;
    if depth > MAX_NESTING {
      return null;
    }
    var begin, root := 0, mode;
    if mode == AutoMode {
      while begin < |t| && IsWhitespace(t[begin])
        invariant begin <= |t| && SkipWs(t, begin) == SkipWs(t, 0)
      {
        SkipOne(t, begin);
        begin := begin + 1;
      }
      SkipNone(t, begin);
      if begin >= |t| {
        return null;
      }
      root := RootMode(t[begin]);
    }
    parser := new Internal(t, root, mode == AutoMode && t[begin] == LBRACKET, depth, begin, lookup, policy);
    EmptyTotal(Picked(t, ChoiceOf(lookup), Continue(parser.TheJob(), parser.Abs(), parser.ptr)));
  }

  lemma SkipOne(t: Text, i: nat)
    requires i < |t| && IsWhitespace(t[i])
    ensures SkipWs(t, i) == SkipWs(t, i + 1)
  {
  }

  lemma SkipNone(t: Text, i: nat)
    requires i >= |t| || !IsWhitespace(t[i])
    ensures SkipWs(t, i) == i
  {
  }

  lemma EmptyTotal(o: Outcome)
    ensures Total([], o) == o
  {
    if o.Accepted? {
      assert [] + o.children == o.children;
    }
  }
}
