/** The older parser, kason_parse_internal, one byte at a time: it finds the
    extent of a child container with two bracket counters and then parses the
    slice it found. */
module LegacySpec {
  import opened Bytes
  import opened JsonString
  import opened Number
  import opened Grammar
  import opened Events
  import opened Modes

  datatype Phase =
    | FindObjectBegin | FindKeyBegin | FindKeyEnd | FindValueSeparator | FindValueBegin | FindStringEnd
    | FindArrayEnd | FindObjectEnd | FindGenericEnd | FindNumberEnd | FindParamSeparator | Complete

  /** Outside a string, in one, or behind a backslash with `omit` hexadecimal digits to go. */
  datatype Quoting = Outside | InString | Escape(omit: nat)

  /** The bracket counters and the commas counted at level one of an array. */
  datatype Brackets = Brackets(arrays: int, objects: int, commas: nat)

  /** `keyBegin` is -1 for the null pointer; ends are exclusive. */
  datatype Parser = Parser(
    phase: Phase, quoting: Quoting, hasEntries: bool, keyBegin: int, keyEnd: int, valueBegin: int,
    unclean: bool, number: NumberState, brackets: Brackets, lastSolid: int)

  /** One call of the callback: an immediate child of the parsed container. */
  datatype Child = Child(key: Owner, valueType: Type, lo: int, hi: int, count: nat)

  /** One call: the text, its mode and its depth. */
  datatype Job = Job(t: Text, mode: Mode, rootArray: bool, depth: nat)

  datatype Outcome = Rejected | Accepted(children: seq<Child>)

  /** What one byte does. */
  datatype Move = Halt | Go(parser: Parser) | Commit(committed: Parser, stop: int)

  datatype QuotedResult = BadQuoted | StillQuoted(quoting: Quoting) | QuoteCloses

  /** One byte inside a string. */
  function QuotedStep(q: Quoting, c: Byte): QuotedResult {
    match q
    case Outside => BadQuoted
    case InString =>
      if c == BACKSLASH then StillQuoted(Escape(0))
      else if c == QUOTE then QuoteCloses
      else if IsControl(c) then BadQuoted
      else StillQuoted(InString)
    case Escape(n) =>
      if n > 0 then
        if !IsHexDigit(c) then BadQuoted else StillQuoted(if n == 1 then InString else Escape(n - 1))
      else if c == LOWER_U then StillQuoted(Escape(4))
      else if IsSimpleEscape(c) then StillQuoted(InString)
      else BadQuoted
  }

  function Slice(t: Text, lo: int, hi: int): Text {
    if 0 <= lo <= hi <= |t| then t[lo..hi] else []
  }

  /** Whether the byte makes kason_string_is_valid necessary. */
  predicate NeedsValidation(c: Byte) {
    c == BACKSLASH || c >= 0x80
  }

  predicate Delimits(mode: Mode, c: int) {
    c == COMMA || c == EndToken(mode) as int || IsWhitespace(c)
  }

  function StepKeyBegin(p: Parser, c: Byte, i: nat): Move {
    if c == RBRACE && !p.hasEntries then Go(p.(phase := Complete))
    else if IsWhitespace(c) then Go(p)
    else if c == QUOTE then
      Go(p.(phase := FindKeyEnd, quoting := InString, keyBegin := i + 1, unclean := false))
    else Halt
  }

  function StepKeyEnd(p: Parser, t: Text, i: nat): Move
    requires i < |t|
  {
    match QuotedStep(p.quoting, t[i])
    case BadQuoted => Halt
    case StillQuoted(q) => Go(p.(quoting := q, unclean := p.unclean || NeedsValidation(t[i])))
    case QuoteCloses =>
      if p.unclean && !ValidBody(Slice(t, p.keyBegin, i)) then Halt
      else Go(p.(phase := FindValueSeparator, quoting := Outside, keyEnd := i))
  }

  function StepValueSeparator(p: Parser, c: Byte): Move {
    if c == COLON then Go(p.(phase := FindValueBegin)) else if IsWhitespace(c) then Go(p) else Halt
  }

  function StepValueBegin(p: Parser, t: Text, i: nat): Move
    requires i < |t|
  {
    var c := t[i];
    if IsWhitespace(c) then Go(p)
    else if c == QUOTE then
      Go(p.(phase := FindStringEnd, quoting := InString, valueBegin := i + 1, unclean := false))
    else if c == LBRACE then
      Go(p.(phase := FindObjectEnd, valueBegin := i, brackets := Brackets(0, 1, 0)))
    else if c == LBRACKET then
      Go(p.(phase := FindArrayEnd, valueBegin := i + 1, brackets := Brackets(1, 0, 0)))
    else
      var p' :=
        if NumberBegin(c) != Invalid then p.(phase := FindNumberEnd, valueBegin := i, number := NumberBegin(c))
        else p.(phase := FindGenericEnd, valueBegin := i);
      if i == |t| - 1 then Commit(p', i + 1) else Go(p')
  }

  /** A bare token goes on, or is committed at its delimiter or at the end of the text. */
  function StepBare(p: Parser, t: Text, i: nat, mode: Mode): Move
    requires i < |t|
  {
    var c := t[i];
    var inside := if p.phase == FindNumberEnd then p.(number := NumberNext(p.number, c)) else p;
    if i == |t| - 1 && c != EndToken(mode) && !IsWhitespace(c) then Commit(inside, i + 1)
    else if Delimits(mode, c) then Commit(p, i)
    else Go(inside)
  }

  function StepStringEnd(p: Parser, t: Text, i: nat): Move
    requires i < |t|
  {
    match QuotedStep(p.quoting, t[i])
    case BadQuoted => Halt
    case StillQuoted(q) => Go(p.(quoting := q, unclean := p.unclean || NeedsValidation(t[i])))
    case QuoteCloses =>
      if p.unclean && !ValidBody(Slice(t, p.valueBegin, i)) then Halt else Commit(p.(quoting := Outside), i)
  }

  /** check_end: the counters after one byte outside strings. */
  function Counted(b: Brackets, c: Byte): Brackets {
    if c == LBRACKET then b.(arrays := b.arrays + 1)
    else if c == RBRACKET then b.(arrays := b.arrays - 1)
    else if c == LBRACE then b.(objects := b.objects + 1)
    else if c == RBRACE then b.(objects := b.objects - 1)
    else if c == COMMA && b.arrays == 1 && b.objects == 0 then b.(commas := b.commas + 1)
    else b
  }

  predicate Negative(b: Brackets) {
    b.arrays < 0 || b.objects < 0
  }

  /** The byte is the closing bracket that brings its counter to zero. */
  predicate Closes(kind: Kind, b: Brackets, c: Byte) {
    c == CloseOf(kind) && (if kind.Object? then b.objects else b.arrays) == 0
  }

  function StepContainerEnd(p: Parser, t: Text, i: nat, kind: Kind): Move
    requires i < |t|
  {
    var c := t[i];
    if p.quoting != Outside then
      match QuotedStep(p.quoting, c)
      case BadQuoted => Halt
      case StillQuoted(q) => Go(p.(quoting := q))
      case QuoteCloses => Go(p.(quoting := Outside))
    else if c == QUOTE then Go(p.(quoting := InString))
    else
      var b := Counted(p.brackets, c);
      if Negative(b) then Halt
      else if !Closes(kind, b, c) then Go(p.(brackets := b))
      else if kind.Object? then Commit(p.(brackets := b), i + 1)
      else if p.lastSolid >= p.valueBegin && ByteAt(t, p.lastSolid) == COMMA then Halt
      else Commit(p.(brackets := b), p.lastSolid + 1)
  }

  /** The byte at a position that may lie outside the text. */
  function ByteAt(t: Text, i: int): int {
    if 0 <= i < |t| then t[i] else -1
  }

  function StepParamSeparator(p: Parser, c: Byte, mode: Mode): Move {
    if c == COMMA then Go(p.(phase := if mode == ObjectMode then FindKeyBegin else FindValueBegin))
    else if mode == ObjectMode && c == RBRACE then Go(p.(phase := Complete))
    else if IsWhitespace(c) then Go(p)
    else Halt
  }

  /** The switch of kason_parse_internal. */
  function Step(p: Parser, t: Text, i: nat, mode: Mode): Move
    requires i < |t|
  {
    match p.phase
    case FindObjectBegin => if t[i] == LBRACE then Go(p.(phase := FindKeyBegin)) else Go(p)
    case FindKeyBegin => StepKeyBegin(p, t[i], i)
    case FindKeyEnd => StepKeyEnd(p, t, i)
    case FindValueSeparator => StepValueSeparator(p, t[i])
    case FindValueBegin => StepValueBegin(p, t, i)
    case FindStringEnd => StepStringEnd(p, t, i)
    case FindArrayEnd => StepContainerEnd(p, t, i, Array)
    case FindObjectEnd => StepContainerEnd(p, t, i, Object)
    case FindGenericEnd => StepBare(p, t, i, mode)
    case FindNumberEnd => StepBare(p, t, i, mode)
    case FindParamSeparator => StepParamSeparator(p, t[i], mode)
    case Complete => Halt
  }

  /** The text of the value is checked when it is committed. */
  predicate Checked(job: Job, p: Parser, stop: int)
    requires job.depth <= MAX_NESTING
    decreases MAX_NESTING + 1 - job.depth, if job.rootArray then 2 else 0, 0
  {
    var value := Slice(job.t, p.valueBegin, stop);
    match p.phase
    case FindArrayEnd =>
      p.valueBegin >= stop || ParseText(value, ArrayMode, if job.rootArray then job.depth else job.depth + 1).Accepted?
    case FindObjectEnd => ParseText(value, AutoMode, job.depth + 1).Accepted?
    case FindNumberEnd => p.valueBegin < stop && NumberComplete(p.number)
    case FindGenericEnd => value == NULL || value == TRUE || value == FALSE
    case _ => true
  }

  function ValueTypeOf(p: Parser, value: Text): Type {
    match p.phase
    case FindStringEnd => StringType
    case FindArrayEnd => ArrayType
    case FindObjectEnd => ObjectType
    case FindNumberEnd => NumberType
    case _ => if value == NULL then NullType else if value == TRUE then TrueType else FalseType
  }

  function ChildOf(p: Parser, t: Text, stop: int): Child {
    Child(
      if p.keyBegin < 0 || p.keyEnd < 0 then NoKeyOwner else KeyOwner(Span(p.keyBegin, p.keyEnd)),
      ValueTypeOf(p, Slice(t, p.valueBegin, stop)), p.valueBegin, stop,
      if p.phase != FindArrayEnd then 1 else if p.valueBegin < stop then p.brackets.commas + 1 else 0)
  }

  /** The state after a commit at the byte `c`. */
  function Committed(job: Job, p: Parser, c: Byte): Parser {
    var clear := p.(keyBegin := -1, keyEnd := -1, valueBegin := -1);
    match job.mode
    case ObjectMode =>
      clear.(hasEntries := true, phase :=
        if p.phase != FindObjectEnd && c == RBRACE then Complete
        else if c == COMMA then FindKeyBegin
        else FindParamSeparator)
    case ArrayMode =>
      clear.(phase := if job.rootArray then Complete else if c == COMMA then FindValueBegin else FindParamSeparator)
    case _ => clear.(phase := Complete)
  }

  /** The last byte that was no white space. */
  function Noted(p: Parser, c: Byte, i: nat): Parser {
    if IsWhitespace(c) then p else p.(lastSolid := i)
  }

  function Prepend(child: Child, o: Outcome): Outcome {
    if o.Rejected? then Rejected else Accepted([child] + o.children)
  }

  /** The rest of the loop from byte `i` on. */
  function Continue(job: Job, p: Parser, i: nat): Outcome
    requires i <= |job.t| && job.depth <= MAX_NESTING
    decreases MAX_NESTING + 1 - job.depth, if job.rootArray then 2 else 0, 1 + |job.t| - i
  {
    var t := job.t;
    if p.phase == Complete then (if AllWhitespace(t[i..]) then Accepted([]) else Rejected)
    else if i == |t| then (if job.mode == ArrayMode && p.phase == FindParamSeparator then Accepted([]) else Rejected)
    else
      match Step(p, t, i, job.mode)
      case Halt => Rejected
      case Go(p') => Continue(job, Noted(p', t[i], i), i + 1)
      case Commit(p', stop) =>
        if !Checked(job, p', stop) then Rejected
        else Prepend(ChildOf(p', t, stop), Continue(job, Noted(Committed(job, p', t[i]), t[i], i), i + 1))
  }

  function RootMode(c: Byte): Mode {
    if c == LBRACE then ObjectMode
    else if c == LBRACKET then ArrayMode
    else if c == QUOTE then StringMode
    else GenericMode
  }

  function Begin(mode: Mode, i: nat): Parser {
    Parser(if mode == ObjectMode then FindObjectBegin else FindValueBegin, Outside, false, -1, -1, -1, false, Invalid,
      Brackets(0, 0, 0), i)
  }

  /** kason_parse_internal with a callback that never breaks. */
  function ParseText(t: Text, mode: Mode, depth: nat): Outcome
    decreases MAX_NESTING + 1 - depth, if mode == AutoMode then 3 else 1
  {
    if depth > MAX_NESTING then Rejected
    else if mode == AutoMode then
      var i := SkipWs(t, 0);
      if i >= |t| then Rejected
      else Continue(Job(t, RootMode(t[i]), t[i] == LBRACKET, depth), Begin(RootMode(t[i]), i), i)
    else Continue(Job(t, mode, false, depth), Begin(mode, 0), 0)
  }
}
