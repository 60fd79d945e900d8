/** The compact and the pretty printer: byte filters that keep the tree and change
    nothing but its white space. */
module Format {
  import opened Bytes

  const NEWLINE: Byte := 0x0A
  const SPACE: Byte := 0x20

  /** isspace in the C locale. */
  predicate IsSpace(c: int) {
    c == 0x20 || 0x09 <= c <= 0x0D
  }

  /** Outside a string, in one, or behind a backslash in one. */
  datatype Quote = Outside | Inside | Escaped

  function Quoting(q: Quote, c: Byte): Quote {
    match q
    case Outside => if c == QUOTE then Inside else Outside
    case Inside => if c == BACKSLASH then Escaped else if c == QUOTE then Outside else Inside
    case Escaped => Inside
  }

  // ---------------------------------------------------------------- compact

  /** What write_compact_json writes for the bytes from `i` on. */
  function CompactFrom(t: Text, i: nat, q: Quote): Text
    decreases |t| - i
  {
    if i >= |t| then []
    else if q == Outside && IsSpace(t[i]) then CompactFrom(t, i + 1, q)
    else [t[i]] + CompactFrom(t, i + 1, Quoting(q, t[i]))
  }

  /** write_compact_json. */
  method WriteCompact(input: Text) returns (output: Text)
    ensures output == CompactFrom(input, 0, Outside) + [NEWLINE]
  {
    output := [];
    var inString, escaped := false, false;
    var i := 0;
    while i < |input|
      invariant i <= |input| && (escaped ==> inString)
      invariant output + CompactFrom(input, i, QuoteOf(inString, escaped)) == CompactFrom(input, 0, Outside)
    {
      var ch := input[i];
      ghost var q := QuoteOf(inString, escaped);
      i := i + 1;
      if !inString && IsSpace(ch) {
        continue;
      }
      assert output + CompactFrom(input, i - 1, q) == output + [ch] + CompactFrom(input, i, Quoting(q, ch));
      output := output + [ch];
      if inString {
        if escaped {
          escaped := false;
        } else if ch == BACKSLASH {
          escaped := true;
        } else if ch == QUOTE {
          inString := false;
        }
      } else if ch == QUOTE {
        inString := true;
      }
    }
    assert output + [] == output;
    output := output + [NEWLINE];
  }

  function QuoteOf(inString: bool, escaped: bool): Quote {
    if !inString then Outside else if escaped then Escaped else Inside
  }

  // ----------------------------------------------------------------- pretty

  /** The text written, or nothing when a bracket does not fit in `expanded`. */
  datatype Pretty = Unsafe | Pretty(text: Text)

  function Prefixed(x: Text, r: Pretty): Pretty {
    if r.Unsafe? then Unsafe else Pretty(x + r.text)
  }

  function NextSolid(t: Text, i: nat): (c: int)
    decreases |t| - i
  {
    if i < |t| && IsSpace(t[i]) then NextSolid(t, i + 1) else At(t, i)
  }

  function Trues(stack: seq<bool>): (n: nat)
    ensures n <= |stack|
  {
    if stack == [] then 0 else Trues(stack[..|stack| - 1]) + (if stack[|stack| - 1] then 1 else 0)
  }

  function Indent(depth: nat): (t: Text)
    ensures |t| == depth * 2 && forall k | 0 <= k < |t| :: t[k] == SPACE
  {
    if depth == 0 then [] else Indent(depth - 1) + [SPACE, SPACE]
  }

  function Line(depth: nat): Text {
    [NEWLINE] + Indent(depth)
  }

  /** Whether the container that opens with `c`, with `next` behind it, is spread over lines. */
  predicate Expands(c: Byte, next: int) {
    (c == LBRACE && next != RBRACE) || (c == LBRACKET && next != RBRACKET)
  }

  /** What write_pretty_json writes for the bytes from `i` on; `stack` is `expanded`,
      and its true entries make up `depth`. */
  function PrettyFrom(t: Text, i: nat, q: Quote, stack: seq<bool>): Pretty
    decreases |t| - i
  {
    if i >= |t| then Pretty([])
    else
      var c := t[i];
      if q != Outside then Prefixed([c], PrettyFrom(t, i + 1, Quoting(q, c), stack))
      else if IsSpace(c) then PrettyFrom(t, i + 1, q, stack)
      else if c == QUOTE then Prefixed([c], PrettyFrom(t, i + 1, Inside, stack))
      else if c == LBRACE || c == LBRACKET then
        if |stack| >= MAX_NESTING then Unsafe
        else
          var longer := stack + [Expands(c, NextSolid(t, i + 1))];
          Prefixed([c] + (if longer[|stack|] then Line(Trues(longer)) else []), PrettyFrom(t, i + 1, q, longer))
      else if c == RBRACE || c == RBRACKET then
        if stack == [] then Unsafe
        else
          var rest := stack[..|stack| - 1];
          Prefixed((if stack[|stack| - 1] then Line(Trues(rest)) else []) + [c], PrettyFrom(t, i + 1, q, rest))
      else if c == COMMA then Prefixed([COMMA] + Line(Trues(stack)), PrettyFrom(t, i + 1, q, stack))
      else if c == COLON then Prefixed([COLON, SPACE], PrettyFrom(t, i + 1, q, stack))
      else Prefixed([c], PrettyFrom(t, i + 1, q, stack))
  }

  /** put_indent. */
  method PutIndent(output: Text, depth: nat) returns (longer: Text)
    ensures longer == output + Indent(depth)
  {
    longer := output;
    var i := 0;
    assert longer == output + Indent(0);
    while i < depth * 2
      invariant i <= depth * 2 && |longer| == |output| + i && longer[..|output|] == output
      invariant forall k | |output| <= k < |longer| :: longer[k] == SPACE
    {
      longer := longer + [SPACE];
      i := i + 1;
    }
    assert longer[|output|..] == Indent(depth);
  }

  method NextByte(t: Text, i: nat) returns (c: int)
    requires i <= |t|
    ensures c == NextSolid(t, i)
  {
    var next := i;
    while next < |t| && IsSpace(t[next])
      invariant i <= next <= |t| && NextSolid(t, next) == NextSolid(t, i)
    {
      next := next + 1;
    }
    return At(t, next);
  }

  /** An opening bracket: an empty container stays on its line. */
  method OpenContainer(output: Text, ch: Byte, next: int, expanded: array<bool>, containerDepth: nat, depth: nat, ghost stack: seq<bool>)
    returns (longer: Text, deeper: nat)
    requires containerDepth == |stack| < expanded.Length && expanded[..containerDepth] == stack && depth == Trues(stack)
    modifies expanded
    ensures var more := stack + [Expands(ch, next)];
      expanded[..containerDepth + 1] == more && deeper == Trues(more) &&
      longer == output + ([ch] + (if Expands(ch, next) then Line(Trues(more)) else []))
  {
    hide Expands, Indent, Trues;
    longer, deeper := output + [ch], depth;
    expanded[containerDepth] := Expands(ch, next);
    TruesSnoc(stack, Expands(ch, next));
    if expanded[containerDepth] {
      deeper := deeper + 1;
      longer := longer + [NEWLINE];
      longer := PutIndent(longer, deeper);
    }
  }

  /** A closing bracket, with the level it leaves. */
  method CloseContainer(output: Text, ch: Byte, expanded: array<bool>, containerDepth: nat, depth: nat, ghost stack: seq<bool>)
    returns (longer: Text, shallower: nat)
    requires containerDepth + 1 == |stack| <= expanded.Length && expanded[..containerDepth + 1] == stack && depth == Trues(stack)
    ensures var rest := stack[..containerDepth];
      expanded[..containerDepth] == rest && shallower == Trues(rest) &&
      longer == output + ((if stack[containerDepth] then Line(Trues(rest)) else []) + [ch])
  {
    hide Indent, Trues;
    ghost var last, rest := stack[containerDepth], stack[..containerDepth];
    assert stack == rest + [last];
    TruesSnoc(rest, last);
    assert expanded[containerDepth] == last;
    longer, shallower := output, depth;
    if expanded[containerDepth] {
      shallower := shallower - 1;
      longer := longer + [NEWLINE];
      longer := PutIndent(longer, shallower);
    }
    longer := longer + [ch];
  }

  /** write_pretty_json. */
  method WritePretty(input: Text) returns (output: Text)
    requires PrettyFrom(input, 0, Outside, []).Pretty?
    ensures output == PrettyFrom(input, 0, Outside, []).text + [NEWLINE]
  {
    hide PrettyFrom, Indent, Trues, Expands, NextSolid, Prefixed;
    output := [];
    var depth, containerDepth: nat := 0, 0;
    var expanded := new bool[MAX_NESTING];
    var inString, escaped := false, false;
    ghost var whole, stack: seq<bool> := PrettyFrom(input, 0, Outside, []), [];
    TruesNothing();
    PrefixedNothing(whole);
    var i := 0;
    while i < |input|
      invariant i <= |input| && (escaped ==> inString)
      invariant containerDepth == |stack| <= MAX_NESTING && expanded[..containerDepth] == stack && depth == Trues(stack)
      invariant Prefixed(output, PrettyFrom(input, i, QuoteOf(inString, escaped), stack)) == whole
    {
      var ch := input[i];
      ghost var before := output;
      if inString {
        CopyStep(input, i, QuoteOf(inString, escaped), stack, before);
        output := output + [ch];
        if escaped {
          escaped := false;
        } else if ch == BACKSLASH {
          escaped := true;
        } else if ch == QUOTE {
          inString := false;
        }
        i := i + 1;
        continue;
      }
      if ch == LBRACE || ch == LBRACKET {
        OpenStep(input, i, stack, before);
        var next := NextByte(input, i + 1);
        output, depth := OpenContainer(output, ch, next, expanded, containerDepth, depth, stack);
        containerDepth := containerDepth + 1;
        stack := stack + [Expands(ch, next)];
      } else if ch == RBRACE || ch == RBRACKET {
        CloseStep(input, i, stack, before);
        containerDepth := containerDepth - 1;
        output, depth := CloseContainer(output, ch, expanded, containerDepth, depth, stack);
        stack := stack[..|stack| - 1];
      } else {
        CopyStep(input, i, Outside, stack, before);
        if IsSpace(ch) {
          assert output + [] == output;
        } else if ch == QUOTE {
          inString := true;
          output := output + [ch];
        } else if ch == COMMA {
          output := output + [COMMA, NEWLINE];
          output := PutIndent(output, depth);
          assert output == before + ([COMMA] + Line(Trues(stack)));
        } else if ch == COLON {
          output := output + [COLON, SPACE];
        } else {
          output := output + [ch];
        }
      }
      i := i + 1;
    }
    PrettyEnd(input, i, QuoteOf(inString, escaped), stack, output);
    output := output + [NEWLINE];
  }

  lemma TruesNothing()
    ensures Trues([]) == 0
  {
  }

  lemma TruesSnoc(stack: seq<bool>, b: bool)
    ensures Trues(stack + [b]) == Trues(stack) + (if b then 1 else 0)
  {
    assert (stack + [b])[..|stack|] == stack;
  }

  lemma PrefixedNothing(r: Pretty)
    ensures Prefixed([], r) == r
  {
    if r.Pretty? {
      assert [] + r.text == r.text;
    }
  }

  lemma PrefixedTwice(x: Text, y: Text, r: Pretty)
    ensures Prefixed(x, Prefixed(y, r)) == Prefixed(x + y, r)
  {
    if r.Pretty? {
      assert x + (y + r.text) == x + y + r.text;
    }
  }

  lemma PrettyEnd(t: Text, i: nat, q: Quote, stack: seq<bool>, before: Text)
    requires i >= |t|
    ensures Prefixed(before, PrettyFrom(t, i, q, stack)) == Pretty(before)
  {
    assert before + [] == before;
  }

  /** One byte. */
  lemma PrettyStep(t: Text, i: nat, q: Quote, stack: seq<bool>)
    requires i < |t|
    ensures var c := t[i];
      PrettyFrom(t, i, q, stack) ==
      if q != Outside then Prefixed([c], PrettyFrom(t, i + 1, Quoting(q, c), stack))
      else if IsSpace(c) then PrettyFrom(t, i + 1, q, stack)
      else if c == QUOTE then Prefixed([c], PrettyFrom(t, i + 1, Inside, stack))
      else if c == LBRACE || c == LBRACKET then
        if |stack| >= MAX_NESTING then Unsafe
        else
          var longer := stack + [Expands(c, NextSolid(t, i + 1))];
          Prefixed([c] + (if Expands(c, NextSolid(t, i + 1)) then Line(Trues(longer)) else []), PrettyFrom(t, i + 1, q, longer))
      else if c == RBRACE || c == RBRACKET then
        if stack == [] then Unsafe
        else
          var rest := stack[..|stack| - 1];
          Prefixed((if stack[|stack| - 1] then Line(Trues(rest)) else []) + [c], PrettyFrom(t, i + 1, q, rest))
      else if c == COMMA then Prefixed([COMMA] + Line(Trues(stack)), PrettyFrom(t, i + 1, q, stack))
      else if c == COLON then Prefixed([COLON, SPACE], PrettyFrom(t, i + 1, q, stack))
      else Prefixed([c], PrettyFrom(t, i + 1, q, stack))
  {
    hide Expands, NextSolid, Trues, Line, Prefixed;
  }

  /** What one byte other than a bracket turns into. */
  function Copied(c: Byte, q: Quote, stack: seq<bool>): Text {
    if q != Outside then [c]
    else if IsSpace(c) then []
    else if c == COMMA then [COMMA] + Line(Trues(stack))
    else if c == COLON then [COLON, SPACE]
    else [c]
  }

  predicate IsBracket(c: Byte) {
    c == LBRACE || c == LBRACKET || c == RBRACE || c == RBRACKET
  }

  lemma CopyStep(t: Text, i: nat, q: Quote, stack: seq<bool>, before: Text)
    requires i < |t| && (q == Outside ==> !IsBracket(t[i]))
    ensures Prefixed(before, PrettyFrom(t, i, q, stack)) ==
      Prefixed(before + Copied(t[i], q, stack), PrettyFrom(t, i + 1, Quoting(q, t[i]), stack))
  {
    hide Line, Trues, Prefixed;
    var rest := PrettyFrom(t, i + 1, Quoting(q, t[i]), stack);
    PrefixedTwice(before, Copied(t[i], q, stack), rest);
    assert before + [] == before;
  }

  lemma OpenStep(t: Text, i: nat, stack: seq<bool>, before: Text)
    requires i < |t| && (t[i] == LBRACE || t[i] == LBRACKET) && Prefixed(before, PrettyFrom(t, i, Outside, stack)).Pretty?
    ensures |stack| < MAX_NESTING
    ensures var expand := Expands(t[i], NextSolid(t, i + 1));
      var longer := stack + [expand];
      Prefixed(before, PrettyFrom(t, i, Outside, stack)) ==
        Prefixed(before + ([t[i]] + (if expand then Line(Trues(longer)) else [])), PrettyFrom(t, i + 1, Outside, longer))
  {
    hide Line, Trues, Expands, NextSolid;
    var expand := Expands(t[i], NextSolid(t, i + 1));
    var longer := stack + [expand];
    PrefixedTwice(before, [t[i]] + (if expand then Line(Trues(longer)) else []), PrettyFrom(t, i + 1, Outside, longer));
  }

  lemma CloseStep(t: Text, i: nat, stack: seq<bool>, before: Text)
    requires i < |t| && (t[i] == RBRACE || t[i] == RBRACKET) && Prefixed(before, PrettyFrom(t, i, Outside, stack)).Pretty?
    ensures stack != []
    ensures var rest := stack[..|stack| - 1];
      Prefixed(before, PrettyFrom(t, i, Outside, stack)) ==
        Prefixed(before + ((if stack[|stack| - 1] then Line(Trues(rest)) else []) + [t[i]]), PrettyFrom(t, i + 1, Outside, rest))
  {
    hide Line, Trues;
    if stack != [] {
      var rest := stack[..|stack| - 1];
      PrefixedTwice(before, (if stack[|stack| - 1] then Line(Trues(rest)) else []) + [t[i]], PrettyFrom(t, i + 1, Outside, rest));
    }
  }
}
