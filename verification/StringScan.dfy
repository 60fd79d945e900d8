/** Finding the end of a string: the escape-flag loop of kason.c against the
    grammar of string bodies. */
module StringScan {
  import opened Bytes
  import opened JsonString

  /** A byte that neither ends nor escapes a string and is no control character. */
  predicate IsPlain(b: int) {
    b >= 0x20 && b != QUOTE && b != BACKSLASH
  }

  /** Position of the first unescaped quote at or after `i`, or -1 when the text
      ends or an unescaped control character comes first. */
  function QuoteFrom(s: Text, i: nat, escape: bool): (q: int)
    ensures q == -1 || (i <= q < |s| && s[q] == QUOTE)
    decreases |s| - i
  {
    if i >= |s| then -1
    else if escape then QuoteFrom(s, i + 1, false)
    else if s[i] == QUOTE then i
    else if IsControl(s[i]) then -1
    else QuoteFrom(s, i + 1, s[i] == BACKSLASH)
  }

  lemma {:induction false} PlainBytesSkip(s: Text, i: nat, n: nat)
    requires i + n <= |s| && forall k | i <= k < i + n :: IsPlain(s[k])
    ensures QuoteFrom(s, i, false) == QuoteFrom(s, i + n, false)
    decreases n
  {
    if n > 0 {
      PlainBytesSkip(s, i + 1, n - 1);
    }
  }

  lemma PlainTextSkips(s: Text, i: nat, t: Text)
    requires Occurs(s, i, t) && forall k | 0 <= k < |t| :: IsPlain(t[k])
    ensures QuoteFrom(s, i, false) == QuoteFrom(s, i + |t|, false)
  {
    forall k | i <= k < i + |t| ensures IsPlain(s[k]) {
      OccursAt(s, i, t, k - i);
    }
    PlainBytesSkip(s, i, |t|);
  }

  lemma Utf8IsPlain(v: Scalar)
    requires CharOk(Plain(v))
    ensures forall k | 0 <= k < |Utf8(v)| :: IsPlain(Utf8(v)[k])
  {
    if v >= 0x80 {
      LeadOfUtf8(v);
    }
  }

  lemma HexIsPlain(t: Text)
    requires HexText(t) >= 0
    ensures forall k | 0 <= k < |t| :: IsPlain(t[k])
  {
  }

  /** A backslash and the letter behind it do not end a string. */
  lemma EscapeSkips(s: Text, i: nat, b: Byte)
    requires Occurs(s, i, [BACKSLASH, b])
    ensures QuoteFrom(s, i, false) == QuoteFrom(s, i + 2, false)
  {
    OccursAt(s, i, [BACKSLASH, b], 0);
    assert QuoteFrom(s, i, false) == QuoteFrom(s, i + 1, true);
  }

  lemma UnicodeSkips(s: Text, i: nat, h: Text)
    requires Occurs(s, i, [BACKSLASH, LOWER_U] + h) && HexText(h) >= 0
    ensures QuoteFrom(s, i, false) == QuoteFrom(s, i + 6, false)
  {
    OccursConcat(s, i, [BACKSLASH, LOWER_U], h);
    EscapeSkips(s, i, LOWER_U);
    HexIsPlain(h);
    PlainTextSkips(s, i + 2, h);
  }

  /** No printed character ends a string. */
  lemma CharSkips(s: Text, i: nat, c: Char)
    requires CharOk(c) && Occurs(s, i, PrintChar(c))
    ensures QuoteFrom(s, i, false) == QuoteFrom(s, i + |PrintChar(c)|, false)
  {
    hide QuoteFrom, Occurs, Utf8;
    match c
    case Plain(v) =>
      Utf8IsPlain(v);
      PlainTextSkips(s, i, Utf8(v));
    case Short(b) => EscapeSkips(s, i, b);
    case Unicode(h) => UnicodeSkips(s, i, h);
    case Pair(h, l) =>
      var x, y := [BACKSLASH, LOWER_U] + h, [BACKSLASH, LOWER_U] + l;
      assert PrintChar(c) == x + y;
      OccursConcat(s, i, x, y);
      UnicodeSkips(s, i, h);
      UnicodeSkips(s, i + 6, l);
  }

  lemma {:induction false} CharsSkip(s: Text, i: nat, cs: seq<Char>)
    requires CharsOk(cs) && Occurs(s, i, PrintChars(cs))
    ensures QuoteFrom(s, i, false) == QuoteFrom(s, i + |PrintChars(cs)|, false)
    decreases |cs|
  {
    hide CharOk, PrintChar, QuoteFrom, Occurs;
    if cs == [] {
    } else {
      OccursConcat(s, i, PrintChar(cs[0]), PrintChars(cs[1..]));
      CharSkips(s, i, cs[0]);
      CharsSkip(s, i + |PrintChar(cs[0])|, cs[1..]);
    }
  }

  /** A body is readable exactly when the first unescaped quote exists and the
      bytes before it are a valid body. */
  lemma ReadBodyIffQuote(s: Text, i: nat)
    requires i <= |s|
    ensures ReadBody(s, i).Body? <==> QuoteFrom(s, i, false) >= 0 && ValidBody(s[i..QuoteFrom(s, i, false)])
    ensures ReadBody(s, i).Body? ==> ReadBody(s, i).close == QuoteFrom(s, i, false)
  {
    hide NextScalar, CharOk, PrintChar, CharAt;
    var q := QuoteFrom(s, i, false);
    if ReadBody(s, i).Body? {
      var r := ReadBody(s, i);
      ReadBodySound(s, i);
      CharsSkip(s, i, r.chars);
      assert QuoteFrom(s, r.close, false) == r.close;
      ValidBodyIffPrinted(s[i..q]);
    }
    if q >= 0 && ValidBody(s[i..q]) {
      ValidBodyIffPrinted(s[i..q]);
      var cs :| CharsOk(cs) && PrintChars(cs) == s[i..q];
      ReadBodyComplete(s, i, cs);
    }
  }

  /** Unescaped ASCII needs no validation. */
  lemma {:induction false} AsciiIsValid(t: Text, i: nat)
    requires i <= |t| && forall k | 0 <= k < |t| :: IsPlain(t[k]) && t[k] < 0x80
    ensures ValidFrom(t, i)
    decreases |t| - i
  {
    if i < |t| {
      assert NextScalar(t, i, true) == NextValue(t[i], i + 1);
      AsciiIsValid(t, i + 1);
    }
  }

  /** kason_skip_plain_string: the last byte of the run of unescaped ASCII after `ptr`. */
  method SkipPlainString(s: Text, ptr: nat) returns (last: nat)
    requires ptr < |s|
    ensures ptr <= last < |s|
    ensures forall k | ptr < k <= last :: IsPlain(s[k]) && s[k] < 0x80
    ensures last + 1 < |s| ==> !(IsPlain(s[last + 1]) && s[last + 1] < 0x80)
  {
    last := ptr;
    var next := ptr + 1;
    while next < |s| && 0x20 <= s[next] < 0x80 && s[next] != QUOTE && s[next] != BACKSLASH
      invariant last + 1 == next && ptr <= last < |s|
      invariant forall k | ptr < k <= last :: IsPlain(s[k]) && s[k] < 0x80
      decreases |s| - next
    {
      last := next;
      next := next + 1;
    }
  }

  /** kason_scan_string, from the opening quote at `cursor`: the body is
      `s[cursor + 1..close]`. Bodies without escapes and bytes above ASCII are
      not validated a second time. */
  method ScanString(s: Text, cursor: nat) returns (ok: bool, close: nat)
    requires cursor < |s|
    ensures ok <==> ReadBody(s, cursor + 1).Body?
    ensures ok ==> close == ReadBody(s, cursor + 1).close
  {
    hide NextScalar;
    var begin := cursor + 1;
    ReadBodyIffQuote(s, begin);
    var ptr := begin;
    var escape, needsValidation := false, false;
    while ptr < |s|
      invariant begin <= ptr <= |s|
      invariant QuoteFrom(s, begin, false) == QuoteFrom(s, ptr, escape)
      invariant !needsValidation ==> !escape && forall k | begin <= k < ptr :: IsPlain(s[k]) && s[k] < 0x80
      decreases |s| - ptr
    {
      if !escape && s[ptr] == QUOTE {
        var body := s[begin..ptr];
        if !needsValidation {
          AsciiIsValid(body, 0);
        } else if begin < ptr {
          var valid := StringIsValid(body);
          if !valid {
            return false, ptr;
          }
        }
        return true, ptr;
      }
      if !escape && IsControl(s[ptr]) {
        return false, ptr;
      }
      if !escape && s[ptr] == BACKSLASH {
        needsValidation := true;
        escape := true;
      } else {
        if s[ptr] >= 0x80 {
          needsValidation := true;
        } else if !escape {
          var last := SkipPlainString(s, ptr);
          PlainBytesSkip(s, ptr, last + 1 - ptr);
          ptr := last;
        }
        escape := false;
      }
      ptr := ptr + 1;
    }
    return false, ptr;
  }
}
