/** The rewriter's scanners: what each finds, as a function of the text left to read, and the
    loop over byte offsets that finds it. */
module LiquidScanners {
  import opened Wrappers
  import opened LiquidText

  function Shift(at: Option<nat>, offset: nat): Option<nat> {
    match at
    case Some(k) => Some(offset + k)
    case None => None
  }

  /* ---- Inside a tag, just past its `{%` ---- */

  function BodySkip(b: string): (n: nat)
    ensures n <= |b|
  {
    if b != "" && b[0] == '-' then 1 + Spaces(b[1..]) else Spaces(b)
  }

  predicate IsNameChar(c: char) {
    'a' <= c <= 'z' || 'A' <= c <= 'Z' || '0' <= c <= '9' || c == '_' || c == '-'
  }

  function NameLength(t: string): (n: nat)
    ensures n <= |t|
    ensures forall i | 0 <= i < n :: IsNameChar(t[i])
    ensures n < |t| ==> !IsNameChar(t[n])
  {
    if t != "" && IsNameChar(t[0]) then 1 + NameLength(t[1..]) else 0
  }

  /** A name may end in the hyphen of the tag's close. */
  function TagName(b: string): (name: string)
    ensures BodySkip(b) + |name| <= |b|
  {
    var t := b[BodySkip(b)..];
    t[..NameLength(t)]
  }

  predicate IsInlineComment(b: string) {
    BodySkip(b) < |b| && b[BodySkip(b)] == '#'
  }

  /** The first `%}`, quoted or not. */
  function FindTagEnd(b: string): (at: Option<nat>)
    ensures at.Some? ==> at.value + 2 <= |b| && b[at.value] == '%' && b[at.value + 1] == '}'
  {
    if |b| < 2 then None
    else if b[0] == '%' && b[1] == '}' then Some(0)
    else Shift(FindTagEnd(b[1..]), 1)
  }

  lemma {:induction false} TagEndIsFirst(b: string)
    ensures forall j | 0 <= j < |b| - 1 && b[j] == '%' && b[j + 1] == '}' :: FindTagEnd(b).Some? && FindTagEnd(b).value <= j
    decreases |b|
  {
    if |b| >= 2 && !(b[0] == '%' && b[1] == '}') {
      TagEndIsFirst(b[1..]);
      forall j | 0 <= j < |b| - 1 && b[j] == '%' && b[j + 1] == '}'
        ensures FindTagEnd(b).Some? && FindTagEnd(b).value <= j
      {
        assert b[1..][j - 1] == '%' && b[1..][j] == '}';
      }
    }
  }

  /* ---- `{% liquid %}` bodies, a statement a line ---- */

  /** A line that opens with `#` is a comment, where quotes open nothing. */
  datatype Line = LineStart | Statement | Literal(quote: char) | CommentLine

  function AfterLineChar(l: Line, c: char): Line {
    match l
    case Literal(quote) => if c == quote then Statement else l
    case CommentLine => if c == '\n' then LineStart else CommentLine
    case _ =>
      if c == '\n' then LineStart
      else if IsQuote(c) then Literal(c)
      else if l.LineStart? && (c == ' ' || c == '\t' || c == '\r') then LineStart
      else if l.LineStart? && c == '#' then CommentLine
      else Statement
  }

  function LiquidEndFrom(l: Line, t: string): (at: Option<nat>)
    ensures at.Some? ==> at.value + 2 <= |t| && t[at.value..at.value + 2] == "%}"
    decreases |t|
  {
    if t == "" then None
    else if !l.Literal? && Starts(t, "%}") then Some(0)
    else Shift(LiquidEndFrom(AfterLineChar(l, t[0]), t[1..]), 1)
  }

  /* ---- Raw blocks ---- */

  /** How far the matching `endraw` reaches, or all of the text if there is none. */
  function RawTail(t: string): (n: nat)
    ensures n <= |t|
    decreases |t|
  {
    if |t| < 2 then |t|
    else if t[..2] != "{%" then 1 + RawTail(t[1..])
    else
      match ScanTo(t[2..], "%}")
      case None => 2 + RawTail(t[2..])
      case Some(k) =>
        if TagName(t[2..]) == "endraw" then k + 4 else k + 4 + RawTail(t[k + 4..])
  }

  function RawSkip(b: string): (n: nat)
    ensures n <= |b|
  {
    match ScanTo(b, "%}")
    case Some(k) => k + 2 + RawTail(b[k + 2..])
    case None => RawTail(b)
  }

  /* ---- The same from an offset on, and how each moves along by one ---- */

  function ScanAt(q: Quoting, bytes: string, i: nat, close: string): Option<nat>
    requires i <= |bytes|
  {
    Shift(ScanFrom(q, bytes[i..], close), i)
  }

  lemma ScanAtNext(q: Quoting, bytes: string, i: nat, close: string)
    requires i <= |bytes| && |close| == 2
    ensures i == |bytes| ==> ScanAt(q, bytes, i, close).None?
    ensures i < |bytes| ==> 
      ScanAt(q, bytes, i, close) == (
        if q.None? && i + 1 < |bytes| && bytes[i] == close[0] && bytes[i + 1] == close[1] then Some(i)
        else ScanAt(AfterChar(q, bytes[i]), bytes, i + 1, close))
  {
    if i < |bytes| {
      var t := bytes[i..];
      assert t[1..] == bytes[i + 1..];
      assert |t| >= 2 ==> t[..2] == [t[0], t[1]];
      assert close == [close[0], close[1]];
    }
  }

  function LineAt(l: Line, bytes: string, i: nat): Option<nat>
    requires i <= |bytes|
  {
    Shift(LiquidEndFrom(l, bytes[i..]), i)
  }

  lemma LineAtNext(l: Line, bytes: string, i: nat)
    requires i <= |bytes|
    ensures i == |bytes| ==> LineAt(l, bytes, i).None?
    ensures i < |bytes| ==>
      LineAt(l, bytes, i) == (
        if !l.Literal? && i + 1 < |bytes| && bytes[i] == '%' && bytes[i + 1] == '}' then Some(i)
        else LineAt(AfterLineChar(l, bytes[i]), bytes, i + 1))
  {
    if i < |bytes| {
      var t := bytes[i..];
      assert t[1..] == bytes[i + 1..];
      assert |t| >= 2 ==> t[..2] == [t[0], t[1]];
    }
  }

  function RawAt(bytes: string, i: nat): nat
    requires i <= |bytes|
  {
    i + RawTail(bytes[i..])
  }

  function RawAfterTag(bytes: string, from: nat): nat
    requires from <= |bytes|
  {
    match ScanAt(None, bytes, from, "%}")
    case None => RawAt(bytes, from)
    case Some(k) => if TagName(bytes[from..]) == "endraw" then k + 2 else RawAt(bytes, k + 2)
  }

  lemma RawAtNext(bytes: string, i: nat)
    requires i + 1 < |bytes|
    ensures !(bytes[i] == '{' && bytes[i + 1] == '%') ==> RawAt(bytes, i) == RawAt(bytes, i + 1)
    ensures bytes[i] == '{' && bytes[i + 1] == '%' ==>
      RawAt(bytes, i) == RawAfterTag(bytes, i + 2)
  {
    hide TagName, ScanFrom;
    var t := bytes[i..];
    assert t[..2] == [t[0], t[1]] && t[1..] == bytes[i + 1..] && t[2..] == bytes[i + 2..];
    var k := ScanTo(t[2..], "%}");
    assert k.Some? ==> t[k.value + 4..] == bytes[i + 2 + k.value + 2..];
  }

  /* ---- The same, by loops over offsets ---- */

  /** Skips the rest of a string literal, its closing quote included. */
  method SkipLiteral(bytes: string, from: nat, quote: char, close: string) returns (at: Option<nat>)
    requires from <= |bytes| && |close| == 2
    ensures at.Some? ==> from < at.value <= |bytes|
    ensures at.Some? ==> ScanAt(Some(quote), bytes, from, close) == ScanAt(None, bytes, at.value, close)
    ensures at.Some? ==> LineAt(Literal(quote), bytes, from) == LineAt(Statement, bytes, at.value)
    ensures at.None? ==> ScanAt(Some(quote), bytes, from, close).None? && LineAt(Literal(quote), bytes, from).None?
  {
    hide ScanAt, LineAt;
    var i := from;
    while i < |bytes| && bytes[i] != quote
      invariant from <= i <= |bytes|
      invariant ScanAt(Some(quote), bytes, i, close) == ScanAt(Some(quote), bytes, from, close)
      invariant LineAt(Literal(quote), bytes, i) == LineAt(Literal(quote), bytes, from)
    {
      ScanAtNext(Some(quote), bytes, i, close);
      LineAtNext(Literal(quote), bytes, i);
      i := i + 1;
    }
    ScanAtNext(Some(quote), bytes, i, close);
    LineAtNext(Literal(quote), bytes, i);
    at := if i < |bytes| then Some(i + 1) else None;
  }

  method ScanToAt(bytes: string, from: nat, close: string) returns (at: Option<nat>)
    requires from <= |bytes| && |close| == 2 && !IsQuote(close[0])
    ensures at == ScanAt(None, bytes, from, close)
  {
    hide ScanAt, LineAt;
    var i := from;
    while i < |bytes|
      invariant from <= i <= |bytes|
      invariant ScanAt(None, bytes, i, close) == ScanAt(None, bytes, from, close)
    {
      ScanAtNext(None, bytes, i, close);
      if IsQuote(bytes[i]) {
        var past := SkipLiteral(bytes, i + 1, bytes[i], close);
        if past.None? {
          return None;
        }
        i := past.value;
      } else if bytes[i] == close[0] && i + 1 < |bytes| && bytes[i + 1] == close[1] {
        return Some(i);
      } else {
        i := i + 1;
      }
    }
    ScanAtNext(None, bytes, i, close);
    at := None;
  }

  method TagBodyStart(bytes: string, from: nat) returns (at: nat)
    requires from <= |bytes|
    ensures at == from + BodySkip(bytes[from..])
  {
    at := from;
    if at < |bytes| && bytes[at] == '-' {
      at := at + 1;
      assert bytes[from..][1..] == bytes[at..];
    }
    while at < |bytes| && IsLiquidWhitespace(bytes[at])
      invariant from <= at <= |bytes|
      invariant at + Spaces(bytes[at..]) == from + BodySkip(bytes[from..])
    {
      assert bytes[at..][1..] == bytes[at + 1..];
      at := at + 1;
    }
  }

  method NameEnd(bytes: string, start: nat) returns (i: nat)
    requires start <= |bytes|
    ensures i == start + NameLength(bytes[start..])
  {
    i := start;
    while i < |bytes| && IsNameChar(bytes[i])
      invariant start <= i <= |bytes|
      invariant i + NameLength(bytes[i..]) == start + NameLength(bytes[start..])
    {
      assert bytes[i..][1..] == bytes[i + 1..];
      i := i + 1;
    }
  }

  method ReadTagName(bytes: string, from: nat) returns (name: string)
    requires from <= |bytes|
    ensures name == TagName(bytes[from..])
  {
    hide BodySkip, NameLength;
    var start := TagBodyStart(bytes, from);
    var end := NameEnd(bytes, start);
    assert bytes[from..][start - from..] == bytes[start..];
    assert bytes[start..][..end - start] == bytes[start..end];
    name := bytes[start..end];
  }

  lemma FindTagEndNext(bytes: string, i: nat)
    requires i + 1 < |bytes| && !(bytes[i] == '%' && bytes[i + 1] == '}')
    ensures Shift(FindTagEnd(bytes[i..]), i) == Shift(FindTagEnd(bytes[i + 1..]), i + 1)
  {
    var b := bytes[i..];
    assert b[0] == bytes[i] && b[1] == bytes[i + 1] && b[1..] == bytes[i + 1..];
    assert FindTagEnd(b) == Shift(FindTagEnd(b[1..]), 1);
  }

  lemma FindTagEndHere(bytes: string, i: nat)
    requires i <= |bytes| && (i + 1 < |bytes| ==> bytes[i] == '%' && bytes[i + 1] == '}')
    ensures FindTagEnd(bytes[i..]) == if i + 1 < |bytes| then Some(0) else None
  {
    var b := bytes[i..];
    assert |b| >= 2 ==> b[0] == bytes[i] && b[1] == bytes[i + 1];
  }

  method FindTagEndAt(bytes: string, from: nat) returns (at: Option<nat>)
    requires from <= |bytes|
    ensures at == Shift(FindTagEnd(bytes[from..]), from)
  {
    hide FindTagEnd;
    var i := from;
    while i + 1 < |bytes| && !(bytes[i] == '%' && bytes[i + 1] == '}')
      invariant from <= i <= |bytes|
      invariant Shift(FindTagEnd(bytes[i..]), i) == Shift(FindTagEnd(bytes[from..]), from)
    {
      FindTagEndNext(bytes, i);
      i := i + 1;
    }
    FindTagEndHere(bytes, i);
    at := if i + 1 < |bytes| then Some(i) else None;
  }

  /** One line from its first character that is not indentation: the close it holds, or the
      offset of the next line. */
  method ScanLine(bytes: string, from: nat) returns (found: Option<nat>, next: nat)
    requires from < |bytes| && !(bytes[from] == ' ' || bytes[from] == '\t' || bytes[from] == '\r')
    ensures from < next <= |bytes|
    ensures found.Some? ==> LineAt(LineStart, bytes, from) == found
    ensures found.None? ==> LineAt(LineStart, bytes, from) == LineAt(LineStart, bytes, next)
  {
    hide ScanAt, LineAt;
    LineAtNext(LineStart, bytes, |bytes|);
    var comment := bytes[from] == '#';
    var i := from;
    while i < |bytes|
      invariant from <= i <= |bytes|
      invariant LineAt(LineStart, bytes, from) == LineAt(OnLine(from, i, comment), bytes, i)
    {
      LineAtNext(OnLine(from, i, comment), bytes, i);
      if bytes[i] == '\n' {
        return None, i + 1;
      } else if IsQuote(bytes[i]) && !comment {
        var past := SkipLiteral(bytes, i + 1, bytes[i], "%}");
        if past.None? {
          return None, |bytes|;
        }
        i := past.value;
      } else if bytes[i] == '%' && i + 1 < |bytes| && bytes[i + 1] == '}' {
        return Some(i), |bytes|;
      } else {
        i := i + 1;
      }
    }
    LineAtNext(OnLine(from, i, comment), bytes, i);
    return None, |bytes|;
  }

  function OnLine(from: nat, i: nat, comment: bool): Line {
    if i == from then LineStart else if comment then CommentLine else Statement
  }

  method FindLiquidTagEnd(bytes: string, from: nat) returns (at: Option<nat>)
    requires from <= |bytes|
    ensures at == LineAt(LineStart, bytes, from)
  {
    hide LineAt;
    var i := from;
    while i < |bytes|
      invariant from <= i <= |bytes|
      invariant LineAt(LineStart, bytes, i) == LineAt(LineStart, bytes, from)
      decreases |bytes| - i
    {
      ghost var line := i;
      while i < |bytes| && (bytes[i] == ' ' || bytes[i] == '\t' || bytes[i] == '\r')
        invariant line <= i <= |bytes|
        invariant LineAt(LineStart, bytes, i) == LineAt(LineStart, bytes, from)
      {
        LineAtNext(LineStart, bytes, i);
        i := i + 1;
      }
      if i < |bytes| {
        var found, next := ScanLine(bytes, i);
        if found.Some? {
          return found;
        }
        i := next;
      }
    }
    LineAtNext(LineStart, bytes, i);
    at := None;
  }

  method SkipRawBlock(bytes: string, from: nat) returns (at: nat)
    requires from <= |bytes|
    ensures at == from + RawSkip(bytes[from..])
  {
    var open := ScanToAt(bytes, from, "%}");
    var i := if open.Some? then open.value + 2 else from;
    assert bytes[from..][i - from..] == bytes[i..];
    at := SkipToEndRaw(bytes, i);
  }

  method SkipToEndRaw(bytes: string, from: nat) returns (at: nat)
    requires from <= |bytes|
    ensures at == RawAt(bytes, from)
  {
    hide RawAt, ScanAt, TagName;
    var i := from;
    while i + 1 < |bytes|
      invariant from <= i <= |bytes|
      invariant RawAt(bytes, i) == RawAt(bytes, from)
      decreases |bytes| - i
    {
      RawAtNext(bytes, i);
      if bytes[i] != '{' || bytes[i + 1] != '%' {
        i := i + 1;
      } else {
        var name := ReadTagName(bytes, i + 2);
        var close := ScanToAt(bytes, i + 2, "%}");
        CloseInRange(bytes, i + 2, "%}");
        match close {
          case Some(k) =>
            if name == "endraw" {
              return k + 2;
            }
            i := k + 2;
          case None =>
            i := i + 2;
        }
      }
    }
    RawAtEnd(bytes, i);
    at := |bytes|;
  }

  lemma CloseInRange(bytes: string, from: nat, close: string)
    requires from <= |bytes|
    ensures ScanAt(None, bytes, from, close).Some? ==> from <= ScanAt(None, bytes, from, close).value <= |bytes| - |close|
  {
  }

  lemma RawAtEnd(bytes: string, i: nat)
    requires i <= |bytes| <= i + 1
    ensures RawAt(bytes, i) == |bytes|
  {
  }
}
