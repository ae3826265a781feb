/** Text as the liquid rewriter reads it: a string whose characters stand for the bytes of a
    UTF-8 source, and the scanners it runs over what is left of that source. */
module LiquidText {
  import opened Wrappers

  /* ---- Whitespace ---- */

  /** Space and newline in liquid's grammar; a tab is neither. */
  predicate IsLiquidWhitespace(c: char) {
    c == ' ' || c == '\n' || c == '\r'
  }

  function Spaces(t: string): (n: nat)
    ensures n <= |t|
    ensures forall i | 0 <= i < n :: IsLiquidWhitespace(t[i])
    ensures n < |t| ==> !IsLiquidWhitespace(t[n])
  {
    if t != "" && IsLiquidWhitespace(t[0]) then 1 + Spaces(t[1..]) else 0
  }

  function TrimEndSpaces(t: string): (r: string)
    ensures |r| <= |t| && r == t[..|r|]
    ensures r != "" ==> !IsLiquidWhitespace(r[|r| - 1])
    ensures forall i | |r| <= i < |t| :: IsLiquidWhitespace(t[i])
  {
    if t != "" && IsLiquidWhitespace(t[|t| - 1]) then TrimEndSpaces(t[..|t| - 1]) else t
  }

  function TrimSpaces(t: string): string {
    TrimEndSpaces(t[Spaces(t)..])
  }

  predicate IsAsciiWhitespace(c: char) {
    c == ' ' || c == '\t' || c == '\n' || c == '\r' || c == '\U{C}'
  }

  /** The encodings of the other characters Unicode counts as white space. */
  function WideSpaces(): seq<string> {
    ["\U{B}", "\U{C2}\U{85}", "\U{C2}\U{A0}", "\U{E1}\U{9A}\U{80}",
     "\U{E2}\U{80}\U{80}", "\U{E2}\U{80}\U{81}", "\U{E2}\U{80}\U{82}", "\U{E2}\U{80}\U{83}",
     "\U{E2}\U{80}\U{84}", "\U{E2}\U{80}\U{85}", "\U{E2}\U{80}\U{86}", "\U{E2}\U{80}\U{87}",
     "\U{E2}\U{80}\U{88}", "\U{E2}\U{80}\U{89}", "\U{E2}\U{80}\U{8A}", "\U{E2}\U{80}\U{A8}",
     "\U{E2}\U{80}\U{A9}", "\U{E2}\U{80}\U{AF}", "\U{E2}\U{81}\U{9F}", "\U{E3}\U{80}\U{80}"]
  }

  predicate IsSpace(w: string) {
    (|w| == 1 && IsAsciiWhitespace(w[0])) || w in WideSpaces()
  }

  /** How many bytes of white space a text starts with, one character's worth, or none. */
  function SpaceAtStart(t: string): (n: nat)
    ensures n <= |t| && n <= 3
    ensures n > 0 ==> IsSpace(t[..n])
  {
    if |t| >= 1 && IsSpace(t[..1]) then 1
    else if |t| >= 2 && IsSpace(t[..2]) then 2
    else if |t| >= 3 && IsSpace(t[..3]) then 3
    else 0
  }

  function SpaceAtEnd(t: string): (n: nat)
    ensures n <= |t| && n <= 3
    ensures n > 0 ==> IsSpace(t[|t| - n..])
  {
    if |t| >= 1 && IsSpace(t[|t| - 1..]) then 1
    else if |t| >= 2 && IsSpace(t[|t| - 2..]) then 2
    else if |t| >= 3 && IsSpace(t[|t| - 3..]) then 3
    else 0
  }

  /** Where `trim` starts. */
  function LeadingWhitespace(t: string): (n: nat)
    ensures n <= |t|
    decreases |t|
  {
    var n := SpaceAtStart(t);
    if n == 0 then 0 else n + LeadingWhitespace(t[n..])
  }

  function TrimEnd(t: string): (r: string)
    ensures |r| <= |t| && r == t[..|r|] && SpaceAtEnd(r) == 0
    decreases |t|
  {
    var n := SpaceAtEnd(t);
    if n == 0 then t else TrimEnd(t[..|t| - n])
  }

  function Trim(t: string): (r: string)
    ensures LeadingWhitespace(t) + |r| <= |t|
    ensures r == t[LeadingWhitespace(t)..LeadingWhitespace(t) + |r|] && SpaceAtEnd(r) == 0
  {
    hide IsSpace;
    hide SpaceAtStart;
    hide SpaceAtEnd;
    TrimEnd(t[LeadingWhitespace(t)..])
  }

  lemma SameEnd(t: string, k: nat, n: nat)
    requires n <= |t| - k
    ensures t[k..][|t| - k - n..] == t[|t| - n..]
  {
  }

  /** A suffix of a text whose end is trimmed has a trimmed end. */
  lemma TrimmedSuffix(t: string, k: nat)
    requires k <= |t| && SpaceAtEnd(t) == 0
    ensures TrimEnd(t[k..]) == t[k..]
  {
    hide IsSpace, SpaceAtEnd;
    SuffixEnd(t, t[k..]);
  }

  lemma SuffixEnd(t: string, s: string)
    requires |s| <= |t| && s == t[|t| - |s|..] && SpaceAtEnd(t) == 0
    ensures SpaceAtEnd(s) == 0
  {
    var n := SpaceAtEnd(s);
    hide IsSpace, SpaceAtEnd;
    if n > 0 {
      SameEnd(t, |t| - |s|, n);
      NoSpaceAtEnd(t, n);
    }
  }

  lemma NoSpaceAtEnd(t: string, n: nat)
    requires 1 <= n <= 3 && n <= |t| && SpaceAtEnd(t) == 0
    ensures !IsSpace(t[|t| - n..])
  {
    hide IsSpace;
  }

  /* ---- String literals ---- */

  predicate IsQuote(c: char) {
    c == '\'' || c == '"'
  }

  /** Outside a string literal, or inside the one this quote opened.  There are no escapes. */
  type Quoting = Option<char>

  function AfterChar(q: Quoting, c: char): Quoting {
    match q
    case Some(quote) => if c == quote then None else q
    case None => if IsQuote(c) then Some(c) else None
  }

  function AfterText(q: Quoting, t: string): Quoting
    decreases |t|
  {
    if t == "" then q else AfterText(AfterChar(q, t[0]), t[1..])
  }

  predicate Starts(t: string, close: string) {
    |close| <= |t| && t[..|close|] == close
  }

  /** Where a delimiter first stands outside every string literal. */
  function ScanFrom(q: Quoting, t: string, close: string): (at: Option<nat>)
    ensures at.Some? ==> at.value + |close| <= |t| && t[at.value..at.value + |close|] == close
    decreases |t|
  {
    if t == "" then None
    else if q.None? && Starts(t, close) then Some(0)
    else
      match ScanFrom(AfterChar(q, t[0]), t[1..], close)
      case Some(k) => Some(k + 1)
      case None => None
  }

  function ScanTo(t: string, close: string): (at: Option<nat>)
    ensures at.Some? ==> at.value + |close| <= |t| && t[at.value..at.value + |close|] == close
  {
    ScanFrom(None, t, close)
  }

  /** A delimiter stands at this offset, outside every string literal. */
  ghost predicate ClosesAt(q: Quoting, t: string, close: string, k: nat) {
    k < |t| && Starts(t[k..], close) && AfterText(q, t[..k]).None?
  }

  lemma {:induction false} AfterTextConcat(q: Quoting, a: string, b: string)
    ensures AfterText(q, a + b) == AfterText(AfterText(q, a), b)
    decreases |a|
  {
    if a == "" {
      assert a + b == b;
    } else {
      assert (a + b)[1..] == a[1..] + b;
      AfterTextConcat(AfterChar(q, a[0]), a[1..], b);
    }
  }

  lemma ClosesLater(q: Quoting, t: string, close: string, k: nat)
    requires t != ""
    ensures ClosesAt(q, t, close, k + 1) <==> ClosesAt(AfterChar(q, t[0]), t[1..], close, k)
  {
    if k + 1 <= |t| {
      assert t[k + 1..] == t[1..][k..];
      assert t[..k + 1][1..] == t[1..][..k];
    }
  }

  lemma {:induction false} ScanStopsInTime(q: Quoting, t: string, close: string, k: nat)
    requires close != "" && ClosesAt(q, t, close, k)
    ensures ScanFrom(q, t, close).Some? && ScanFrom(q, t, close).value <= k
    decreases |t|
  {
    if k > 0 {
      ClosesLater(q, t, close, k - 1);
      if !(q.None? && Starts(t, close)) {
        ScanStopsInTime(AfterChar(q, t[0]), t[1..], close, k - 1);
      }
    } else {
      assert t[0..] == t && t[..0] == "";
    }
  }

  lemma {:induction false} ScanStopsOutside(q: Quoting, t: string, close: string)
    requires close != "" && ScanFrom(q, t, close).Some?
    ensures ClosesAt(q, t, close, ScanFrom(q, t, close).value)
    decreases |t|
  {
    if q.None? && Starts(t, close) {
      assert t[0..] == t && t[..0] == "";
    } else {
      ScanStopsOutside(AfterChar(q, t[0]), t[1..], close);
      ClosesLater(q, t, close, ScanFrom(q, t, close).value - 1);
    }
  }

  /** The scan finds the first such offset, and fails just when there is none. */
  lemma ScanFindsFirst(t: string, close: string)
    requires close != ""
    ensures ScanTo(t, close).Some? ==> ClosesAt(None, t, close, ScanTo(t, close).value)
    ensures forall k: nat :: ClosesAt(None, t, close, k) ==> ScanTo(t, close).Some? && ScanTo(t, close).value <= k
  {
    if ScanTo(t, close).Some? {
      ScanStopsOutside(None, t, close);
    }
    forall k: nat | ClosesAt(None, t, close, k)
      ensures ScanTo(t, close).Some? && ScanTo(t, close).value <= k
    {
      ScanStopsInTime(None, t, close, k);
    }
  }
}
