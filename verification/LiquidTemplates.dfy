/** Templates as structure: what they print as, when printing is unambiguous, and what the
    rewriter should make of each part.  The scanner, which only sees the print, does just that. */
module LiquidTemplates {
  import opened Wrappers
  import opened LiquidText
  import opened LiquidScanners
  import opened LiquidRewrites

  datatype RawItem = RawText(text: string) | RawTag(body: string)

  datatype Kind = Comment | Liquid | Echoed

  datatype Segment =
    | Text(text: string)
    | OutputStatement(dashOpen: bool, inner: string, dashClose: bool)
    | Tag(body: string)
    | RawBlock(open: string, items: seq<RawItem>, close: string)
    | Special(kind: Kind, dashOpen: bool, gap: string, body: string, dashClose: bool)

  /* ---- Printing ---- */

  function Dash(dash: bool): string {
    if dash then "-" else ""
  }

  function Word(kind: Kind): string {
    match kind
    case Comment => "#"
    case Liquid => "liquid"
    case Echoed => "echo"
  }

  function PrintItem(item: RawItem): string {
    match item
    case RawText(text) => text
    case RawTag(body) => "{%" + (body + "%}")
  }

  function PrintItems(items: seq<RawItem>): string {
    if items == [] then "" else PrintItem(items[0]) + PrintItems(items[1..])
  }

  /** A special tag from just past its `{%`. */
  function SpecialInside(s: Segment): string
    requires s.Special?
  {
    Dash(s.dashOpen) + (s.gap + (Word(s.kind) + SpecialRest(s)))
  }

  function SpecialRest(s: Segment): string
    requires s.Special?
  {
    s.body + Dash(s.dashClose) + "%}"
  }

  function Print(s: Segment): string {
    match s
    case Text(text) => text
    case OutputStatement(dashOpen, inner, dashClose) => "{{" + (Dash(dashOpen) + (inner + Dash(dashClose) + "}}"))
    case Tag(body) => "{%" + (body + "%}")
    case RawBlock(open, items, close) => "{%" + (open + "%}" + (PrintItems(items) + ("{%" + (close + "%}"))))
    case Special(_, _, _, _, _) => "{%" + SpecialInside(s)
  }

  function PrintAll(segments: seq<Segment>): string {
    if segments == [] then "" else Print(segments[0]) + PrintAll(segments[1..])
  }

  /* ---- When the print can only be read one way ---- */

  /** No `{{` and no `{%` opens in the text. */
  predicate Plain(text: string) {
    forall i | 0 <= i < |text| - 1 && text[i] == '{' :: text[i + 1] != '{' && text[i + 1] != '%'
  }

  predicate EndsWith(text: string, c: char) {
    text != "" && text[|text| - 1] == c
  }

  predicate Closed(t: string, close: string) {
    ScanTo(t + close, close) == Some(|t|)
  }

  predicate RawItemOk(item: RawItem) {
    match item
    case RawText(text) => (forall i | 0 <= i < |text| - 1 && text[i] == '{' :: text[i + 1] != '%') && !EndsWith(text, '{')
    case RawTag(body) => Closed(body, "%}") && TagName(body) != "endraw"
  }

  predicate AllLiquidWhitespace(t: string) {
    forall c | c in t :: IsLiquidWhitespace(c)
  }

  /** The word ends where the body begins. */
  predicate WordEnds(after: string) {
    after == "" || !IsNameChar(after[0])
  }

  predicate SpecialOk(s: Segment)
    requires s.Special?
  {
    && AllLiquidWhitespace(s.gap)
    && (!s.dashClose ==> !EndsWith(s.body, '-'))
    && match s.kind
       case Comment => FindTagEnd(SpecialInside(s)) == Some(|SpecialInside(s)| - 2)
       case Liquid => WordEnds(s.body + Dash(s.dashClose)) && LiquidEndFrom(LineStart, SpecialRest(s)) == Some(|SpecialRest(s)| - 2)
       case Echoed => WordEnds(s.body + Dash(s.dashClose)) && ScanTo(SpecialRest(s), "%}") == Some(|SpecialRest(s)| - 2)
  }

  predicate SegmentOk(s: Segment) {
    match s
    case Text(text) => Plain(text)
    case OutputStatement(dashOpen, inner, dashClose) =>
      && (!dashOpen ==> !StartsWithDash(inner)) && (!dashClose ==> !EndsWith(inner, '-'))
      && TrimSpaces(inner) != "" && Closed(inner + Dash(dashClose), "}}")
    case Tag(body) =>
      Closed(body, "%}") && TagName(body) != "raw" && !Expandable(TagName(body)) && !IsInlineComment(body)
    case RawBlock(open, items, close) =>
      && TagName(open) == "raw" && Closed(open, "%}") && (forall item | item in items :: RawItemOk(item))
      && TagName(close) == "endraw" && Closed(close, "%}")
    case Special(_, _, _, _, _) => SpecialOk(s)
  }

  /** Text runs are whole, and none ends in a brace that what follows would extend. */
  predicate WellFormed(segments: seq<Segment>) {
    segments == [] ||
    (SegmentOk(segments[0]) && WellFormed(segments[1..]) &&
     (segments[0].Text? && |segments| > 1 ==> !segments[1].Text? && !EndsWith(segments[0].text, '{')))
  }

  /* ---- What the rewriter should make of it ---- */

  function SpecialText(kind: Kind, body: string): string {
    match kind
    case Comment => ""
    case Liquid => LinesText(body)
    case Echoed => EchoText(Trim(body))
  }

  /** White space a special tag's closing hyphen takes off what follows. */
  function TrimNext(dash: bool, segments: seq<Segment>): (r: seq<Segment>)
    ensures |r| == |segments|
  {
    if dash && segments != [] && segments[0].Text? then [Text(segments[0].text[Spaces(segments[0].text)..])] + segments[1..]
    else segments
  }

  /** `pending` is text copied but not out yet, which an opening hyphen may still trim. */
  function Transform(pending: string, segments: seq<Segment>): string
    decreases |segments|
  {
    if segments == [] then pending
    else
      match segments[0]
      case OutputStatement(dashOpen, inner, dashClose) =>
        pending + (OutputOpen(dashOpen) + TrimSpaces(inner) + OutputClose(dashClose)) + Transform("", segments[1..])
      case Special(kind, dashOpen, _, body, dashClose) =>
        TrimIf(dashOpen, pending) + SpecialText(kind, body) + Transform("", TrimNext(dashClose, segments[1..]))
      case _ => Transform(pending + Print(segments[0]), segments[1..])
  }

  /* ---- Scanners and what follows ---- */

  lemma {:induction false} ScanExtends(q: Quoting, t: string, rest: string, close: string)
    requires ScanFrom(q, t, close).Some?
    ensures ScanFrom(q, t + rest, close) == ScanFrom(q, t, close)
    decreases |t|
  {
    assert |t| >= |close| ==> (t + rest)[..|close|] == t[..|close|];
    if !(q.None? && Starts(t, close)) {
      assert (t + rest)[1..] == t[1..] + rest;
      var k := ScanFrom(AfterChar(q, t[0]), t[1..], close).value;
      assert |t| >= |close|;
      ScanExtends(AfterChar(q, t[0]), t[1..], rest, close);
    }
  }

  lemma {:induction false} LineExtends(l: Line, t: string, rest: string)
    requires LiquidEndFrom(l, t).Some?
    ensures LiquidEndFrom(l, t + rest) == LiquidEndFrom(l, t)
    decreases |t|
  {
    assert |t| >= 2 ==> (t + rest)[..2] == t[..2];
    if l.Literal? || !Starts(t, "%}") {
      assert (t + rest)[1..] == t[1..] + rest;
      var k := LiquidEndFrom(AfterLineChar(l, t[0]), t[1..]).value;
      LineExtends(AfterLineChar(l, t[0]), t[1..], rest);
    }
  }

  lemma {:induction false} TagEndExtends(t: string, rest: string)
    requires FindTagEnd(t).Some?
    ensures FindTagEnd(t + rest) == FindTagEnd(t)
    decreases |t|
  {
    if !(t[0] == '%' && t[1] == '}') {
      assert (t + rest)[1..] == t[1..] + rest;
      TagEndExtends(t[1..], rest);
    }
  }

  lemma {:induction false} SpacesStop(t: string, rest: string)
    requires rest == "" || !IsLiquidWhitespace(rest[0])
    ensures Spaces(t + rest) == Spaces(t)
    decreases |t|
  {
    if t == "" {
      assert t + rest == rest;
    } else {
      assert (t + rest)[1..] == t[1..] + rest;
      SpacesStop(t[1..], rest);
    }
  }

  lemma {:induction false} AllSpaces(t: string)
    requires AllLiquidWhitespace(t)
    ensures Spaces(t) == |t|
  {
    if t != "" {
      AllSpaces(t[1..]);
    }
  }

  lemma {:induction false} NameStops(t: string, rest: string)
    requires rest == "" || !IsNameChar(rest[0])
    ensures NameLength(t + rest) == NameLength(t)
    decreases |t|
  {
    if t == "" {
      assert t + rest == rest;
    } else {
      assert (t + rest)[1..] == t[1..] + rest;
      NameStops(t[1..], rest);
    }
  }

  /** A tag's head does not depend on what follows its close. */
  lemma HeadStops(body: string, rest: string)
    requires rest != "" && rest[0] == '%'
    ensures BodySkip(body + rest) == BodySkip(body) && TagName(body + rest) == TagName(body)
    ensures IsInlineComment(body + rest) == IsInlineComment(body)
  {
    hide Spaces, NameLength;
    var b := body + rest;
    if body == "" {
      assert b == rest;
      SpacesStop("", rest);
    } else if body[0] == '-' {
      assert b[1..] == body[1..] + rest;
      SpacesStop(body[1..], rest);
    } else {
      SpacesStop(body, rest);
    }
    var k := BodySkip(body);
    assert b[k..] == body[k..] + rest;
    NameStops(body[k..], rest);
    assert b[k..][..NameLength(body[k..])] == body[k..][..NameLength(body[k..])];
  }

  /** What follows the indentation of a tag's head. */
  lemma HeadSkips(dash: bool, gap: string, tail: string)
    requires AllLiquidWhitespace(gap) && tail != "" && !IsLiquidWhitespace(tail[0]) && tail[0] != '-'
    ensures BodySkip(Dash(dash) + (gap + tail)) == |Dash(dash)| + |gap|
    ensures (Dash(dash) + (gap + tail))[|Dash(dash)| + |gap|..] == tail
    ensures StartsWithDash(Dash(dash) + (gap + tail)) == dash
  {
    hide Spaces;
    var b := Dash(dash) + (gap + tail);
    AllSpaces(gap);
    SpacesStop(gap, tail);
    if dash {
      assert b[1..] == gap + tail;
    } else {
      assert b == gap + tail;
      assert b[0] != '-' by {
        if gap != "" {
          assert gap[0] in gap;
        }
      }
    }
  }
}
