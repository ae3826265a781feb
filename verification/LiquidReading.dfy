/** The scanner reads a well-formed template's print as the structure it was printed from. */
module LiquidReadings {
  import opened Wrappers
  import opened LiquidText
  import opened LiquidScanners
  import opened LiquidRewrites
  import opened LiquidTemplates

  lemma StepOfTag(b: string)
    ensures Step("{%" + b) == AtTag(b)
  {
    hide AtTag, AtOutput;
    assert ("{%" + b)[2..] == b;
  }

  lemma StepOfOutput(b: string)
    ensures Step("{{" + b) == AtOutput(b)
  {
    hide AtTag, AtOutput;
    assert ("{{" + b)[2..] == b;
  }

  lemma ClosedBefore(t: string, close: string, rest: string)
    requires Closed(t, close)
    ensures ScanTo(t + close + rest, close) == Some(|t|)
  {
    ScanExtends(None, t + close, rest, close);
  }

  lemma ReadsTag(body: string, rest: string)
    requires SegmentOk(Tag(body))
    ensures Step(Print(Tag(body)) + rest) == Verbatim(|Print(Tag(body))|)
  {
    hide TagName, ScanTo, AtTag, Step, IsInlineComment;
    var b := body + ("%}" + rest);
    TagLayout("{%", body, "%}", rest);
    StepOfTag(b);
    ClosedBefore(body, "%}", rest);
    HeadStops(body, "%}" + rest);
    AtPlainTag(b, |body|);
  }

  lemma TagLayout(open: string, body: string, close: string, rest: string)
    ensures open + (body + close) + rest == open + (body + (close + rest))
    ensures body + close + rest == body + (close + rest)
  {
  }

  lemma AtPlainTag(b: string, close: nat)
    requires ScanTo(b, "%}") == Some(close) && TagName(b) != "raw" && !Expandable(TagName(b)) && !IsInlineComment(b)
    ensures AtTag(b) == Verbatim(close + 4)
  {
    hide TagName, ScanTo, RawSkip, CloseOf, TagBody, IsInlineComment;
  }

  /** Slices of a text put together from parts. */
  lemma Parts(open: string, inner: string, close: string, rest: string)
    ensures (open + (inner + close + rest))[|open|..] == inner + close + rest
    ensures (open + (inner + close + rest))[|open|..|open| + |inner|] == inner
    ensures inner + close != "" ==> (inner + close + rest)[|inner + close| - 1] == if close != "" then close[|close| - 1] else inner[|inner| - 1]
    ensures inner != "" ==> (inner + close + rest)[0] == inner[0]
  {
  }

  lemma ReadsOutput(dashOpen: bool, inner: string, dashClose: bool, rest: string)
    requires SegmentOk(OutputStatement(dashOpen, inner, dashClose))
    ensures Step(Print(OutputStatement(dashOpen, inner, dashClose)) + rest) ==
            Replace(|Print(OutputStatement(dashOpen, inner, dashClose))|, false, Output(dashOpen, |Dash(dashOpen)| + Spaces(inner), TrimSpaces(inner), dashClose))
  {
    hide ScanTo, Spaces, TrimSpaces, AtOutput, Step, Dash, Print;
    var whole := inner + Dash(dashClose);
    var b := Dash(dashOpen) + (whole + ("}}" + rest));
    OutputPrinted(dashOpen, inner, dashClose, rest);
    TagLayout("", whole, "}}", rest);
    StepOfOutput(b);
    ClosedBefore(whole, "}}", rest);
    TrimmedIsNot(inner);
    AtPlainOutput(dashOpen, inner, dashClose, "}}" + rest);
  }

  lemma OutputPrinted(dashOpen: bool, inner: string, dashClose: bool, rest: string)
    ensures var whole := inner + Dash(dashClose);
      var s := OutputStatement(dashOpen, inner, dashClose);
      && Print(s) + rest == "{{" + (Dash(dashOpen) + (whole + ("}}" + rest)))
      && |Print(s)| == |Dash(dashOpen)| + |whole| + 4
  {
    hide Dash;
    var whole := inner + Dash(dashClose);
    assert whole + "}}" + rest == whole + ("}}" + rest);
    assert Dash(dashOpen) + (whole + "}}") + rest == Dash(dashOpen) + (whole + "}}" + rest);
  }

  lemma AtPlainOutput(dashOpen: bool, inner: string, dashClose: bool, rest: string)
    requires inner != "" && TrimSpaces(inner) != ""
    requires (!dashOpen ==> !StartsWithDash(inner)) && (!dashClose ==> !EndsWith(inner, '-'))
    requires ScanTo(inner + Dash(dashClose) + rest, "}}") == Some(|inner + Dash(dashClose)|)
    ensures AtOutput(Dash(dashOpen) + (inner + Dash(dashClose) + rest)) ==
            Replace(|Dash(dashOpen)| + |inner + Dash(dashClose)| + 4, false, Output(dashOpen, |Dash(dashOpen)| + Spaces(inner), TrimSpaces(inner), dashClose))
  {
    hide ScanTo, Spaces, TrimSpaces, Dash, InPlace, AtOutput;
    var b := Dash(dashOpen) + (inner + Dash(dashClose) + rest);
    Parts(Dash(dashOpen), inner, Dash(dashClose), rest);
    DashIs(dashOpen);
    DashIs(dashClose);
    assert StartsWithDash(b) == dashOpen;
    assert DashBefore(b[|Dash(dashOpen)|..], |inner + Dash(dashClose)|) == dashClose;
    OutputAt(b, |inner + Dash(dashClose)|);
  }

  lemma OutputAt(b: string, k: nat)
    requires var start := if StartsWithDash(b) then 1 else 0; k <= |b| - start && ScanTo(b[start..], "}}") == Some(k)
    requires var start := if StartsWithDash(b) then 1 else 0;
      TrimSpaces(b[start..start + if DashBefore(b[start..], k) then k - 1 else k]) != ""
    ensures var start := if StartsWithDash(b) then 1 else 0;
      var dash := DashBefore(b[start..], k);
      var raw := b[start..start + if dash then k - 1 else k];
      AtOutput(b) == Replace(start + k + 4, false, Output(StartsWithDash(b), start + Spaces(raw), TrimSpaces(raw), dash))
  {
    hide ScanTo, Spaces, TrimSpaces, InPlace;
  }

  lemma DashIs(dash: bool)
    ensures |Dash(dash)| == (if dash then 1 else 0) && (dash ==> Dash(dash)[0] == '-')
  {
  }

  lemma TrimmedIsNot(inner: string)
    requires TrimSpaces(inner) != ""
    ensures inner != ""
  {
  }

  /* ---- Raw blocks ---- */

  lemma {:induction false} RawTextSkipped(text: string, rest: string)
    requires forall i | 0 <= i < |text| - 1 && text[i] == '{' :: text[i + 1] != '%'
    requires !EndsWith(text, '{') && |rest| >= 2
    ensures RawTail(text + rest) == |text| + RawTail(rest)
    decreases |text|
  {
    var t := text + rest;
    if text == "" {
      assert t == rest;
    } else {
      assert t[1..] == text[1..] + rest;
      assert t[0] == text[0] && (|text| > 1 ==> t[1] == text[1]);
      assert t[..2] != "{%";
      RawTextSkipped(text[1..], rest);
    }
  }

  lemma RawTailAtTag(b: string, close: nat)
    requires ScanTo(b, "%}") == Some(close)
    ensures RawTail("{%" + b) == close + 4 + if TagName(b) == "endraw" then 0 else RawTail(b[close + 2..])
  {
    hide TagName, ScanTo;
    var t := "{%" + b;
    assert t[2..] == b && t[..2] == "{%" && t[close + 4..] == b[close + 2..];
  }

  lemma RawTagSkipped(body: string, rest: string)
    requires Closed(body, "%}")
    ensures RawTail(PrintItem(RawTag(body)) + rest) == |body| + 4 + if TagName(body) == "endraw" then 0 else RawTail(rest)
  {
    hide TagName, ScanTo, RawTail;
    var b := body + ("%}" + rest);
    TagLayout("{%", body, "%}", rest);
    ClosedBefore(body, "%}", rest);
    HeadStops(body, "%}" + rest);
    RawTailAtTag(b, |body|);
    assert b[|body| + 2..] == rest;
  }

  lemma RawItemSkipped(item: RawItem, rest: string)
    requires RawItemOk(item) && |rest| >= 2
    ensures RawTail(PrintItem(item) + rest) == |PrintItem(item)| + RawTail(rest)
  {
    hide TagName, ScanTo, RawTail;
    match item
    case RawText(text) => RawTextSkipped(text, rest);
    case RawTag(body) => RawTagSkipped(body, rest);
  }

  lemma {:induction false} RawItemsSkipped(items: seq<RawItem>, close: string, rest: string)
    requires forall item | item in items :: RawItemOk(item)
    requires Closed(close, "%}") && TagName(close) == "endraw"
    ensures RawTail(PrintItems(items) + (PrintItem(RawTag(close)) + rest)) == |PrintItems(items)| + |close| + 4
  {
    hide TagName, ScanTo, RawTail, RawItemOk, Closed, PrintItem;
    var last := PrintItem(RawTag(close)) + rest;
    RawTagSkipped(close, rest);
    if items == [] {
      assert PrintItems(items) + last == last;
    } else {
      Regroup(PrintItem(items[0]), PrintItems(items[1..]), last);
      assert items[0] in items;
      RawTagLength(close);
      RawItemsSkipped(items[1..], close, rest);
      RawItemSkipped(items[0], PrintItems(items[1..]) + last);
    }
  }

  lemma Regroup(a: string, b: string, c: string)
    ensures a + b + c == a + (b + c)
  {
  }

  lemma RawTagLength(body: string)
    ensures |PrintItem(RawTag(body))| == |body| + 4
  {
  }

  lemma ReadsRaw(open: string, items: seq<RawItem>, close: string, rest: string)
    requires SegmentOk(RawBlock(open, items, close))
    ensures Step(Print(RawBlock(open, items, close)) + rest) == Verbatim(|Print(RawBlock(open, items, close))|)
  {
    hide TagName, ScanTo, PrintItems, Step, AtTag, RawItemOk, Closed, RawTail;
    var inside := PrintItems(items) + (PrintItem(RawTag(close)) + rest);
    var b := open + "%}" + inside;
    RawPrinted(open, items, close, rest);
    StepOfTag(b);
    AtRaw(open, inside);
    RawItemsSkipped(items, close, rest);
  }

  lemma RawPrinted(open: string, items: seq<RawItem>, close: string, rest: string)
    ensures var s := RawBlock(open, items, close);
            && Print(s) + rest == "{%" + (open + "%}" + (PrintItems(items) + (PrintItem(RawTag(close)) + rest)))
            && |Print(s)| == |open| + |PrintItems(items)| + |close| + 8
  {
    hide PrintItems;
    var text := PrintItems(items);
    assert PrintItem(RawTag(close)) == "{%" + (close + "%}");
    assert text + PrintItem(RawTag(close)) + rest == text + (PrintItem(RawTag(close)) + rest);
    assert open + "%}" + (text + PrintItem(RawTag(close))) + rest == open + "%}" + (text + (PrintItem(RawTag(close)) + rest));
  }

  lemma AtRaw(open: string, inside: string)
    requires TagName(open) == "raw" && Closed(open, "%}")
    ensures AtTag(open + "%}" + inside) == Verbatim(|open| + 4 + RawTail(inside))
  {
    hide TagName, ScanTo, IsInlineComment, CloseOf, TagBody, RawTail;
    var b := open + "%}" + inside;
    assert b == open + ("%}" + inside) && b[|open| + 2..] == inside;
    HeadStops(open, "%}" + inside);
    ClosedBefore(open, "%}", inside);
  }

  /* ---- Comments, `liquid` and `echo` ---- */

  /** The head of a special tag: where its word is and what it is called. */
  lemma SpecialHead(s: Segment, rest: string)
    requires s.Special? && SpecialOk(s)
    ensures var b := SpecialInside(s) + rest;
      && StartsWithDash(b) == s.dashOpen && BodySkip(b) == |Dash(s.dashOpen)| + |s.gap|
      && IsInlineComment(b) == s.kind.Comment? && TagName(b) == (if s.kind.Comment? then "" else Word(s.kind))
  {
    hide BodySkip, NameLength, SpecialOk, Dash, SpecialRest, SpecialInside;
    SpecialGap(s);
    var after := SpecialRest(s) + rest;
    var tail := Word(s.kind) + after;
    SpecialRegroup(s, rest);
    AfterWord(s, rest);
    HeadSkips(s.dashOpen, s.gap, tail);
    if s.kind.Comment? {
      NameOf("", tail);
    } else {
      NameOf(Word(s.kind), after);
    }
  }

  lemma SpecialGap(s: Segment)
    requires s.Special? && SpecialOk(s)
    ensures AllLiquidWhitespace(s.gap)
  {
  }

  lemma SpecialRegroup(s: Segment, rest: string)
    requires s.Special?
    ensures SpecialInside(s) + rest == Dash(s.dashOpen) + (s.gap + (Word(s.kind) + (SpecialRest(s) + rest)))
  {
  }

  lemma AfterWord(s: Segment, rest: string)
    requires s.Special? && SpecialOk(s)
    ensures SpecialRest(s) != ""
    ensures !s.kind.Comment? ==> !IsNameChar((SpecialRest(s) + rest)[0])
  {
    assert SpecialRest(s)[0] == if s.body + Dash(s.dashClose) == "" then '%' else (s.body + Dash(s.dashClose))[0];
  }

  lemma NameOf(word: string, after: string)
    requires (forall i | 0 <= i < |word| :: IsNameChar(word[i])) && after != "" && !IsNameChar(after[0])
    ensures NameLength(word + after) == |word| && (word + after)[..|word|] == word
  {
    NameStops(word, after);
  }

  /** A tag's body after its word, and its close, found as its kind demands. */
  lemma WordClose(s: Segment, rest: string)
    requires s.Special? && SpecialOk(s)
    ensures s.kind.Comment? ==> FindTagEnd(SpecialInside(s) + rest) == Some(|SpecialInside(s)| - 2)
    ensures s.kind.Liquid? ==> LiquidEndFrom(LineStart, SpecialRest(s) + rest) == Some(|SpecialRest(s)| - 2)
    ensures s.kind.Echoed? ==> ScanTo(SpecialRest(s) + rest, "%}") == Some(|SpecialRest(s)| - 2)
  {
    hide LiquidEndFrom, ScanFrom, FindTagEnd;
    match s.kind
    case Comment => TagEndExtends(SpecialInside(s), rest);
    case Liquid => LineExtends(LineStart, SpecialRest(s), rest);
    case Echoed => ScanExtends(None, SpecialRest(s), rest, "%}");
  }

  lemma ReadsClose(s: Segment, rest: string)
    requires s.Special? && SpecialOk(s)
    ensures CloseOf(SpecialInside(s) + rest) == Some(|SpecialInside(s)| - 2)
  {
    hide BodySkip, TagName, LiquidEndFrom, ScanTo, FindTagEnd, IsInlineComment, SpecialOk, Dash, SpecialRest, SpecialInside;
    var b := SpecialInside(s) + rest;
    SpecialHead(s, rest);
    WordClose(s, rest);
    WordLength(s.kind);
    if !s.kind.Comment? {
      AfterHead(s, rest);
    }
  }

  lemma AfterHead(s: Segment, rest: string)
    requires s.Special?
    ensures |SpecialRest(s)| >= 2 && |SpecialInside(s)| == |Dash(s.dashOpen)| + |s.gap| + |Word(s.kind)| + |SpecialRest(s)|
    ensures (SpecialInside(s) + rest)[|Dash(s.dashOpen)| + |s.gap| + |Word(s.kind)|..] == SpecialRest(s) + rest
  {
    hide Dash, Word;
    var head := Dash(s.dashOpen) + s.gap + Word(s.kind);
    assert SpecialInside(s) + rest == head + (SpecialRest(s) + rest);
  }

  /** How the rewriter describes what a special tag stands for. */
  function SpecialBody(s: Segment): Body
    requires s.Special?
  {
    var skip := |Dash(s.dashOpen)| + |s.gap| + |Word(s.kind)|;
    match s.kind
    case Comment => Nothing
    case Liquid => Statements(skip, s.body)
    case Echoed => Echo(skip, s.body)
  }

  /** The layout of a special tag: where its body is, and what stands before its close. */
  lemma SpecialLayout(s: Segment, rest: string)
    requires s.Special? && SpecialOk(s)
    ensures var b, skip, close := SpecialInside(s) + rest, |Dash(s.dashOpen)| + |s.gap| + |Word(s.kind)|, |SpecialInside(s)| - 2;
      && close == skip + |s.body| + (if s.dashClose then 1 else 0) && close <= |b|
      && b[skip..skip + |s.body|] == s.body && DashBefore(b, close) == s.dashClose
  {
    hide Word, Dash, SpecialOk;
    var head := Dash(s.dashOpen) + s.gap + Word(s.kind);
    assert SpecialInside(s) + rest == head + (s.body + Dash(s.dashClose) + ("%}" + rest));
    WordLength(s.kind);
    BodyAndDash(head, s.body, s.dashClose, "%}" + rest);
    DashIsClose(s);
    DashIs(s.dashClose);
  }

  /** The rewriter finds a special tag's close, its hyphen and its body. */
  ghost predicate ReadAs(s: Segment, b: string, length: nat)
    requires s.Special?
  {
    && length >= 2 && CloseOf(b) == Some(length - 2) && DashBefore(b, length - 2) == s.dashClose
    && TagBody(b, length - 2) == SpecialBody(s)
  }

  lemma ReadsBody(s: Segment, rest: string)
    requires s.Special? && SpecialOk(s)
    ensures ReadAs(s, SpecialInside(s) + rest, |SpecialInside(s)|)
  {
    hide BodySkip, TagName, CloseOf, IsInlineComment, SpecialOk, Word, Dash, SpecialInside, DashBefore;
    SpecialHead(s, rest);
    ReadsClose(s, rest);
    SpecialLayout(s, rest);
    WordLength(s.kind);
  }

  lemma BodyAndDash(head: string, body: string, dash: bool, rest: string)
    requires head != ""
    ensures var b := head + (body + Dash(dash) + rest);
      && b[|head|..|head| + |body|] == body
      && b[|head| + |body| + |Dash(dash)| - 1] == if dash then '-' else (head + body)[|head + body| - 1]
  {
    Parts(head, body, Dash(dash), rest);
    var b := head + (body + Dash(dash) + rest);
    assert b == (head + body) + (Dash(dash) + rest);
  }

  lemma WordLength(kind: Kind)
    ensures Word(kind) != ""
    ensures kind.Comment? || Expandable(Word(kind))
    ensures Word(kind) == "liquid" <==> kind.Liquid?
    ensures !Expandable("")
  {
  }

  lemma DashIsClose(s: Segment)
    requires s.Special? && SpecialOk(s)
    ensures !s.dashClose ==> !EndsWith(Dash(s.dashOpen) + s.gap + Word(s.kind) + s.body, '-')
  {
  }

  lemma SpecialPrinted(s: Segment, rest: string)
    requires s.Special?
    ensures Print(s) + rest == "{%" + (SpecialInside(s) + rest) && |Print(s)| == 2 + |SpecialInside(s)|
  {
    hide SpecialInside;
  }

  lemma ReadsSpecial(s: Segment, rest: string)
    requires s.Special? && SpecialOk(s)
    ensures Step(Print(s) + rest) == Replace(|Print(s)| + (if s.dashClose then Spaces(rest) else 0), s.dashOpen, SpecialBody(s))
  {
    hide BodySkip, TagName, CloseOf, IsInlineComment, Spaces, TagBody, DashBefore, SpecialBody, SpecialInside, SpecialOk, Step, Print;
    var b := SpecialInside(s) + rest;
    SpecialPrinted(s, rest);
    StepOfTag(b);
    SpecialHead(s, rest);
    ReadsBody(s, rest);
    assert b[|SpecialInside(s)|..] == rest;
  }

  /* ---- Whole templates ---- */

  lemma {:induction false} TextSkipped(pending: string, text: string, rest: string)
    requires Plain(text) && (rest == "" || !EndsWith(text, '{'))
    ensures Rewritten(pending, text + rest) == Rewritten(pending + text, rest)
    decreases |text|
  {
    var t := text + rest;
    if text == "" {
      assert t == rest && pending + text == pending;
    } else if |t| < 2 {
      assert rest == "" && pending + t == pending + text + rest;
    } else {
      assert t[0] == text[0] && (|text| > 1 ==> t[1] == text[1]);
      assert Step(t) == Verbatim(1);
      assert t[..1] == text[..1] && t[1..] == text[1..] + rest && pending + text[..1] + text[1..] == pending + text;
      TextSkipped(pending + text[..1], text[1..], rest);
    }
  }

  lemma VerbatimSkipped(pending: string, part: string, rest: string)
    requires |part| >= 2 && Step(part + rest) == Verbatim(|part|)
    ensures Rewritten(pending, part + rest) == Rewritten(pending + part, rest)
  {
    hide Step;
    assert (part + rest)[..|part|] == part && (part + rest)[|part|..] == rest;
  }

  lemma ReplacedThere(pending: string, part: string, rest: string, m: Move)
    requires |part| >= 2 && Step(part + rest) == m && m.Replace? && |part| <= m.n
    ensures m.n - |part| <= |rest|
    ensures Rewritten(pending, part + rest) == TrimIf(m.trim, pending) + BodyText(m.body) + Rewritten("", rest[m.n - |part|..])
  {
    hide Step, BodyText;
    assert (part + rest)[m.n..] == rest[m.n - |part|..];
  }

  lemma BraceFirst(segments: seq<Segment>)
    requires segments != [] && !segments[0].Text?
    ensures PrintAll(segments) != "" && PrintAll(segments)[0] == '{' && |Print(segments[0])| >= 2
  {
  }

  /** Trimming the print is trimming the text that comes first. */
  lemma TrimmedPrint(segments: seq<Segment>)
    requires WellFormed(segments)
    ensures WellFormed(TrimNext(true, segments))
    ensures PrintAll(TrimNext(true, segments)) == PrintAll(segments)[Spaces(PrintAll(segments))..]
  {
    hide Print, Spaces, SegmentOk;
    if segments != [] && segments[0].Text? {
      var t, more := segments[0].text, PrintAll(segments[1..]);
      if |segments| > 1 {
        BraceFirst(segments[1..]);
      }
      SpacesStop(t, more);
      TextPrint(t);
      TextPrint(t[Spaces(t)..]);
      assert (t + more)[Spaces(t)..] == t[Spaces(t)..] + more;
      TrimmedText(t);
      assert TrimNext(true, segments)[1..] == segments[1..];
    } else if segments != [] {
      BraceFirst(segments);
      SpacesStop("", PrintAll(segments));
    }
  }

  lemma TextPrint(t: string)
    ensures Print(Text(t)) == t && SegmentOk(Text(t)) == Plain(t)
  {
  }

  lemma TrimmedText(t: string)
    requires Plain(t)
    ensures Plain(t[Spaces(t)..]) && (EndsWith(t[Spaces(t)..], '{') ==> EndsWith(t, '{'))
  {
    hide Spaces;
  }

  /** Scanning the print of a well-formed template gives the structured transformation, text,
      tags and raw blocks copied character for character. */
  lemma {:induction false} ScannerIsTransform(pending: string, segments: seq<Segment>)
    requires WellFormed(segments)
    ensures Rewritten(pending, PrintAll(segments)) == Transform(pending, segments)
    decreases |segments|
  {
    hide Print, SegmentOk, Step, Spaces, BodyText, TrimIf, Rewritten;
    if segments == [] {
      NothingLeft(pending);
    } else {
      var s, rest := segments[0], PrintAll(segments[1..]);
      match s
      case Text(text) =>
        TextPrint(text);
        if |segments| == 1 {
          assert rest == "";
        }
        TextSkipped(pending, text, rest);
        ScannerIsTransform(pending + text, segments[1..]);
      case Tag(body) =>
        ReadsTag(body, rest);
        BraceFirst(segments);
        VerbatimSkipped(pending, Print(s), rest);
        ScannerIsTransform(pending + Print(s), segments[1..]);
      case RawBlock(open, items, close) =>
        ReadsRaw(open, items, close, rest);
        BraceFirst(segments);
        VerbatimSkipped(pending, Print(s), rest);
        ScannerIsTransform(pending + Print(s), segments[1..]);
      case OutputStatement(dashOpen, inner, dashClose) =>
        ReadsOutput(dashOpen, inner, dashClose, rest);
        BraceFirst(segments);
        ReplacedThere(pending, Print(s), rest, Replace(|Print(s)|, false, Output(dashOpen, |Dash(dashOpen)| + Spaces(inner), TrimSpaces(inner), dashClose)));
        ScannerIsTransform("", segments[1..]);
        OutputIs(pending, dashOpen, inner, dashClose);
      case Special(_, _, _, _, _) =>
        SpecialIsOk(s);
        ReadsSpecial(s, rest);
        BraceFirst(segments);
        ReplacedThere(pending, Print(s), rest, Replace(|Print(s)| + (if s.dashClose then Spaces(rest) else 0), s.dashOpen, SpecialBody(s)));
        TrimmedPrint(segments[1..]);
        ScannerIsTransform("", TrimNext(s.dashClose, segments[1..]));
        SpecialTextIs(s);
    }
  }

  lemma NothingLeft(pending: string)
    ensures Rewritten(pending, "") == pending
  {
  }

  lemma OutputIs(pending: string, dashOpen: bool, inner: string, dashClose: bool)
    ensures TrimIf(false, pending) + BodyText(Output(dashOpen, |Dash(dashOpen)| + Spaces(inner), TrimSpaces(inner), dashClose)) == pending + (OutputOpen(dashOpen) + TrimSpaces(inner) + OutputClose(dashClose))
  {
  }

  lemma SpecialIsOk(s: Segment)
    requires s.Special?
    ensures SegmentOk(s) == SpecialOk(s)
  {
  }

  lemma SpecialTextIs(s: Segment)
    requires s.Special?
    ensures BodyText(SpecialBody(s)) == SpecialText(s.kind, s.body)
  {
  }
}
