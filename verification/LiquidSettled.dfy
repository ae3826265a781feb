/** When rewriting what was rewritten changes nothing. */
module LiquidSettled {
  import opened Wrappers
  import opened LiquidText
  import opened LiquidScanners
  import opened LiquidRewrites
  import opened LiquidTemplates
  import opened LiquidReadings

  /* ---- The rewritten template as a template ---- */

  function OutputTagBody(dashOpen: bool, inner: string, dashClose: bool): string {
    OutputHead(dashOpen) + (inner + (" " + Dash(dashClose)))
  }

  function OutputHead(dashOpen: bool): string {
    Dash(dashOpen) + (" " + OUTPUT_TAG + " ")
  }

  function Flush(run: string): seq<Segment> {
    if run == "" then [] else [Text(run)]
  }

  function StatementTags(line: string): seq<Segment> {
    var statement := Trim(line);
    if IsSilent(statement) then []
    else
      match EchoArgument(statement)
      case Some(expression) => if expression == "" then [] else [Tag(OutputTagBody(false, expression, false))]
      case None => [Tag(" " + (statement + " "))]
  }

  function LinesTags(t: string): seq<Segment> {
    if t == "" then [] else StatementTags(t[..LineLength(t)]) + LinesTags(t[LineLength(t)..])
  }

  function SpecialTags(kind: Kind, body: string): seq<Segment> {
    match kind
    case Comment => []
    case Liquid => LinesTags(body)
    case Echoed => if Trim(body) == "" then [] else [Tag(OutputTagBody(false, Trim(body), false))]
  }

  /** The rewritten template: a text run is what is out of it (`before`) and what an opening
      hyphen may still trim (`pending`). */
  function Lowered(before: string, pending: string, segments: seq<Segment>): seq<Segment>
    decreases |segments|
  {
    if segments == [] then Flush(before + pending)
    else
      match segments[0]
      case Text(text) => Lowered(before, pending + text, segments[1..])
      case OutputStatement(dashOpen, inner, dashClose) =>
        Flush(before + pending) + [Tag(OutputTagBody(dashOpen, TrimSpaces(inner), dashClose))] + Lowered("", "", segments[1..])
      case Special(kind, dashOpen, _, body, dashClose) =>
        var run := before + TrimIf(dashOpen, pending);
        if SpecialTags(kind, body) == [] then Lowered(run, "", TrimNext(dashClose, segments[1..]))
        else Flush(run) + SpecialTags(kind, body) + Lowered("", "", TrimNext(dashClose, segments[1..]))
      case _ => Flush(before + pending) + [segments[0]] + Lowered("", "", segments[1..])
  }

  predicate OnlyCopied(segments: seq<Segment>) {
    forall s | s in segments :: s.Text? || s.Tag? || s.RawBlock?
  }

  /* ---- When it settles ---- */

  /** An expression no tag's close can cut short. */
  predicate Uncut(expression: string) {
    ScanTo(expression, "%}").None? && AfterText(None, expression).None?
  }

  /** Braces that joined up would read as an opening delimiter. */
  predicate JoinsNoBraces(run: string) {
    Plain(run) && !EndsWith(run, '{')
  }

  predicate StatementSettles(line: string) {
    var statement := Trim(line);
    IsSilent(statement) ||
    match EchoArgument(statement)
    case Some(expression) => Uncut(expression)
    case None => SegmentOk(Tag(" " + (statement + " ")))
  }

  predicate LinesSettle(t: string) {
    t == "" || (StatementSettles(t[..LineLength(t)]) && LinesSettle(t[LineLength(t)..]))
  }

  predicate SpecialSettles(kind: Kind, body: string) {
    match kind
    case Comment => true
    case Liquid => LinesSettle(body)
    case Echoed => Uncut(Trim(body))
  }

  /** No output expression holds a bare `%}`, no `liquid` statement is itself a tag to expand or
      a raw block, and removing tags joins no braces. */
  predicate Settles(before: string, pending: string, segments: seq<Segment>)
    decreases |segments|
  {
    if segments == [] then Plain(before + pending)
    else
      match segments[0]
      case Text(text) => Settles(before, pending + text, segments[1..])
      case OutputStatement(_, inner, _) =>
        JoinsNoBraces(before + pending) && ScanTo(TrimSpaces(inner), "%}").None? && Settles("", "", segments[1..])
      case Special(kind, dashOpen, _, body, dashClose) =>
        var run := before + TrimIf(dashOpen, pending);
        SpecialSettles(kind, body) &&
        if SpecialTags(kind, body) == [] then Settles(run, "", TrimNext(dashClose, segments[1..]))
        else JoinsNoBraces(run) && Settles("", "", TrimNext(dashClose, segments[1..]))
      case _ => JoinsNoBraces(before + pending) && Settles("", "", segments[1..])
  }

  /* ---- Printing the rewritten template ---- */

  lemma {:induction false} PrintConcat(a: seq<Segment>, b: seq<Segment>)
    ensures PrintAll(a + b) == PrintAll(a) + PrintAll(b)
  {
    if a == [] {
      assert a + b == b;
    } else {
      assert (a + b)[1..] == a[1..] + b;
      PrintConcat(a[1..], b);
    }
  }

  lemma PrintOne(s: Segment)
    ensures PrintAll([s]) == Print(s)
  {
    assert [s][1..] == [];
  }

  lemma FlushPrints(run: string)
    ensures PrintAll(Flush(run)) == run
  {
    if run != "" {
      PrintOne(Text(run));
    }
  }

  lemma OutputTagPrints(dashOpen: bool, inner: string, dashClose: bool)
    ensures Print(Tag(OutputTagBody(dashOpen, inner, dashClose))) == OutputOpen(dashOpen) + inner + OutputClose(dashClose)
  {
    hide OutputOpen, OutputClose, OutputHead, Dash;
    OpenIsHead(dashOpen);
    CloseIsDash(dashClose);
    Reassociated("{%", OutputHead(dashOpen), inner, " " + Dash(dashClose), "%}");
  }

  lemma OpenIsHead(dash: bool)
    ensures OutputOpen(dash) == "{%" + OutputHead(dash)
  {
    if dash {
      assert "{%- " == "{%" + ("-" + " ");
      Reassociated("{%", "-", " ", OUTPUT_TAG, " ");
    } else {
      assert "{% " == "{%" + ("" + " ");
      Reassociated("{%", "", " ", OUTPUT_TAG, " ");
    }
  }

  lemma CloseIsDash(dash: bool)
    ensures OutputClose(dash) == " " + Dash(dash) + "%}"
  {
  }

  lemma Reassociated(a: string, b: string, c: string, d: string, e: string)
    ensures a + (b + (c + d) + e) == (a + b) + c + (d + e)
    ensures a + (b + c) + d + e == a + (b + (c + d + e))
  {
  }

  lemma StatementPrints(line: string)
    ensures PrintAll(StatementTags(line)) == StatementText(line)
    ensures StatementTags(line) == [] <==> StatementText(line) == ""
  {
    hide Trim, EchoArgument, OutputTagBody, Print;
    var statement := Trim(line);
    if !IsSilent(statement) {
      match EchoArgument(statement)
      case Some(expression) =>
        OutputTagPrints(false, expression, false);
        PrintOne(Tag(OutputTagBody(false, expression, false)));
      case None =>
        PrintOne(Tag(" " + (statement + " ")));
        PlainTagPrints(statement);
    }
  }

  lemma PlainTagPrints(statement: string)
    ensures Print(Tag(" " + (statement + " "))) == "{% " + statement + " %}"
  {
  }

  lemma {:induction false} LinesPrint(t: string)
    ensures PrintAll(LinesTags(t)) == LinesText(t)
    decreases |t|
  {
    hide StatementTags, StatementText;
    if t != "" {
      StatementPrints(t[..LineLength(t)]);
      LinesPrint(t[LineLength(t)..]);
      PrintConcat(StatementTags(t[..LineLength(t)]), LinesTags(t[LineLength(t)..]));
    }
  }

  lemma SpecialPrints(kind: Kind, body: string)
    ensures PrintAll(SpecialTags(kind, body)) == SpecialText(kind, body)
  {
    hide Trim, LinesTags, LinesText, OutputTagBody;
    match kind
    case Comment =>
    case Liquid => LinesPrint(body);
    case Echoed =>
      if Trim(body) != "" {
        OutputTagPrints(false, Trim(body), false);
        PrintOne(Tag(OutputTagBody(false, Trim(body), false)));
      }
  }

  /** A part that does not end in white space shields what is before it from trimming. */
  lemma {:induction false} TrimStopsAtPart(head: string, p: string)
    requires head == "" || !IsLiquidWhitespace(head[|head| - 1])
    ensures TrimEndSpaces(head + p) == head + TrimEndSpaces(p)
    decreases |p|
  {
    if p == "" {
      assert head + p == head;
    } else {
      assert (head + p)[|head + p| - 1] == p[|p| - 1];
      if IsLiquidWhitespace(p[|p| - 1]) {
        assert (head + p)[..|head + p| - 1] == head + p[..|p| - 1];
        TrimStopsAtPart(head, p[..|p| - 1]);
      }
    }
  }

  lemma {:induction false} TransformAfterPart(head: string, p: string, segments: seq<Segment>)
    requires head == "" || !IsLiquidWhitespace(head[|head| - 1])
    ensures Transform(head + p, segments) == head + Transform(p, segments)
    decreases |segments|
  {
    hide Print, SpecialText, OutputOpen, OutputClose, TrimSpaces, TrimNext, TrimEndSpaces;
    if segments != [] {
      match segments[0]
      case OutputStatement(dashOpen, inner, dashClose) =>
        Shielded(head, p, OutputOpen(dashOpen) + TrimSpaces(inner) + OutputClose(dashClose), Transform("", segments[1..]));
      case Special(kind, dashOpen, _, body, dashClose) =>
        TrimStopsAtPart(head, p);
        Shielded(head, TrimIf(dashOpen, p), SpecialText(kind, body), Transform("", TrimNext(dashClose, segments[1..])));
      case _ =>
        Regroup(head, p, Print(segments[0]));
        TransformAfterPart(head, p + Print(segments[0]), segments[1..]);
    }
  }

  lemma Shielded(head: string, p: string, part: string, rest: string)
    ensures head + p + part + rest == head + (p + part + rest)
  {
  }

  lemma EndsInBrace(s: Segment)
    requires s.Tag? || s.RawBlock?
    ensures Print(s) != "" && !IsLiquidWhitespace(Print(s)[|Print(s)| - 1])
  {
  }

  lemma {:induction false} LoweredPrints(before: string, pending: string, segments: seq<Segment>)
    ensures PrintAll(Lowered(before, pending, segments)) == before + Transform(pending, segments)
    decreases |segments|
  {
    hide Print, SpecialText, SpecialTags, OutputOpen, OutputClose, TrimSpaces, OutputTagBody, Flush, TrimIf, PrintAll, TrimNext;
    if segments == [] {
      FlushPrints(before + pending);
    } else {
      var s, rest := segments[0], segments[1..];
      match s
      case Text(text) =>
        TextPrint(text);
        LoweredPrints(before, pending + text, rest);
      case OutputStatement(dashOpen, inner, dashClose) =>
        var part := Tag(OutputTagBody(dashOpen, TrimSpaces(inner), dashClose));
        LoweredPrints("", "", rest);
        OutputTagPrints(dashOpen, TrimSpaces(inner), dashClose);
        PrintOne(part);
        JoinPrints(before + pending, [part], Lowered("", "", rest));
        Shielded(before, pending, Print(part), Transform("", rest));
      case Special(kind, dashOpen, _, body, dashClose) =>
        var run, after := before + TrimIf(dashOpen, pending), TrimNext(dashClose, rest);
        SpecialPrints(kind, body);
        Shielded(before, TrimIf(dashOpen, pending), SpecialText(kind, body), Transform("", after));
        if SpecialTags(kind, body) == [] {
          NoTagsNoText(kind, body);
          LoweredPrints(run, "", after);
        } else {
          LoweredPrints("", "", after);
          JoinPrints(run, SpecialTags(kind, body), Lowered("", "", after));
        }
      case _ =>
        LoweredPrints("", "", rest);
        PrintOne(s);
        JoinPrints(before + pending, [s], Lowered("", "", rest));
        EndsInBrace(s);
        TransformAfterPart(pending + Print(s), "", rest);
        assert pending + Print(s) + "" == pending + Print(s);
        Shielded(before, pending, Print(s), Transform("", rest));
    }
  }

  lemma NoTagsNoText(kind: Kind, body: string)
    requires SpecialTags(kind, body) == []
    ensures SpecialText(kind, body) == ""
  {
    SpecialPrints(kind, body);
  }

  lemma JoinPrints(run: string, middle: seq<Segment>, rest: seq<Segment>)
    ensures PrintAll(Flush(run) + middle + rest) == run + PrintAll(middle) + PrintAll(rest)
  {
    FlushPrints(run);
    PrintConcat(Flush(run), middle);
    PrintConcat(Flush(run) + middle, rest);
  }

  lemma {:induction false} CopiedOnly(pending: string, segments: seq<Segment>)
    requires OnlyCopied(segments)
    ensures Transform(pending, segments) == pending + PrintAll(segments)
    decreases |segments|
  {
    hide Print;
    if segments != [] {
      assert segments[0] in segments;
      CopiedOnly(pending + Print(segments[0]), segments[1..]);
    }
  }

  /* ---- The rewritten template is well formed ---- */

  /** A scan that finds nothing in a part goes on after it, when no delimiter straddles the end. */
  lemma {:induction false} ScanPast(q: Quoting, a: string, rest: string, close: string)
    requires |close| == 2 && ScanFrom(q, a, close).None?
    requires a == "" || rest == "" || a[|a| - 1] != close[0] || rest[0] != close[1]
    ensures ScanFrom(q, a + rest, close) == Shift(ScanFrom(AfterText(q, a), rest, close), |a|)
    decreases |a|
  {
    hide AfterChar;
    if a == "" {
      assert a + rest == rest;
    } else {
      var t := a + rest;
      assert t[0] == a[0] && t[1..] == a[1..] + rest;
      ScanPast(AfterChar(q, a[0]), a[1..], rest, close);
      if q.None? {
        NoStraddle(a, rest, close);
      }
    }
  }

  lemma NoStraddle(a: string, rest: string, close: string)
    requires |close| == 2 && a != "" && !Starts(a, close)
    requires rest == "" || a[|a| - 1] != close[0] || rest[0] != close[1]
    ensures !Starts(a + rest, close)
  {
    var t := a + rest;
    assert |t| >= 2 ==> t[..2] == [t[0], t[1]];
    assert |a| >= 2 ==> a[..2] == [a[0], a[1]];
    assert close == [close[0], close[1]];
  }

  /** An uncut expression between spaces, its head free of quotes, closes where it should. */
  lemma UncutCloses(head: string, expression: string, tail: string)
    requires ScanTo(head, "%}").None? && AfterText(None, head).None? && EndsWith(head, ' ')
    requires Uncut(expression) && tail != "" && tail[0] == ' '
    requires ScanTo(tail + "%}", "%}") == Some(|tail|)
    ensures Closed(head + (expression + tail), "%}")
  {
    hide ScanFrom, AfterText;
    var inside := expression + tail + "%}";
    assert inside == expression + (tail + "%}");
    ScanPast(None, expression, tail + "%}", "%}");
    ScanPast(None, head, inside, "%}");
    assert head + (expression + tail) + "%}" == head + inside;
  }

  lemma HeadIsQuiet(dash: bool)
    ensures ScanTo(OutputHead(dash), "%}").None? && AfterText(None, OutputHead(dash)).None? && EndsWith(OutputHead(dash), ' ')
  {
    hide ScanTo, AfterText;
    NoQuotes(OutputHead(dash), "%}");
  }

  lemma {:induction false} NoQuotes(t: string, close: string)
    requires |close| == 2 && forall i | 0 <= i < |t| :: !IsQuote(t[i]) && t[i] != close[0]
    ensures ScanTo(t, close).None? && AfterText(None, t).None?
  {
    if t != "" {
      NoQuotes(t[1..], close);
    }
  }

  lemma DashCloses(dash: bool)
    ensures ScanTo(" " + Dash(dash) + "%}", "%}") == Some(|" " + Dash(dash)|)
  {
    NoQuotes(" " + Dash(dash), "%}");
    ScanPast(None, " " + Dash(dash), "%}", "%}");
    assert "%}"[..2] == "%}";
  }

  lemma OutputTagOk(dashOpen: bool, inner: string, dashClose: bool)
    requires Uncut(inner)
    ensures SegmentOk(Tag(OutputTagBody(dashOpen, inner, dashClose)))
  {
    hide Closed, ScanTo, AfterText, TagName, BodySkip, OutputHead, Dash, IsInlineComment, Uncut;
    HeadIsQuiet(dashOpen);
    DashCloses(dashClose);
    UncutCloses(OutputHead(dashOpen), inner, " " + Dash(dashClose));
    OutputTagName(dashOpen, inner + (" " + Dash(dashClose)));
    OutputTagIsPlain();
  }

  lemma OutputTagIsPlain()
    ensures OUTPUT_TAG != "raw" && !Expandable(OUTPUT_TAG)
  {
  }

  lemma Regrouped(dash: string, space: string, name: string, rest: string)
    ensures (dash + (space + name + space)) + rest == dash + (space + (name + (space + rest)))
    ensures (dash + (space + (name + (space + rest))))[|dash| + |space|..] == name + (space + rest)
  {
  }

  lemma OutputTagName(dashOpen: bool, rest: string)
    ensures TagName(OutputHead(dashOpen) + rest) == OUTPUT_TAG && !IsInlineComment(OutputHead(dashOpen) + rest)
  {
    hide BodySkip, NameLength, Dash;
    var tail := OUTPUT_TAG + (" " + rest);
    Regrouped(Dash(dashOpen), " ", OUTPUT_TAG, rest);
    HeadSkips(dashOpen, " ", tail);
    NameOf(OUTPUT_TAG, " " + rest);
  }

  /** Text without quotes leaves a scan where it was, inside or outside a literal. */
  lemma {:induction false} QuietText(q: Quoting, t: string)
    requires q.Some? ==> IsQuote(q.value)
    requires forall i | 0 <= i < |t| :: !IsQuote(t[i])
    ensures AfterText(q, t) == q
    decreases |t|
  {
    if t != "" {
      QuietText(q, t[1..]);
    }
  }

  lemma {:induction false} InsideIsQuote(q: Quoting, t: string)
    requires q.Some? ==> IsQuote(q.value)
    ensures AfterText(q, t).Some? ==> IsQuote(AfterText(q, t).value)
    decreases |t|
  {
    if t != "" {
      InsideIsQuote(AfterChar(q, t[0]), t[1..]);
    }
  }

  lemma ClosedIsBalanced(t: string, close: string)
    requires Closed(t, close) && close != ""
    ensures AfterText(None, t).None?
  {
    ScanStopsOutside(None, t + close, close);
    assert (t + close)[..|t|] == t;
  }

  lemma BalancedInner(dashOpen: bool, inner: string, dashClose: bool)
    requires SegmentOk(OutputStatement(dashOpen, inner, dashClose))
    ensures AfterText(None, TrimSpaces(inner)).None?
  {
    hide AfterText, Closed, Spaces, TrimEndSpaces;
    var lead := inner[..Spaces(inner)];
    var trimmed := TrimSpaces(inner);
    var trail := inner[Spaces(inner)..][|trimmed|..] + Dash(dashClose);
    ClosedIsBalanced(inner + Dash(dashClose), "}}");
    assert inner + Dash(dashClose) == lead + (trimmed + trail);
    AfterTextConcat(None, lead, trimmed + trail);
    AfterTextConcat(AfterText(None, lead), trimmed, trail);
    QuietText(None, lead);
    InsideIsQuote(None, trimmed);
    QuietText(AfterText(None, trimmed), trail);
  }

  predicate AllTagsOk(segments: seq<Segment>) {
    forall s | s in segments :: s.Tag? && SegmentOk(s)
  }

  lemma StatementTagsOk(line: string)
    requires StatementSettles(line)
    ensures AllTagsOk(StatementTags(line))
  {
    hide Trim, EchoArgument, OutputTagBody, SegmentOk, Uncut;
    var statement := Trim(line);
    if !IsSilent(statement) && EchoArgument(statement).Some? {
      OutputTagOk(false, EchoArgument(statement).value, false);
    }
  }

  lemma {:induction false} LinesTagsOk(t: string)
    requires LinesSettle(t)
    ensures AllTagsOk(LinesTags(t))
    decreases |t|
  {
    hide StatementTags, StatementSettles, SegmentOk;
    if t != "" {
      StatementTagsOk(t[..LineLength(t)]);
      LinesTagsOk(t[LineLength(t)..]);
    }
  }

  lemma SpecialTagsOk(kind: Kind, body: string)
    requires SpecialSettles(kind, body)
    ensures AllTagsOk(SpecialTags(kind, body))
  {
    hide Trim, LinesTags, LinesSettle, OutputTagBody, SegmentOk, Uncut;
    match kind
    case Comment =>
    case Liquid => LinesTagsOk(body);
    case Echoed =>
      if Trim(body) != "" {
        OutputTagOk(false, Trim(body), false);
      }
  }

  lemma {:induction false} PartsThenRest(parts: seq<Segment>, rest: seq<Segment>)
    requires forall s | s in parts :: (s.Tag? || s.RawBlock?) && SegmentOk(s)
    requires WellFormed(rest) && OnlyCopied(rest)
    ensures WellFormed(parts + rest) && OnlyCopied(parts + rest)
  {
    hide SegmentOk;
    if parts == [] {
      assert parts + rest == rest;
    } else {
      assert (parts + rest)[1..] == parts[1..] + rest;
      assert parts[0] in parts;
      PartsThenRest(parts[1..], rest);
    }
  }

  lemma RunThenParts(run: string, parts: seq<Segment>, rest: seq<Segment>)
    requires JoinsNoBraces(run) && parts != []
    requires forall s | s in parts :: (s.Tag? || s.RawBlock?) && SegmentOk(s)
    requires WellFormed(rest) && OnlyCopied(rest)
    ensures WellFormed(Flush(run) + parts + rest) && OnlyCopied(Flush(run) + parts + rest)
  {
    hide SegmentOk;
    PartsThenRest(parts, rest);
    var whole := Flush(run) + parts + rest;
    if run == "" {
      assert whole == parts + rest;
    } else {
      TextPrint(run);
      assert whole[1..] == parts + rest && parts[0] in parts;
    }
  }

  lemma FlushOk(run: string)
    requires Plain(run)
    ensures WellFormed(Flush(run)) && OnlyCopied(Flush(run))
  {
  }

  lemma {:induction false} LoweredOk(before: string, pending: string, segments: seq<Segment>)
    requires WellFormed(segments) && Settles(before, pending, segments)
    ensures WellFormed(Lowered(before, pending, segments)) && OnlyCopied(Lowered(before, pending, segments))
    decreases |segments|
  {
    hide SegmentOk, SpecialSettles, SpecialTags, JoinsNoBraces, OutputTagBody, Flush, TrimNext, TrimIf, TrimSpaces, OnlyCopied;
    if segments == [] {
      FlushOk(before + pending);
    } else {
      var s, rest := segments[0], segments[1..];
      match s
      case Text(text) => LoweredOk(before, pending + text, rest);
      case OutputStatement(dashOpen, inner, dashClose) =>
        LoweredOk("", "", rest);
        BalancedInner(dashOpen, inner, dashClose);
        OutputTagOk(dashOpen, TrimSpaces(inner), dashClose);
        RunThenParts(before + pending, [Tag(OutputTagBody(dashOpen, TrimSpaces(inner), dashClose))], Lowered("", "", rest));
      case Special(kind, dashOpen, _, body, dashClose) =>
        var run, after := before + TrimIf(dashOpen, pending), TrimNext(dashClose, rest);
        TrimNextOk(dashClose, rest);
        if SpecialTags(kind, body) == [] {
          LoweredOk(run, "", after);
        } else {
          LoweredOk("", "", after);
          SpecialTagsOk(kind, body);
          RunThenParts(run, SpecialTags(kind, body), Lowered("", "", after));
        }
      case _ =>
        LoweredOk("", "", rest);
        RunThenParts(before + pending, [s], Lowered("", "", rest));
    }
  }

  lemma TrimNextOk(dash: bool, segments: seq<Segment>)
    requires WellFormed(segments)
    ensures WellFormed(TrimNext(dash, segments))
  {
    if dash {
      TrimmedPrint(segments);
    }
  }

  /** Rewriting a well-formed template that settles a second time changes nothing. */
  lemma RewritingTwice(segments: seq<Segment>)
    requires WellFormed(segments) && Settles("", "", segments)
    ensures Rewritten("", Rewritten("", PrintAll(segments))) == Rewritten("", PrintAll(segments))
  {
    hide WellFormed, Settles, Rewritten, Transform, PrintAll, Lowered;
    var lowered := Lowered("", "", segments);
    ScannerIsTransform("", segments);
    LoweredPrints("", "", segments);
    LoweredOk("", "", segments);
    ScannerIsTransform("", lowered);
    CopiedOnly("", lowered);
    assert "" + Transform("", segments) == Transform("", segments) && "" + PrintAll(lowered) == PrintAll(lowered);
  }
}
