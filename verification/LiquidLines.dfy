/** What statements become, spelled out: the lines of a `liquid` tag, and the special tags and
    outputs of a template. */
module LiquidLines {
  import opened Wrappers
  import opened LiquidText
  import opened LiquidScanners
  import opened LiquidRewrites
  import opened LiquidRewriters
  import opened LiquidTemplates
  import opened LiquidReadings

  /* ---- Statements ---- */

  predicate Break(c: char) {
    c in [' ', '\t', '\n', '\U{C}', '\r']
  }

  /** Nothing to trim at either end. */
  predicate Trimmed(e: string) {
    e != "" && LeadingWhitespace(e) == 0 && SpaceAtEnd(e) == 0
  }

  lemma {:induction false} BreaksLead(ws: string, e: string)
    requires (forall i | 0 <= i < |ws| :: Break(ws[i])) && Trimmed(e)
    ensures LeadingWhitespace(ws + e) == |ws|
    decreases |ws|
  {
    if ws == "" {
      assert ws + e == e;
    } else {
      var t := ws + e;
      BreakIsSpace(ws[0]);
      hide Trimmed, Break, IsSpace, LeadingWhitespace;
      assert t[..1] == [ws[0]] && t[1..] == ws[1..] + e;
      LeadsByOne(t);
      BreaksLead(ws[1..], e);
    }
  }

  lemma BreakIsSpace(c: char)
    ensures Break(c) ==> IsSpace([c])
  {
  }

  lemma LeadsByOne(t: string)
    requires t != "" && IsSpace(t[..1])
    ensures LeadingWhitespace(t) == 1 + LeadingWhitespace(t[1..])
  {
    hide IsSpace;
  }

  lemma TrimTakes(ws: string, e: string)
    requires (forall i | 0 <= i < |ws| :: Break(ws[i])) && Trimmed(e)
    ensures Trim(ws + e) == e
  {
    hide LeadingWhitespace, SpaceAtEnd;
    BreaksLead(ws, e);
    assert (ws + e)[|ws|..] == e;
    assert TrimEnd(e) == e;
  }

  lemma LeadsBySpace(t: string)
    ensures var n := SpaceAtStart(t); LeadingWhitespace(t) == if n == 0 then 0 else n + LeadingWhitespace(t[n..])
  {
    hide SpaceAtStart;
  }

  lemma {:induction false} AllSpaceEndsInSpace(t: string)
    requires t != "" && LeadingWhitespace(t) == |t|
    ensures SpaceAtEnd(t) != 0
    decreases |t|
  {
    var n := SpaceAtStart(t);
    LeadsBySpace(t);
    hide IsSpace, SpaceAtStart, SpaceAtEnd, LeadingWhitespace;
    if n == |t| {
      assert t[|t| - n..] == t && t[..n] == t;
      if SpaceAtEnd(t) == 0 {
        NoSpaceAtEnd(t, n);
      }
    } else {
      AllSpaceEndsInSpace(t[n..]);
      if SpaceAtEnd(t) == 0 {
        SuffixEnd(t, t[n..]);
      }
    }
  }

  lemma TrimmedRest(statement: string)
    requires SpaceAtEnd(statement) == 0 && |statement| > 4
    ensures Trim(statement[4..]) != ""
  {
    hide SpaceAtEnd, LeadingWhitespace, TrimEnd;
    var rest := statement[4..];
    SuffixEnd(statement, rest);
    if LeadingWhitespace(rest) == |rest| {
      AllSpaceEndsInSpace(rest);
    } else {
      TrimmedSuffix(rest, LeadingWhitespace(rest));
      assert rest[LeadingWhitespace(rest)..] != "";
    }
  }

  /** A statement echoes what comes after the word `echo` and a break, trimmed; there is always
      something.  A line may end in its newline. */
  lemma EchoedRest(line: string)
    requires |Trim(line)| > 4 && Trim(line)[..4] == "echo" && Break(Trim(line)[4])
    ensures Trim(Trim(line)[4..]) != ""
    ensures StatementText(line) == "{% __archival_out " + Trim(Trim(line)[4..]) + " %}"
  {
    var statement := Trim(line);
    TrimmedRest(statement);
    EchoArgumentIs(statement);
    EchoTextIs(Trim(statement[4..]));
    assert statement[0] == statement[..4][0];
    NotSilent(line);
  }

  lemma NotSilent(line: string)
    requires Trim(line) != "" && Trim(line)[0] != '#'
    ensures StatementText(line) == match EchoArgument(Trim(line)) case Some(e) => EchoText(e) case None => "{% " + Trim(line) + " %}"
  {
    hide Trim, EchoArgument, EchoText;
  }

  lemma EchoArgumentIs(statement: string)
    ensures EchoArgument(statement)
         == if |statement| >= 4 && statement[..4] == "echo" && (|statement| == 4 || Break(statement[4])) then Some(Trim(statement[4..])) else None
  {
    hide Trim;
  }

  lemma EchoTextIs(e: string)
    ensures EchoText(e) == if e == "" then "" else "{% __archival_out " + e + " %}"
  {
    assert OutputOpen(false) == "{% __archival_out ";
  }

  lemma EchoedStatement(line: string, ws: string, e: string)
    requires Trim(line) == "echo" + ws + e
    requires ws != "" && (forall i | 0 <= i < |ws| :: Break(ws[i])) && Trimmed(e)
    ensures StatementText(line) == "{% __archival_out " + e + " %}"
  {
    var statement := Trim(line);
    TrimTakes(ws, e);
    hide Trim;
    EchoLayout(ws, e);
    EchoedRest(line);
  }

  lemma EchoLayout(ws: string, e: string)
    requires ws != ""
    ensures var s := "echo" + ws + e; |s| > 4 && s[..4] == "echo" && s[4] == ws[0] && s[4..] == ws + e
  {
  }

  lemma SilentStatement(line: string)
    requires Trim(line) == "" || Trim(line)[0] == '#' || Trim(line) == "echo"
    ensures StatementText(line) == ""
  {
    var statement := Trim(line);
    hide Trim;
    if statement == "echo" {
      assert statement[4..] == "";
      NothingTrimmed();
    }
  }

  lemma NothingTrimmed()
    ensures Trim("") == ""
  {
  }

  lemma OtherStatement(line: string)
    requires Trim(line) != "" && Trim(line)[0] != '#'
    requires !(|Trim(line)| >= 4 && Trim(line)[..4] == "echo" && (|Trim(line)| == 4 || Break(Trim(line)[4])))
    ensures StatementText(line) == "{% " + Trim(line) + " %}"
  {
    var statement := Trim(line);
    EchoArgumentIs(statement);
    hide Trim, EchoArgument, EchoText, Break;
  }

  /* ---- Lines ---- */

  /** One line with its newline, or the last one without. */
  predicate IsLine(line: string, last: bool) {
    line != "" && (forall i | 0 <= i < |line| - 1 :: line[i] != '\n') && (last || line[|line| - 1] == '\n')
  }

  predicate AreLines(lines: seq<string>) {
    forall i | 0 <= i < |lines| :: IsLine(lines[i], i == |lines| - 1)
  }

  function Concat(lines: seq<string>): string {
    if lines == [] then "" else lines[0] + Concat(lines[1..])
  }

  function StatementTexts(lines: seq<string>): seq<string> {
    seq(|lines|, i requires 0 <= i < |lines| => StatementText(lines[i]))
  }

  lemma {:induction false} FirstLine(line: string, rest: string)
    requires IsLine(line, rest == "")
    ensures LineLength(line + rest) == |line|
    decreases |line|
  {
    if |line| > 1 {
      assert (line + rest)[1..] == line[1..] + rest;
      FirstLine(line[1..], rest);
    } else if rest == "" {
      assert (line + rest)[1..] == "";
    }
  }

  /** A text is rewritten line by line, in order. */
  lemma {:induction false} LinesBecome(lines: seq<string>)
    requires AreLines(lines)
    ensures LinesText(Concat(lines)) == Concat(StatementTexts(lines))
    decreases |lines|
  {
    hide StatementText;
    if lines != [] {
      var line, more := lines[0], lines[1..];
      var rest := Concat(more);
      assert AreLines(more) by {
        assert forall i | 0 <= i < |more| :: more[i] == lines[i + 1];
      }
      NonemptyLines(more);
      LinesBecome(more);
      FirstLineBecomes(line, rest);
      assert StatementTexts(lines)[0] == StatementText(line) && StatementTexts(lines)[1..] == StatementTexts(more);
    }
  }

  lemma FirstLineBecomes(line: string, rest: string)
    requires IsLine(line, rest == "")
    ensures LinesText(line + rest) == StatementText(line) + LinesText(rest)
  {
    hide StatementText, LineLength;
    FirstLine(line, rest);
    assert (line + rest)[..|line|] == line && (line + rest)[|line|..] == rest;
  }

  lemma NonemptyLines(lines: seq<string>)
    requires AreLines(lines)
    ensures Concat(lines) == "" <==> lines == []
  {
  }

  /* ---- Tags and outputs in a template ---- */

  function Hyphen(dash: bool): string {
    if dash then "-" else ""
  }

  lemma RestAfter(part: string, rest: string, k: nat)
    requires k <= |rest|
    ensures (part + rest)[|part| + k..] == rest[k..]
  {
  }

  /** What a special tag becomes, and where reading goes on. */
  lemma SpecialBecomes(s: Segment, pending: string, rest: string, text: string)
    requires s.Special? && SpecialOk(s) && BodyText(SpecialBody(s)) == text
    ensures var next := if s.dashClose then rest[Spaces(rest)..] else rest;
            Rewritten(pending, Print(s) + rest) == (if s.dashOpen then TrimEndSpaces(pending) else pending) + text + Rewritten("", next)
  {
    ReadsSpecial(s, rest);
    PrintsTwo(s);
    hide Step, BodyText, SpecialBody, Print, SpecialOk;
    var k := if s.dashClose then Spaces(rest) else 0;
    ReplacedThere(pending, Print(s), rest, Step(Print(s) + rest));
    assert rest[0..] == rest;
  }

  lemma PrintsTwo(s: Segment)
    requires s.Special? || s.OutputStatement?
    ensures |Print(s)| >= 2
  {
  }

  /** A `liquid` tag becomes the tags of its statements, one after the other. */
  lemma LiquidTagBecomes(dashOpen: bool, gap: string, lines: seq<string>, dashClose: bool, pending: string, rest: string)
    requires AreLines(lines) && SpecialOk(Special(Liquid, dashOpen, gap, Concat(lines), dashClose))
    ensures Rewritten(pending, "{%" + (Hyphen(dashOpen) + (gap + ("liquid" + (Concat(lines) + Hyphen(dashClose) + "%}")))) + rest)
         == (if dashOpen then TrimEndSpaces(pending) else pending) + Concat(StatementTexts(lines))
            + Rewritten("", if dashClose then rest[Spaces(rest)..] else rest)
  {
    var s := Special(Liquid, dashOpen, gap, Concat(lines), dashClose);
    assert BodyText(SpecialBody(s)) == LinesText(Concat(lines));
    hide SpecialOk, Print, Rewritten, Hyphen, Spaces, TrimEndSpaces, BodyText, SpecialBody, LinesText, AreLines, Concat;
    PrintedSpecial(s);
    LinesBecome(lines);
    SpecialBecomes(s, pending, rest, LinesText(Concat(lines)));
  }

  lemma PrintedSpecial(s: Segment)
    requires s.Special?
    ensures var word := if s.kind.Comment? then "#" else if s.kind.Liquid? then "liquid" else "echo";
            Print(s) == "{%" + (Hyphen(s.dashOpen) + (s.gap + (word + (s.body + Hyphen(s.dashClose) + "%}"))))
  {
  }

  /** An `echo` tag becomes an output tag of what it echoes, or nothing. */
  lemma EchoTagBecomes(dashOpen: bool, gap: string, body: string, dashClose: bool, pending: string, rest: string)
    requires SpecialOk(Special(Echoed, dashOpen, gap, body, dashClose))
    ensures Rewritten(pending, "{%" + (Hyphen(dashOpen) + (gap + ("echo" + (body + Hyphen(dashClose) + "%}")))) + rest)
         == (if dashOpen then TrimEndSpaces(pending) else pending)
            + (if Trim(body) == "" then "" else "{% __archival_out " + Trim(body) + " %}")
            + Rewritten("", if dashClose then rest[Spaces(rest)..] else rest)
  {
    var s := Special(Echoed, dashOpen, gap, body, dashClose);
    assert BodyText(SpecialBody(s)) == EchoText(Trim(body));
    hide Trim, EchoText, SpecialOk, Print, Rewritten, Hyphen, Spaces, TrimEndSpaces, BodyText, SpecialBody;
    PrintedSpecial(s);
    EchoTextIs(Trim(body));
    SpecialBecomes(s, pending, rest, EchoText(Trim(body)));
  }

  /** A comment becomes nothing. */
  lemma CommentBecomes(dashOpen: bool, gap: string, body: string, dashClose: bool, pending: string, rest: string)
    requires SpecialOk(Special(Comment, dashOpen, gap, body, dashClose))
    ensures Rewritten(pending, "{%" + (Hyphen(dashOpen) + (gap + ("#" + (body + Hyphen(dashClose) + "%}")))) + rest)
         == (if dashOpen then TrimEndSpaces(pending) else pending) + Rewritten("", if dashClose then rest[Spaces(rest)..] else rest)
  {
    var s := Special(Comment, dashOpen, gap, body, dashClose);
    assert BodyText(SpecialBody(s)) == "";
    hide SpecialOk, Print, Rewritten, Hyphen, Spaces, TrimEndSpaces, BodyText, SpecialBody;
    PrintedSpecial(s);
    SpecialBecomes(s, pending, rest, "");
  }

  /** An output becomes an output tag with the same hyphens, which then do their own trimming. */
  lemma OutputBecomes(dashOpen: bool, inner: string, dashClose: bool, pending: string, rest: string)
    requires SegmentOk(OutputStatement(dashOpen, inner, dashClose))
    ensures Rewritten(pending, "{{" + (Hyphen(dashOpen) + (inner + Hyphen(dashClose) + "}}")) + rest)
         == pending + ("{%" + Hyphen(dashOpen) + " __archival_out " + TrimSpaces(inner) + " " + Hyphen(dashClose) + "%}") + Rewritten("", rest)
  {
    var s := OutputStatement(dashOpen, inner, dashClose);
    ReadsOutput(dashOpen, inner, dashClose, rest);
    PrintsTwo(s);
    Delimiters(dashOpen, TrimSpaces(inner), dashClose);
    hide Step, SegmentOk, TrimSpaces;
    ReplacedThere(pending, Print(s), rest, Step(Print(s) + rest));
    assert rest[0..] == rest;
  }

  lemma Delimiters(dashOpen: bool, text: string, dashClose: bool)
    ensures OutputOpen(dashOpen) + text + OutputClose(dashClose)
         == "{%" + Hyphen(dashOpen) + " __archival_out " + text + " " + Hyphen(dashClose) + "%}"
  {
    assert OutputOpen(dashOpen) == "{%" + Hyphen(dashOpen) + " __archival_out ";
    assert OutputClose(dashClose) == " " + Hyphen(dashClose) + "%}";
    Regrouped("{%" + Hyphen(dashOpen) + " __archival_out " + text, " ", Hyphen(dashClose), "%}");
  }

  lemma Regrouped(a: string, b: string, c: string, d: string)
    ensures a + (b + c + d) == a + b + c + d
  {
  }

  /* ---- What is not well formed ---- */

  /** No close is found for a tag, `b` being what follows its `{%`: on the lines of a `liquid` tag,
      anywhere for a comment, and outside literals for any other. */
  predicate Unclosed(b: string) {
    if IsInlineComment(b) then FindTagEnd(b).None?
    else if TagName(b) == "liquid" then LiquidEndFrom(LineStart, b[BodySkip(b) + 6..]).None?
    else if TagName(b) == "echo" then ScanTo(b[BodySkip(b) + 4..], "%}").None?
    else ScanTo(b, "%}").None?
  }

  lemma CommentHasNoName(b: string)
    requires IsInlineComment(b)
    ensures TagName(b) == ""
  {
  }

  /** An unclosed tag's delimiter is kept, and what follows is rewritten as though it were text. */
  lemma UnclosedTagIsKept(pending: string, b: string)
    requires TagName(b) != "raw" && Unclosed(b)
    ensures Rewritten(pending, "{%" + b) == Rewritten(pending + "{%", b)
  {
    if IsInlineComment(b) {
      CommentHasNoName(b);
    }
    NeverClosed(b);
    hide Unclosed, TagName, IsInlineComment, BodySkip, ScanTo, LiquidEndFrom, FindTagEnd, CloseOf, Step, RawSkip;
    StepOfTag(b);
    assert AtTag(b) == Verbatim(2);
    VerbatimSkipped(pending, "{%", b);
  }

  lemma NeverClosed(b: string)
    requires TagName(b) != "raw" && Unclosed(b)
    ensures if IsInlineComment(b) || Expandable(TagName(b)) then CloseOf(b).None? else ScanTo(b, "%}").None?
  {
    hide BodySkip, ScanTo, LiquidEndFrom, FindTagEnd;
    if IsInlineComment(b) {
      CommentHasNoName(b);
    }
  }

  /** An unclosed output leaves all the rest as it is. */
  lemma UnclosedOutputIsLast(pending: string, b: string)
    requires ScanTo(if b != "" && b[0] == '-' then b[1..] else b, "}}").None?
    ensures Rewritten(pending, "{{" + b) == pending + "{{" + b
  {
    assert b[0..] == b;
    hide ScanTo, Step, Spaces, TrimSpaces;
    StepOfOutput(b);
    assert AtOutput(b) == Stop;
    assert pending + ("{{" + b) == pending + "{{" + b;
  }

  lemma {:induction false} BlankScanned(t: string, rest: string)
    requires forall c | c in t :: !IsQuote(c) && c != '}'
    ensures ScanTo(t + ("}}" + rest), "}}") == Some(|t|)
    decreases |t|
  {
    var all := t + ("}}" + rest);
    if t == "" {
      assert all[..2] == "}}";
    } else {
      assert t[0] in t && all[..2][0] == t[0] && all[1..] == t[1..] + ("}}" + rest);
      BlankScanned(t[1..], rest);
    }
  }

  lemma {:induction false} AllSpaces(blank: string)
    requires AllLiquidWhitespace(blank)
    ensures Spaces(blank) == |blank|
    decreases |blank|
  {
    if blank != "" {
      assert blank[0] in blank;
      AllSpaces(blank[1..]);
    }
  }

  lemma BlankTrimmed(blank: string)
    requires AllLiquidWhitespace(blank)
    ensures TrimSpaces(blank) == ""
  {
    AllSpaces(blank);
    assert blank[|blank|..] == "";
  }

  lemma PlainBlank(blank: string, dashClose: bool)
    requires AllLiquidWhitespace(blank)
    ensures forall c | c in blank + Hyphen(dashClose) :: !IsQuote(c) && c != '}'
  {
    assert forall c | c in blank + Hyphen(dashClose) :: c in blank || c == '-';
  }

  /** An output with nothing in it is kept as it is. */
  lemma BlankOutputIsKept(dashOpen: bool, blank: string, dashClose: bool, pending: string, rest: string)
    requires AllLiquidWhitespace(blank) && (dashClose && blank == "" ==> dashOpen)
    ensures var part := "{{" + Hyphen(dashOpen) + (blank + Hyphen(dashClose)) + "}}";
            Rewritten(pending, part + rest) == Rewritten(pending + part, rest)
  {
    hide *;
    var inside := blank + Hyphen(dashClose);
    PlainBlank(blank, dashClose);
    BlankScanned(inside, rest);
    BlankTrimmed(blank);
    BlankEdges(blank, dashClose, rest);
    BlankStep(dashOpen, inside, if dashClose then |inside| - 1 else |inside|, rest);
    StepOfOutput(Hyphen(dashOpen) + (inside + ("}}" + rest)));
    BlankLayout(dashOpen, inside, rest);
    VerbatimSkipped(pending, "{{" + Hyphen(dashOpen) + inside + "}}", rest);
  }

  lemma BlankLayout(dashOpen: bool, inside: string, rest: string)
    ensures "{{" + Hyphen(dashOpen) + inside + "}}" + rest == "{{" + (Hyphen(dashOpen) + (inside + ("}}" + rest)))
    ensures |"{{" + Hyphen(dashOpen) + inside + "}}"| == |Hyphen(dashOpen)| + |inside| + 4
  {
    hide Hyphen;
  }

  lemma BlankStep(dashOpen: bool, inside: string, n: nat, rest: string)
    requires var t := inside + ("}}" + rest);
      && ScanTo(t, "}}") == Some(|inside|) && (!dashOpen ==> t[0] != '-')
      && n <= |inside| && TrimSpaces(t[..n]) == "" && n == if DashBefore(t, |inside|) then |inside| - 1 else |inside|
    ensures AtOutput(Hyphen(dashOpen) + (inside + ("}}" + rest))) == Verbatim(|Hyphen(dashOpen)| + |inside| + 4)
  {
    var t := inside + ("}}" + rest);
    var b := Hyphen(dashOpen) + t;
    assert StartsWithDash(b) == dashOpen && b[|Hyphen(dashOpen)|..] == t && |Hyphen(dashOpen)| == if dashOpen then 1 else 0;
    BlankMove(dashOpen, |Hyphen(dashOpen)|, t, |inside|);
    hide *;
    OutputInside(b);
  }

  lemma BlankMove(dash: bool, skip: nat, t: string, k: nat)
    requires k <= |t| && TrimSpaces(t[..if DashBefore(t, k) then k - 1 else k]) == ""
    ensures OutputMove(dash, skip, t, Some(k)) == Verbatim(skip + k + 4)
  {
    hide TrimSpaces, Spaces;
  }

  lemma BlankEdges(blank: string, dashClose: bool, rest: string)
    requires AllLiquidWhitespace(blank)
    ensures var inside := blank + Hyphen(dashClose);
      var t := inside + ("}}" + rest);
      && (blank != "" || !dashClose ==> t[0] != '-') && DashBefore(t, |inside|) == dashClose
      && (dashClose ==> |inside| > 0) && t[..if dashClose then |inside| - 1 else |inside|] == blank
  {
    var t := blank + Hyphen(dashClose) + ("}}" + rest);
    if blank != "" {
      assert blank[0] in blank && blank[|blank| - 1] in blank;
      assert t[0] == blank[0] && t[|blank| - 1] == blank[|blank| - 1];
    }
    assert t[..|blank|] == blank;
  }

  /** No tag in the text is called `endraw`, wherever one is read. */
  predicate NoEndraw(t: string) {
    forall i | 0 <= i < |t| - 1 && t[i] == '{' && t[i + 1] == '%' :: TagName(t[i + 2..]) != "endraw"
  }

  lemma NoEndrawLater(t: string, k: nat)
    requires NoEndraw(t) && k <= |t|
    ensures NoEndraw(t[k..])
  {
    forall i | 0 <= i < |t[k..]| - 1 && t[k..][i] == '{' && t[k..][i + 1] == '%'
      ensures TagName(t[k..][i + 2..]) != "endraw"
    {
      assert t[k..][i] == t[k + i] && t[k..][i + 1] == t[k + i + 1] && t[k..][i + 2..] == t[k + i + 2..];
    }
  }

  lemma {:induction false} NoEndrawNoTail(t: string)
    requires NoEndraw(t)
    ensures RawTail(t) == |t|
    decreases |t|
  {
    hide TagName, ScanTo;
    if |t| >= 2 {
      NoEndrawLater(t, 1);
      NoEndrawLater(t, 2);
      assert t[..2] == "{%" ==> t[0] == t[..2][0] && t[1] == t[..2][1];
      NoEndrawNoTail(t[1..]);
      NoEndrawNoTail(t[2..]);
      if ScanTo(t[2..], "%}").Some? {
        NoEndrawLater(t, ScanTo(t[2..], "%}").value + 4);
        NoEndrawNoTail(t[ScanTo(t[2..], "%}").value + 4..]);
      }
    }
  }

  /** A raw tag with no `endraw` after it leaves all the rest as it is. */
  lemma UnclosedRawIsLast(pending: string, b: string)
    requires TagName(b) == "raw" && NoEndraw(match ScanTo(b, "%}") case Some(k) => b[k + 2..] case None => b)
    ensures Rewritten(pending, "{%" + b) == pending + "{%" + b
  {
    hide TagName, ScanTo, Step, AtTag, RawTail;
    StepOfTag(b);
    AtUnclosedRaw(b);
    var all := "{%" + b;
    assert all + "" == all;
    VerbatimSkipped(pending, all, "");
    assert pending + all + "" == pending + "{%" + b;
  }

  lemma AtUnclosedRaw(b: string)
    requires TagName(b) == "raw" && NoEndraw(match ScanTo(b, "%}") case Some(k) => b[k + 2..] case None => b)
    ensures AtTag(b) == Verbatim(2 + |b|)
  {
    hide TagName, ScanTo, RawTail, NoEndraw, InPlace;
    match ScanTo(b, "%}")
    case Some(k) => NoEndrawNoTail(b[k + 2..]);
    case None => NoEndrawNoTail(b);
  }

  /* ---- Characters ---- */

  /** A string literal hides the delimiters in it, in either kind of quote. */
  lemma {:induction false} LiteralHides(quote: char, inner: string, rest: string, close: string)
    requires quote in ['\'', '"'] && quote !in inner && close in ["%}", "}}"]
    ensures ScanFrom(None, [quote] + inner + [quote] + rest, close) == Shift(ScanFrom(None, rest, close), |inner| + 2)
  {
    var t := [quote] + inner + [quote] + rest;
    assert t[1..] == inner + [quote] + rest && t[0] == quote;
    assert !Starts(t, close) by {
      assert |t| >= 2 ==> t[..2][0] == t[0];
    }
    InLiteral(quote, inner, rest, close);
    assert ScanFrom(None, t, close) == Shift(ScanFrom(Some(quote), t[1..], close), 1);
  }

  lemma {:induction false} InLiteral(quote: char, inner: string, rest: string, close: string)
    requires quote !in inner
    ensures ScanFrom(Some(quote), inner + [quote] + rest, close) == Shift(ScanFrom(None, rest, close), |inner| + 1)
    decreases |inner|
  {
    var t := inner + [quote] + rest;
    InsideOne(quote, t, close);
    FirstOfThree(inner, quote, rest);
    hide ScanFrom;
    if inner != "" {
      assert inner[0] in inner;
      InLiteral(quote, inner[1..], rest, close);
    }
  }

  lemma FirstOfThree(a: string, c: char, b: string)
    ensures var t := a + [c] + b;
            if a == "" then t[0] == c && t[1..] == b else t[0] == a[0] && t[1..] == a[1..] + [c] + b
  {
    var t := a + [c] + b;
    assert a == "" ==> t == [c] + b;
  }

  lemma InsideOne(quote: char, t: string, close: string)
    requires t != ""
    ensures ScanFrom(Some(quote), t, close) == Shift(ScanFrom(if t[0] == quote then None else Some(quote), t[1..], close), 1)
  {
    hide Starts;
  }

  /* ---- Where a `liquid` tag closes ---- */

  /** Where a text met on such a line closes the tag. */
  function EndFrom(l: Line, t: string): Option<nat> {
    LiquidEndFrom(l, t)
  }

  /** A close delimiter closes the tag on any line, and everywhere but in a string literal. */
  lemma ClosesUnlessQuoted(l: Line, after: string)
    ensures EndFrom(l, "%}" + after) == Some(0) <==> !l.Literal?
  {
    var t := "%}" + after;
    assert t[..2] == "%}";
  }

  /** No delimiter closes in a text, nor across its end. */
  predicate NothingCloses(text: string, after: string) {
    forall i | 0 <= i < |text| :: !ClosesHere(text + after, i)
  }

  predicate ClosesHere(t: string, i: nat) {
    i + 1 < |t| && t[i] == '%' && t[i + 1] == '}'
  }

  lemma NextChar(l: Line, c: char, t: string)
    requires l.Literal? || !ClosesHere([c] + t, 0)
    ensures EndFrom(l, [c] + t) == Shift(EndFrom(AfterLineChar(l, c), t), 1)
  {
    var all := [c] + t;
    assert all[1..] == t;
    if Starts(all, "%}") {
      assert all[0] == all[..2][0] && all[1] == all[..2][1];
    }
  }

  lemma NothingClosesLater(text: string, after: string)
    requires text != "" && NothingCloses(text, after)
    ensures NothingCloses(text[1..], after) && !ClosesHere([text[0]] + (text[1..] + after), 0)
  {
    var t, later := text + after, text[1..] + after;
    assert t == [text[0]] + later;
    assert !ClosesHere(t, 0);
    forall i | 0 <= i < |text[1..]|
      ensures !ClosesHere(later, i)
    {
      assert !ClosesHere(t, i + 1);
      assert later[i] == t[i + 1] && (i + 1 < |later| ==> later[i + 1] == t[i + 2]);
    }
  }

  /** Text that neither moves on to another kind of place nor closes is read over. */
  lemma {:induction false} Stays(l: Line, text: string, after: string)
    requires (forall i | 0 <= i < |text| :: AfterLineChar(l, text[i]) == l) && (l.Literal? || NothingCloses(text, after))
    ensures EndFrom(l, text + after) == Shift(EndFrom(l, after), |text|)
    decreases |text|
  {
    hide NothingCloses, ClosesHere, EndFrom;
    if text == "" {
      assert text + after == after;
    } else {
      if !l.Literal? {
        NothingClosesLater(text, after);
      }
      assert text + after == [text[0]] + (text[1..] + after);
      NextChar(l, text[0], text[1..] + after);
      Stays(l, text[1..], after);
    }
  }

  lemma NoPercent(text: string, after: string)
    requires forall i | 0 <= i < |text| :: text[i] != '%'
    ensures NothingCloses(text, after) && (text != "" ==> !ClosesHere(text + after, 0))
  {
    assert forall i | 0 <= i < |text| :: (text + after)[i] == text[i];
  }

  lemma NextOrdinary(l: Line, c: char, t: string)
    requires c != '%'
    ensures EndFrom(l, [c] + t) == Shift(EndFrom(AfterLineChar(l, c), t), 1)
  {
    hide EndFrom;
    NoPercent([c], t);
    NextChar(l, c, t);
  }

  /** Words of a statement close nothing, and a newline ends it. */
  lemma StatementIsRead(text: string, after: string)
    requires (forall i | 0 <= i < |text| :: text[i] !in ['\'', '"', '\n']) && NothingCloses(text, after)
    ensures EndFrom(Statement, text + after) == Shift(EndFrom(Statement, after), |text|)
    ensures EndFrom(Statement, "\n" + after) == Shift(EndFrom(LineStart, after), 1)
  {
    hide EndFrom, NothingCloses;
    Stays(Statement, text, after);
    NextOrdinary(Statement, '\n', after);
  }

  /** A string literal of a statement hides what it holds, newlines and delimiters included. */
  lemma LiteralIsSkipped(l: Line, quote: char, inner: string, after: string)
    requires l in [LineStart, Statement] && quote in ['\'', '"'] && quote !in inner
    ensures EndFrom(l, [quote] + (inner + ([quote] + after))) == Shift(EndFrom(Statement, after), |inner| + 2)
  {
    assert AfterLineChar(l, quote) == Literal(quote);
    hide EndFrom, AfterLineChar;
    InsideLiteral(quote, inner, after);
    NextOrdinary(l, quote, inner + ([quote] + after));
  }

  lemma InsideLiteral(quote: char, inner: string, after: string)
    requires quote != '%' && quote !in inner
    ensures EndFrom(Literal(quote), inner + ([quote] + after)) == Shift(EndFrom(Statement, after), |inner| + 1)
  {
    var closing := [quote] + after;
    forall i | 0 <= i < |inner|
      ensures AfterLineChar(Literal(quote), inner[i]) == Literal(quote)
    {
      assert inner[i] in inner;
    }
    assert AfterLineChar(Literal(quote), quote) == Statement;
    hide EndFrom, AfterLineChar;
    NextOrdinary(Literal(quote), quote, after);
    Stays(Literal(quote), inner, closing);
  }

  /** A comment line is skipped up to its newline, and its quotes open nothing. */
  lemma CommentIsSkipped(text: string, after: string)
    requires '\n' !in text && NothingCloses(text, "\n" + after)
    ensures EndFrom(CommentLine, text + ("\n" + after)) == Shift(EndFrom(LineStart, after), |text| + 1)
  {
    hide EndFrom, NothingCloses;
    var ending := "\n" + after;
    forall i | 0 <= i < |text|
      ensures AfterLineChar(CommentLine, text[i]) == CommentLine
    {
      assert text[i] in text;
    }
    NextOrdinary(CommentLine, '\n', after);
    Stays(CommentLine, text, ending);
  }

  /** Indentation is passed over. */
  lemma IndentIsSkipped(indent: string, after: string)
    requires forall i | 0 <= i < |indent| :: indent[i] == ' ' || indent[i] == '\t' || indent[i] == '\r'
    ensures EndFrom(LineStart, indent + after) == Shift(EndFrom(LineStart, after), |indent|)
  {
    NoPercent(indent, after);
    hide EndFrom, NothingCloses, ClosesHere;
    Stays(LineStart, indent, after);
  }

  /** A line's first mark after its indentation makes it a comment if it is `#`, else a statement. */
  lemma MarkOpens(c: char, t: string)
    requires c !in [' ', '\t', '\r', '\n', '\'', '"'] && !ClosesHere([c] + t, 0)
    ensures EndFrom(LineStart, [c] + t) == Shift(EndFrom(if c == '#' then CommentLine else Statement, t), 1)
  {
    hide EndFrom, ClosesHere;
    NextChar(LineStart, c, t);
  }

  /** A line of nothing but indentation opens nothing. */
  lemma BlankLineOpensNothing(after: string)
    ensures EndFrom(LineStart, "\n" + after) == Shift(EndFrom(LineStart, after), 1)
  {
    hide EndFrom;
    NextOrdinary(LineStart, '\n', after);
  }

  /** Everything else leaves a text outside literals. */
  lemma OnlyQuotesOpen(c: char)
    ensures AfterChar(None, c) == (if c == '\'' || c == '"' then Some(c) else None)
  {
  }

  /** Liquid's own white space leaves out the tab. */
  lemma SpacesOf(c: char)
    ensures Spaces([c]) == (if c in [' ', '\n', '\r'] then 1 else 0)
  {
  }

  /** The name of a tag is the letters, digits, `_` and `-` after its hyphen and white space. */
  lemma {:induction false} NameOf(name: string, after: string)
    requires forall i | 0 <= i < |name| ::
               var c := name[i] as int; 97 <= c <= 122 || 65 <= c <= 90 || 48 <= c <= 57 || c == 95 || c == 45
    requires after != "" ==>
               var c := after[0] as int; !(97 <= c <= 122 || 65 <= c <= 90 || 48 <= c <= 57 || c == 95 || c == 45)
    ensures NameLength(name + after) == |name|
    decreases |name|
  {
    if name == "" {
      assert name + after == after;
    } else {
      assert (name + after)[1..] == name[1..] + after;
      NameOf(name[1..], after);
    }
  }

  /** The bytes of a character in UTF-8, for characters of up to three. */
  function Utf8(code: nat): string
    requires code < 0xD800
  {
    if code < 0x80 then [code as char]
    else if code < 0x800 then [(0xC0 + code / 64) as char, (0x80 + code % 64) as char]
    else [(0xE0 + code / 4096) as char, (0x80 + code / 64 % 64) as char, (0x80 + code % 64) as char]
  }

  /** The characters Unicode counts as white space. */
  const WHITE_SPACE: seq<nat> := [
    0x9, 0xA, 0xC, 0xD, 0x20, 0xB, 0x85, 0xA0, 0x1680, 0x2000, 0x2001, 0x2002, 0x2003, 0x2004, 0x2005, 0x2006,
    0x2007, 0x2008, 0x2009, 0x200A, 0x2028, 0x2029, 0x202F, 0x205F, 0x3000]

  lemma WideSpacesAreUtf8(i: nat)
    requires 5 <= i < |WHITE_SPACE|
    ensures WHITE_SPACE[i] < 0xD800 && WideSpaces()[i - 5] == Utf8(WHITE_SPACE[i])
  {
  }

  /** What `trim` takes off are the encodings of just those characters. */
  lemma SpaceIsUnicode(w: string)
    ensures IsSpace(w) <==> exists i :: 0 <= i < |WHITE_SPACE| && WHITE_SPACE[i] < 0xD800 && w == Utf8(WHITE_SPACE[i])
  {
    hide Utf8, WideSpaces;
    AsciiSpaces(w);
    assert |WideSpaces()| == 20 by {
      HowMany();
    }
    if w in WideSpaces() {
      var k :| 0 <= k < 20 && WideSpaces()[k] == w;
      WideSpacesAreUtf8(k + 5);
    }
    if i :| 0 <= i < |WHITE_SPACE| && WHITE_SPACE[i] < 0xD800 && w == Utf8(WHITE_SPACE[i]) {
      if i >= 5 {
        WideSpacesAreUtf8(i);
        assert w in WideSpaces();
      }
    }
  }

  lemma HowMany()
    ensures |WideSpaces()| == 20
  {
  }

  lemma AsciiSpaces(w: string)
    ensures (|w| == 1 && IsAsciiWhitespace(w[0])) <==> exists i :: 0 <= i < 5 && WHITE_SPACE[i] < 0xD800 && w == Utf8(WHITE_SPACE[i])
  {
    assert Utf8(WHITE_SPACE[0]) == "\t" && Utf8(WHITE_SPACE[1]) == "\n" && Utf8(WHITE_SPACE[2]) == "\U{C}";
    assert Utf8(WHITE_SPACE[3]) == "\r" && Utf8(WHITE_SPACE[4]) == " ";
    if |w| == 1 && IsAsciiWhitespace(w[0]) {
      assert w == [w[0]];
    }
  }
}
