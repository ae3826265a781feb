/** Two well-formed templates that a second rewriting changes again, each for one of the reasons
    `Settles` rules out. */
module LiquidUnsettled {
  import opened Wrappers
  import opened LiquidText
  import opened LiquidScanners
  import opened LiquidRewrites
  import opened LiquidTemplates
  import opened LiquidReadings
  import opened LiquidSettled

  lemma TrimmedBetween(x: string)
    requires x != "" && !IsLiquidWhitespace(x[0]) && !IsLiquidWhitespace(x[|x| - 1])
    ensures TrimSpaces(" " + (x + " ")) == x
  {
    assert (" " + (x + " "))[1..] == x + " " && (x + " ")[0] == x[0];
    assert Spaces(x + " ") == 0;
    assert (x + " ")[..|x + " "| - 1] == x;
  }

  /** An output statement of plain words. */
  lemma PlainOutputOk(x: string)
    requires x != "" && !IsLiquidWhitespace(x[0]) && !IsLiquidWhitespace(x[|x| - 1])
    requires forall i | 0 <= i < |x| :: !IsQuote(x[i])
    requires forall i | 0 <= i < |x| - 1 && x[i] == '}' :: x[i + 1] != '}'
    ensures SegmentOk(OutputStatement(false, " " + (x + " "), false))
    ensures TrimSpaces(" " + (x + " ")) == x
  {
    hide Spaces, TrimEndSpaces, TrimSpaces, Closed, ScanFrom;
    TrimmedBetween(x);
    var inner := " " + (x + " ");
    assert inner + Dash(false) == inner;
    assert inner[0] == ' ' && inner[|inner| - 1] == ' ';
    UnquotedCloses(inner);
  }

  lemma UnquotedCloses(t: string)
    requires forall i | 0 <= i < |t| :: !IsQuote(t[i])
    requires forall i | 0 <= i < |t| - 1 && t[i] == '}' :: t[i + 1] != '}'
    requires t != "" && t[|t| - 1] != '}'
    ensures Closed(t, "}}")
  {
    UnquotedScan(t, "}}");
    ScanPast(None, t, "}}", "}}");
    assert "}}"[..2] == "}}";
  }

  lemma {:induction false} UnquotedScan(t: string, close: string)
    requires |close| == 2
    requires forall i | 0 <= i < |t| :: !IsQuote(t[i])
    requires forall i | 0 <= i < |t| - 1 && t[i] == close[0] :: t[i + 1] != close[1]
    ensures ScanFrom(None, t, close).None? && AfterText(None, t).None?
    decreases |t|
  {
    if t != "" {
      assert |t| >= 2 ==> t[..2] == [t[0], t[1]];
      assert !Starts(t, close);
      UnquotedScan(t[1..], close);
    }
  }

  lemma OutputRewritten(pending: string, x: string, rest: string)
    requires x != "" && !IsLiquidWhitespace(x[0]) && !IsLiquidWhitespace(x[|x| - 1])
    requires forall i | 0 <= i < |x| :: !IsQuote(x[i])
    requires forall i | 0 <= i < |x| - 1 && x[i] == '}' :: x[i + 1] != '}'
    ensures Rewritten(pending, "{{ " + x + " }}" + rest) == pending + ("{% __archival_out " + x + " %}") + Rewritten("", rest)
  {
    hide TrimSpaces, Rewritten, Step, Spaces, SegmentOk;
    var inner := " " + (x + " ");
    var s := OutputStatement(false, inner, false);
    var m := Replace(|Print(s)|, false, Output(false, |Dash(false)| + Spaces(inner), x, false));
    PlainOutputOk(x);
    PrintedOutput(x);
    ReadsOutput(false, inner, false, rest);
    ReplacedThere(pending, Print(s), rest, m);
    assert rest[0..] == rest;
    OutputReads(m.body);
  }

  lemma PrintedOutput(x: string)
    ensures Print(OutputStatement(false, " " + (x + " "), false)) == "{{ " + x + " }}"
  {
  }

  lemma OutputReads(body: Body)
    requires body.Output? && !body.dashOpen && !body.dashClose
    ensures BodyText(body) == "{% __archival_out " + body.text + " %}"
  {
  }

  lemma TextRewritten(text: string)
    requires Plain(text)
    ensures Rewritten("", text) == text
  {
    TextSkipped("", text, "");
    assert text + "" == text && "" + text == text;
  }

  const COMMENT := Special(Comment, true, " ", " c ", true)

  lemma CommentOk()
    ensures SegmentOk(COMMENT) && Print(COMMENT) == "{%- # c -%}"
  {
    hide FindTagEnd;
    CommentInside();
    CommentEnds();
    assert COMMENT.gap == " " && AllLiquidWhitespace(COMMENT.gap);
    CommentPrints();
  }

  lemma CommentEnds()
    ensures FindTagEnd("- # c -%}") == Some(7)
  {
    TagEndIsFirst("- # c -%}");
  }

  lemma CommentPrints()
    ensures "{%" + "- # c -%}" == "{%- # c -%}"
  {
  }

  lemma CommentInside()
    ensures SpecialInside(COMMENT) == "- # c -%}"
  {
    assert "-" + (" " + ("#" + (" c " + "-" + "%}"))) == "- # c -%}";
  }

  lemma CommentRewritten(pending: string, rest: string)
    ensures Rewritten(pending, "{%- # c -%}" + rest) == TrimEndSpaces(pending) + Rewritten("", rest[Spaces(rest)..])
  {
    hide Rewritten, Step, Spaces, TrimEndSpaces, Print, SpecialOk;
    CommentOk();
    SpecialIsOk(COMMENT);
    ReadsSpecial(COMMENT, rest);
    ReplacedThere(pending, Print(COMMENT), rest, Replace(|Print(COMMENT)| + Spaces(rest), true, Nothing));
  }

  lemma BraceIsPlain()
    ensures Plain("{ ") && !EndsWith("{ ", '{')
  {
  }

  lemma JoinedOnce()
    ensures Rewritten("", "{ " + ("{%- # c -%}" + " { x }}")) == "{{ x }}"
  {
    BraceIsPlain();
    hide Rewritten, TrimEndSpaces, Plain, EndsWith;
    TextSkipped("", "{ ", "{%- # c -%}" + " { x }}");
    assert "" + "{ " == "{ ";
    CommentRewritten("{ ", " { x }}");
    BraceTrimmed();
    assert " { x }}"[1..] == "{ x }}";
    TextRewritten("{ x }}");
  }

  lemma JoinedTwice()
    ensures Rewritten("", "{{ " + "x" + " }}" + "") == "{% __archival_out x %}"
  {
    hide Rewritten;
    OutputRewritten("", "x", "");
    TextRewritten("");
  }

  /** Removing a comment joins the braces around it. */
  lemma CommentJoinsBraces()
    ensures Rewritten("", "{ {%- # c -%} { x }}") == "{{ x }}"
    ensures Rewritten("", "{{ x }}") == "{% __archival_out x %}"
  {
    hide Rewritten;
    JoinedOnce();
    JoinedTwice();
    assert "{ {%- # c -%} { x }}" == "{ " + ("{%- # c -%}" + " { x }}");
    assert "{{ " + "x" + " }}" + "" == "{{ x }}";
  }

  lemma BraceTrimmed()
    ensures TrimEndSpaces("{ ") == "{"
  {
    assert "{ "[..1] == "{";
  }

  lemma FirstTime()
    ensures Rewritten("", "{{ a %}{{ b }} c }}") == "{% __archival_out a %}{{ b %} c }}"
  {
    hide Rewritten;
    OutputRewritten("", "a %}{{ b", " c }}");
    TextRewritten(" c }}");
    assert "{{ " + "a %}{{ b" + " }}" + " c }}" == "{{ a %}{{ b }} c }}";
    assert "" + ("{% __archival_out " + "a %}{{ b" + " %}") + " c }}" == "{% __archival_out a %}{{ b %} c }}";
  }

  lemma SecondTime()
    ensures Rewritten("", "{% __archival_out a %}" + "{{ b %} c }}") == "{% __archival_out a %}" + "{% __archival_out b %} c %}"
  {
    hide Rewritten;
    TagSkipped("{{ b %} c }}");
    OutputRewritten("{% __archival_out a %}", "b %} c", "");
    TextRewritten("");
    assert "{{ " + "b %} c" + " }}" + "" == "{{ b %} c }}";
    assert "{% __archival_out " + "b %} c" + " %}" == "{% __archival_out b %} c %}";
  }

  lemma TagSkipped(rest: string)
    ensures Rewritten("", "{% __archival_out a %}" + rest) == Rewritten("{% __archival_out a %}", rest)
  {
    hide Step, OutputTagBody, SegmentOk, Rewritten, Print;
    var tag := Tag(OutputTagBody(false, "a", false));
    UnquotedScan("a", "%}");
    OutputTagOk(false, "a", false);
    OutputTagPrints(false, "a", false);
    assert OutputOpen(false) + "a" + OutputClose(false) == "{% __archival_out a %}";
    ReadsTag(OutputTagBody(false, "a", false), rest);
    VerbatimSkipped("", Print(tag), rest);
    assert "" + Print(tag) == Print(tag);
  }

  /** An output statement whose text holds a `%}` closes early as a tag, and what is left of it
      opens another statement. */
  lemma CloseInsideOutput()
    ensures Rewritten("", "{{ a %}{{ b }} c }}") == "{% __archival_out a %}{{ b %} c }}"
    ensures Rewritten("", "{% __archival_out a %}{{ b %} c }}") == "{% __archival_out a %}{% __archival_out b %} c %}"
  {
    hide Rewritten;
    FirstTime();
    SecondTime();
    assert "{% __archival_out a %}" + "{{ b %} c }}" == "{% __archival_out a %}{{ b %} c }}";
    assert "{% __archival_out a %}" + "{% __archival_out b %} c %}" == "{% __archival_out a %}{% __archival_out b %} c %}";
  }
}
