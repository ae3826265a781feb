/** The rewriter: what it does at one place in a source, the pieces of the whole rewritten text,
    and the loop that produces text and anchors. */
module LiquidRewrites {
  import opened Wrappers
  import opened LiquidText
  import opened LiquidScanners
  import opened LiquidAnchors

  const OUTPUT_TAG := "__archival_out"

  /** What replaces a statement: `text` is the part of it that is kept, `skip` past its opening
      delimiter. */
  datatype Body =
    | Nothing
    | Output(dashOpen: bool, skip: nat, text: string, dashClose: bool)
    | Statements(skip: nat, text: string)
    | Echo(skip: nat, text: string)

  datatype Move =
    | Verbatim(n: nat)
    | Replace(n: nat, trim: bool, body: Body)
    | Stop

  /** A move stays within the text, and its body is where it says. */
  predicate InPlace(m: Move, b: string) {
    match m
    case Stop => true
    case Verbatim(n) => 0 < n <= |b| + 2
    case Replace(n, _, body) => 
      2 <= n <= |b| + 2 && (body.Nothing? || (body.skip + |body.text| + 2 <= n && b[body.skip..body.skip + |body.text|] == body.text))
  }

  predicate Expandable(name: string) {
    name == "liquid" || name == "echo"
  }

  function StartsWithDash(b: string): bool {
    b != "" && b[0] == '-'
  }

  /** The close of a comment, `liquid` or `echo` tag. */
  function CloseOf(b: string): (at: Option<nat>)
    ensures at.Some? ==> at.value + 2 <= |b|
    ensures at.Some? && Expandable(TagName(b)) ==> BodySkip(b) + |TagName(b)| <= at.value
  {
    var start := BodySkip(b) + |TagName(b)|;
    if TagName(b) == "liquid" then Shift(LiquidEndFrom(LineStart, b[start..]), start)
    else if TagName(b) == "echo" then Shift(ScanTo(b[start..], "%}"), start)
    else FindTagEnd(b)
  }

  function DashBefore(b: string, close: nat): bool
    requires close <= |b|
  {
    close > 0 && b[close - 1] == '-'
  }

  /** A tag, read from just past its `{%`. */
  function AtTag(b: string): (m: Move)
    ensures InPlace(m, b)
  {
    hide RawSkip, Spaces, BodySkip, TagName, ScanTo, CloseOf;
    if TagName(b) == "raw" then Verbatim(2 + RawSkip(b))
    else if IsInlineComment(b) || Expandable(TagName(b)) then
      match CloseOf(b)
      case None => Verbatim(2)
      case Some(close) =>
        var next := close + 2 + if DashBefore(b, close) then Spaces(b[close + 2..]) else 0;
        Replace(2 + next, StartsWithDash(b), TagBody(b, close))
    else
      match ScanTo(b, "%}")
      case None => Verbatim(2)
      case Some(close) => Verbatim(close + 4)
  }

  /** A hyphen right before the close is never the tag name's, so the body does not end before
      it starts. */
  lemma BodyInRange(b: string, close: nat)
    requires CloseOf(b) == Some(close) && Expandable(TagName(b))
    ensures BodySkip(b) + |TagName(b)| <= if DashBefore(b, close) then close - 1 else close
  {
    var name, start := TagName(b), BodySkip(b);
    assert b[start + |name| - 1] == name[|name| - 1] != '-';
  }

  function TagBody(b: string, close: nat): (body: Body)
    requires CloseOf(b) == Some(close)
    ensures body.Nothing? || (body.skip + |body.text| <= close && b[body.skip..body.skip + |body.text|] == body.text)
  {
    if Expandable(TagName(b)) then
      BodyInRange(b, close);
      var start := BodySkip(b) + |TagName(b)|;
      var body := b[start..if DashBefore(b, close) then close - 1 else close];
      if TagName(b) == "liquid" then Statements(start, body) else Echo(start, body)
    else Nothing
  }

  /** An output statement, read from just past its `{{`. */
  function AtOutput(b: string): (m: Move)
    ensures InPlace(m, b)
  {
    hide Spaces, TrimEndSpaces, ScanTo;
    var start := if StartsWithDash(b) then 1 else 0;
    match ScanTo(b[start..], "}}")
    case None => Stop
    case Some(k) =>
      var dash := DashBefore(b[start..], k);
      var raw := b[start..start + if dash then k - 1 else k];
      if TrimSpaces(raw) == "" then Verbatim(start + k + 4)
      else Replace(start + k + 4, false, Output(StartsWithDash(b), start + Spaces(raw), TrimSpaces(raw), dash))
  }

  /** What the rewriter does where `rest` begins. */
  function Step(rest: string): (m: Move)
    requires |rest| >= 2
    ensures InPlace(m, rest[2..])
  {
    if rest[0] != '{' then Verbatim(1)
    else if rest[1] == '%' then AtTag(rest[2..])
    else if rest[1] == '{' then AtOutput(rest[2..])
    else Verbatim(1)
  }

  /* ---- What a statement becomes: its text, and where that text is copied from ---- */

  function OutputOpen(dash: bool): string {
    if dash then "{%- " + OUTPUT_TAG + " " else "{% " + OUTPUT_TAG + " "
  }

  function OutputClose(dash: bool): string {
    if dash then " -%}" else " %}"
  }

  /** What follows the word `echo`, trimmed, if the statement is that word and a break. */
  function EchoArgument(statement: string): Option<string> {
    if Starts(statement, "echo") && (|statement| == 4 || IsAsciiWhitespace(statement[4])) then Some(Trim(statement[4..]))
    else None
  }

  function EchoText(expression: string): string {
    if expression == "" then "" else OutputOpen(false) + expression + OutputClose(false)
  }

  function EchoPieces(expression: string, at: nat): seq<Piece> {
    if expression == "" then []
    else [Inserted(OutputOpen(false)), Copied(at, at + |expression|), Inserted(OutputClose(false))]
  }

  predicate IsSilent(statement: string) {
    statement == "" || statement[0] == '#'
  }

  function StatementText(line: string): string {
    var statement := Trim(line);
    if IsSilent(statement) then ""
    else
      match EchoArgument(statement)
      case Some(expression) => EchoText(expression)
      case None => "{% " + statement + " %}"
  }

  function StatementPieces(line: string, start: nat): seq<Piece> {
    var statement, at := Trim(line), start + LeadingWhitespace(line);
    if IsSilent(statement) then []
    else
      match EchoArgument(statement)
      case Some(expression) => EchoPieces(expression, at + if |expression| <= |statement| then |statement| - |expression| else 0)
      case None => [Inserted("{% "), Copied(at, at + |statement|), Inserted(" %}")]
  }

  /** The length of the first line, its newline included. */
  function LineLength(t: string): (n: nat)
    ensures n <= |t| && (t != "" ==> n > 0)
  {
    if t == "" then 0 else if t[0] == '\n' then 1 else 1 + LineLength(t[1..])
  }

  function LinesText(t: string): string {
    if t == "" then "" else StatementText(t[..LineLength(t)]) + LinesText(t[LineLength(t)..])
  }

  function LinesPieces(t: string, start: nat): seq<Piece>
    decreases |t|
  {
    if t == "" then []
    else StatementPieces(t[..LineLength(t)], start) + LinesPieces(t[LineLength(t)..], start + LineLength(t))
  }

  function BodyText(body: Body): string {
    match body
    case Nothing => ""
    case Output(dashOpen, _, text, dashClose) => OutputOpen(dashOpen) + text + OutputClose(dashClose)
    case Statements(_, text) => LinesText(text)
    case Echo(_, text) => EchoText(Trim(text))
  }

  /** `at` is just past the statement's opening delimiter. */
  function BodyPieces(body: Body, at: nat): seq<Piece> {
    match body
    case Nothing => []
    case Output(dashOpen, skip, text, dashClose) =>
      [Inserted(OutputOpen(dashOpen)), Copied(at + skip, at + skip + |text|), Inserted(OutputClose(dashClose))]
    case Statements(skip, text) => LinesPieces(text, at + skip)
    case Echo(skip, text) => EchoPieces(Trim(text), at + skip + LeadingWhitespace(text))
  }

  /** Pieces that read a stretch of the source and spell out a text. */
  ghost predicate Spell(source: string, pieces: seq<Piece>, start: nat, end: nat, text: string) {
    && Ordered(pieces, start, end) && end <= |source|
    && (forall p | p in pieces && p.Copied? :: p.from <= p.to <= |source|)
    && Flatten(source, pieces) == text
  }

  lemma SpellConcat(source: string, a: seq<Piece>, b: seq<Piece>, start: nat, middle: nat, end: nat, s: string, t: string)
    requires Spell(source, a, start, middle, s) && Spell(source, b, middle, end, t)
    ensures Spell(source, a + b, start, end, s + t)
  {
    OrderedConcat(a, b, start, middle, end);
    FlattenConcat(source, a, b);
  }

  lemma SpellInserted(source: string, text: string, at: nat)
    requires at <= |source|
    ensures Spell(source, [Inserted(text)], at, at, text)
  {
    assert [Inserted(text)][1..] == [];
  }

  lemma SpellCopied(source: string, from: nat, to: nat)
    requires from <= to <= |source|
    ensures Spell(source, [Copied(from, to)], from, to, source[from..to])
  {
    assert [Copied(from, to)][1..] == [];
  }

  lemma SpellOne(source: string, open: string, at: nat, text: string, close: string, start: nat, end: nat)
    requires start <= at && at + |text| <= end <= |source| && source[at..at + |text|] == text
    ensures Spell(source, [Inserted(open), Copied(at, at + |text|), Inserted(close)], start, end, open + text + close)
  {
    hide Spell;
    var to := at + |text|;
    SpellInserted(source, open, at);
    SpellCopied(source, at, to);
    SpellInserted(source, close, to);
    SpellConcat(source, [Inserted(open)], [Copied(at, to)], at, at, to, open, text);
    SpellConcat(source, [Inserted(open)] + [Copied(at, to)], [Inserted(close)], at, to, to, open + text, close);
    assert [Inserted(open)] + [Copied(at, to)] + [Inserted(close)] == [Inserted(open), Copied(at, to), Inserted(close)];
    Widen(source, [Inserted(open), Copied(at, to), Inserted(close)], at, to, open + text + close, start, end);
  }

  lemma SpellNothing(source: string, start: nat, end: nat)
    requires start <= end <= |source|
    ensures Spell(source, [], start, end, "")
  {
  }

  lemma EchoSpelled(source: string, expression: string, at: nat, start: nat, end: nat)
    requires start <= at && at + |expression| <= end <= |source| && source[at..at + |expression|] == expression
    ensures Spell(source, EchoPieces(expression, at), start, end, EchoText(expression))
  {
    hide Spell;
    if expression == "" {
      SpellNothing(source, start, end);
    } else {
      SpellOne(source, OutputOpen(false), at, expression, OutputClose(false), start, end);
    }
  }

  lemma SliceOfSlice(source: string, start: nat, t: string, from: nat, to: nat)
    requires start + |t| <= |source| && source[start..start + |t|] == t && from <= to <= |t|
    ensures source[start + from..start + to] == t[from..to]
  {
    var a, b := source[start + from..start + to], t[from..to];
    forall k | 0 <= k < to - from
      ensures a[k] == b[k]
    {
      assert b[k] == source[start..start + |t|][from + k];
    }
  }

  lemma StatementSpelled(source: string, line: string, start: nat)
    requires start + |line| <= |source| && source[start..start + |line|] == line
    ensures Spell(source, StatementPieces(line, start), start, start + |line|, StatementText(line))
  {
    hide Trim, LeadingWhitespace, Spell, SpaceAtEnd, TrimEnd, EchoArgument, EchoPieces, EchoText;
    var statement, lead := Trim(line), LeadingWhitespace(line);
    SliceOfSlice(source, start, line, lead, lead + |statement|);
    if IsSilent(statement) {
      SpellNothing(source, start, start + |line|);
    } else if EchoArgument(statement).Some? {
      var expression := EchoArgument(statement).value;
      EchoIsSuffix(statement);
      SliceOfSlice(source, start + lead, statement, |statement| - |expression|, |statement|);
      EchoSpelled(source, expression, start + lead + |statement| - |expression|, start, start + |line|);
    } else {
      SpellOne(source, "{% ", start + lead, statement, " %}", start, start + |line|);
    }
  }

  /** The end of a statement is trimmed already, so its expression reaches to that end. */
  lemma EchoIsSuffix(statement: string)
    requires SpaceAtEnd(statement) == 0 && EchoArgument(statement).Some?
    ensures |EchoArgument(statement).value| <= |statement|
    ensures statement[|statement| - |EchoArgument(statement).value|..] == EchoArgument(statement).value
  {
    hide SpaceAtEnd, LeadingWhitespace;
    var rest := statement[4..];
    TrimmedSuffix(statement, 4 + LeadingWhitespace(rest));
    assert statement[4 + LeadingWhitespace(rest)..] == rest[LeadingWhitespace(rest)..];
  }

  lemma {:induction false} LinesSpelled(source: string, t: string, start: nat)
    requires start + |t| <= |source| && source[start..start + |t|] == t
    ensures Spell(source, LinesPieces(t, start), start, start + |t|, LinesText(t))
    decreases |t|
  {
    hide Spell, StatementPieces, StatementText;
    if t == "" {
      SpellNothing(source, start, start);
    } else {
      var n := LineLength(t);
      SliceOfSlice(source, start, t, 0, n);
      SliceOfSlice(source, start, t, n, |t|);
      assert t[0..n] == t[..n] && t[n..|t|] == t[n..];
      StatementSpelled(source, t[..n], start);
      LinesSpelled(source, t[n..], start + n);
      SpellConcat(source, StatementPieces(t[..n], start), LinesPieces(t[n..], start + n), start, start + n, start + |t|, StatementText(t[..n]), LinesText(t[n..]));
    }
  }

  lemma BodySpelled(source: string, i: nat, m: Move)
    requires i + 2 <= |source| && m.Replace? && InPlace(m, source[i + 2..])
    ensures Spell(source, BodyPieces(m.body, i + 2), i, i + m.n, BodyText(m.body))
  {
    hide Spell, LinesPieces, LinesText, LeadingWhitespace, SpaceAtEnd, TrimEnd;
    var b, body := source[i + 2..], m.body;
    if body.Nothing? {
      SpellNothing(source, i, i + m.n);
    } else {
      var at, text := i + 2 + body.skip, body.text;
      assert source[at..at + |text|] == text by {
        assert b[body.skip..body.skip + |text|] == source[at..at + |text|];
      }
      if body.Output? {
        SpellOne(source, OutputOpen(body.dashOpen), at, text, OutputClose(body.dashClose), i, i + m.n);
      } else if body.Statements? {
        LinesSpelled(source, text, at);
        Widen(source, LinesPieces(text, at), at, at + |text|, LinesText(text), i, i + m.n);
      } else {
        var k := LeadingWhitespace(text);
        SliceOfSlice(source, at, text, k, k + |Trim(text)|);
        EchoSpelled(source, Trim(text), at + k, i, i + m.n);
      }
    }
  }

  lemma Widen(source: string, pieces: seq<Piece>, start: nat, end: nat, text: string, start': nat, end': nat)
    requires Spell(source, pieces, start, end, text) && start' <= start && end <= end' <= |source|
    ensures Spell(source, pieces, start', end', text)
  {
    assert Ordered([], end, end');
    OrderedConcat(pieces, [], start, end, end');
    assert pieces + [] == pieces;
    OrderedFromEarlier(pieces, start', start, end');
  }

  /* ---- The whole text ---- */

  /** The pieces from offset `i` on, when everything before `copied` is already out. */
  function Scan(source: string, copied: nat, i: nat): seq<Piece>
    requires copied <= i <= |source|
    decreases |source| - i
  {
    if i + 1 >= |source| then [Copied(copied, |source|)]
    else
      match Step(source[i..])
      case Stop => [Copied(copied, |source|)]
      case Verbatim(n) => Scan(source, copied, i + n)
      case Replace(n, trim, body) => Flushed(source, copied, i, trim) + BodyPieces(body, i + 2) + Scan(source, i + n, i + n)
  }

  /** The text before a statement, without trailing white space if the statement trims it. */
  function Flushed(source: string, copied: nat, i: nat, trim: bool): seq<Piece>
    requires copied <= i <= |source|
  {
    [Copied(copied, if trim then copied + |TrimEndSpaces(source[copied..i])| else i)]
  }

  function TrimIf(trim: bool, pending: string): string {
    if trim then TrimEndSpaces(pending) else pending
  }

  /** The rewritten text of what is left to read, when `pending` is read but not out yet. */
  function Rewritten(pending: string, rest: string): string
    decreases |rest|
  {
    if |rest| < 2 then pending + rest
    else
      match Step(rest)
      case Stop => pending + rest
      case Verbatim(n) => Rewritten(pending + rest[..n], rest[n..])
      case Replace(n, trim, body) => TrimIf(trim, pending) + BodyText(body) + Rewritten("", rest[n..])
  }

  lemma {:induction false} ScanSpells(source: string, copied: nat, i: nat)
    requires copied <= i <= |source|
    ensures Spell(source, Scan(source, copied, i), copied, |source|, Rewritten(source[copied..i], source[i..]))
    decreases |source| - i
  {
    hide Step, Spell, BodyText, BodyPieces;
    var pending, rest := source[copied..i], source[i..];
    if i + 1 >= |source| || Step(rest).Stop? {
      assert pending + rest == source[copied..|source|];
      SpellCopied(source, copied, |source|);
    } else if Step(rest).Verbatim? {
      var n := Step(rest).n;
      assert pending + rest[..n] == source[copied..i + n] && rest[n..] == source[i + n..];
      ScanSpells(source, copied, i + n);
    } else {
      var m := Step(rest);
      assert rest[2..] == source[i + 2..] && rest[m.n..] == source[i + m.n..] && source[i + m.n..i + m.n] == "";
      BodySpelled(source, i, m);
      ScanSpells(source, i + m.n, i + m.n);
      FlushedSpelled(source, copied, i, m.trim);
      SpellConcat(source, Flushed(source, copied, i, m.trim), BodyPieces(m.body, i + 2), copied, i, i + m.n, TrimIf(m.trim, pending), BodyText(m.body));
      assert Rewritten(pending, rest) == TrimIf(m.trim, pending) + BodyText(m.body) + Rewritten("", rest[m.n..]);
      SpellConcat(source, Flushed(source, copied, i, m.trim) + BodyPieces(m.body, i + 2), Scan(source, i + m.n, i + m.n), copied, i + m.n, |source|, TrimIf(m.trim, pending) + BodyText(m.body), Rewritten("", rest[m.n..]));
    }
  }

  lemma FlushedSpelled(source: string, copied: nat, i: nat, trim: bool)
    requires copied <= i <= |source|
    ensures Spell(source, Flushed(source, copied, i, trim), copied, i, TrimIf(trim, source[copied..i]))
  {
    hide Spell;
    if trim {
      var kept := copied + |TrimEndSpaces(source[copied..i])|;
      assert source[copied..kept] == source[copied..i][..kept - copied];
      SpellCopied(source, copied, kept);
      Widen(source, [Copied(copied, kept)], copied, kept, source[copied..kept], copied, i);
    } else {
      SpellCopied(source, copied, i);
    }
  }
}
