/** The rewriter's loop, appending to a text and recording anchors as it goes. */
module LiquidRewriters {
  import opened Wrappers
  import opened LiquidText
  import opened LiquidScanners
  import opened LiquidAnchors
  import opened LiquidRewrites

  const TWO_TO_THE_32: nat := 0x1_0000_0000

  /** Offsets are kept in 32 bits. */
  function Narrow(n: nat): nat {
    n % TWO_TO_THE_32
  }

  function NarrowAll(anchors: seq<Anchor>): (s: seq<Anchor>)
    ensures |s| == |anchors|
    ensures forall i | 0 <= i < |s| :: s[i] == (Narrow(anchors[i].0), Narrow(anchors[i].1))
  {
    seq(|anchors|, i requires 0 <= i < |anchors| => (Narrow(anchors[i].0), Narrow(anchors[i].1)))
  }

  lemma NarrowConcat(a: seq<Anchor>, b: seq<Anchor>)
    ensures NarrowAll(a + b) == NarrowAll(a) + NarrowAll(b)
  {
  }

  lemma NarrowOne(a: Anchor)
    ensures NarrowAll([a]) == [(Narrow(a.0), Narrow(a.1))]
  {
  }

  class Anchors {
    var marks: seq<Anchor>
    const sourceLength: nat

    constructor (sourceLength: nat)
      ensures marks == [] && this.sourceLength == Narrow(sourceLength)
    {
      marks := [];
      this.sourceLength := Narrow(sourceLength);
    }

    method Record(rewritten: nat, source: nat)
      modifies this
      ensures marks == old(marks) + [(Narrow(rewritten), Narrow(source))]
    {
      marks := marks + [(Narrow(rewritten), Narrow(source))];
    }

    function Resolve(offset: nat): nat
      reads this
    {
      ToSource(marks, sourceLength, offset)
    }
  }

  method ExpandEcho(expression: string, at: nat, out: string, anchors: Anchors) returns (text: string)
    modifies anchors
    ensures text == out + EchoText(expression)
    ensures anchors.marks == old(anchors.marks) + NarrowAll(AnchorsOf(EchoPieces(expression, at), |out|))
  {
    hide AnchorsOf, OutputOpen, OutputClose, Narrow;
    if expression == "" {
      NoAnchors(|out|);
      return out;
    }
    hide NarrowAll;
    text := out + OutputOpen(false);
    NarrowOne((|text|, at));
    anchors.Record(|text|, at);
    text := text + expression + OutputClose(false);
    OneCopied(OutputOpen(false), at, at + |expression|, OutputClose(false), |out|);
  }

  lemma OneCopied(open: string, from: nat, to: nat, close: string, at: nat)
    ensures AnchorsOf([Inserted(open), Copied(from, to), Inserted(close)], at) == [(at + |open|, from)]
  {
    var first, last := [Inserted(open), Copied(from, to), Inserted(close)], [Inserted(close)];
    var middle := [Copied(from, to), Inserted(close)];
    assert last[1..] == [] && middle[1..] == last && first[1..] == middle;
    assert AnchorsOf(last, at + |open| + PieceLength(middle[0])) == [];
    assert AnchorsOf(middle, at + |open|) == [(at + |open|, from)];
  }

  method ExpandStatement(line: string, start: nat, out: string, anchors: Anchors) returns (text: string)
    modifies anchors
    ensures text == out + StatementText(line)
    ensures anchors.marks == old(anchors.marks) + NarrowAll(AnchorsOf(StatementPieces(line, start), |out|))
  {
    hide LeadingWhitespace, Trim, SpaceAtEnd, EchoText, EchoPieces, AnchorsOf;
    hide EchoArgument;
    var statement := Trim(line);
    if IsSilent(statement) {
      NoAnchors(|out|);
      return out;
    }
    var at := start + LeadingWhitespace(line);
    match EchoArgument(statement) {
      case Some(expression) =>
        EchoIsSuffix(statement);
        text := ExpandEcho(expression, at + (|statement| - |expression|), out, anchors);
      case None =>
        text := out + "{% ";
        NarrowOne((|text|, at));
        hide NarrowAll, Narrow;
        anchors.Record(|text|, at);
        text := text + statement + " %}";
        OneCopied("{% ", at, at + |statement|, " %}", |out|);
    }
  }

  lemma NoAnchors(at: nat)
    ensures AnchorsOf([], at) == []
  {
  }

  method ExpandStatements(body: string, start: nat, out: string, anchors: Anchors) returns (text: string)
    modifies anchors
    ensures text == out + LinesText(body)
    ensures anchors.marks == old(anchors.marks) + NarrowAll(AnchorsOf(LinesPieces(body, start), |out|))
  {
    hide StatementText, StatementPieces, AnchorsOf, NarrowAll, LinesText, LinesPieces, Length;
    var rest, at: nat := body, start;
    ghost var done: seq<Piece> := [];
    text := out;
    NoAnchors(|out|);
    NoLines(start);
    NothingNarrowed();
    while rest != ""
      invariant text + LinesText(rest) == out + LinesText(body)
      invariant done + LinesPieces(rest, at) == LinesPieces(body, start)
      invariant |text| == |out| + Length(done)
      invariant anchors.marks == old(anchors.marks) + NarrowAll(AnchorsOf(done, |out|))
      decreases |rest|
    {
      var line := rest[..LineLength(rest)];
      ghost var pieces := StatementPieces(line, at);
      NextLine(rest, at);
      StatementLength(line, at);
      AnchorsConcat(done, pieces, |out|);
      NarrowConcat(AnchorsOf(done, |out|), AnchorsOf(pieces, |text|));
      text := ExpandStatement(line, at, text, anchors);
      done := done + pieces;
      at := at + |line|;
      rest := rest[|line|..];
    }
    NoLines(at);
    assert done + [] == done;
  }

  lemma NextLine(rest: string, at: nat)
    requires rest != ""
    ensures var n := LineLength(rest);
      && LinesText(rest) == StatementText(rest[..n]) + LinesText(rest[n..])
      && LinesPieces(rest, at) == StatementPieces(rest[..n], at) + LinesPieces(rest[n..], at + n)
  {
    hide StatementText, StatementPieces;
  }

  lemma NoLines(at: nat)
    ensures LinesText("") == "" && LinesPieces("", at) == [] && Length([]) == 0
  {
  }

  lemma StatementLength(line: string, at: nat)
    ensures Length(StatementPieces(line, at)) == |StatementText(line)|
  {
    hide LeadingWhitespace, Trim, SpaceAtEnd, EchoArgument;
    var statement := Trim(line);
    if !IsSilent(statement) {
      match EchoArgument(statement)
      case Some(expression) => OneCopiedLength(OutputOpen(false), at + LeadingWhitespace(line) + (if |expression| <= |statement| then |statement| - |expression| else 0), expression, OutputClose(false));
      case None => OneCopiedLength("{% ", at + LeadingWhitespace(line), statement, " %}");
    }
  }

  lemma OneCopiedLength(open: string, from: nat, text: string, close: string)
    ensures Length([Inserted(open), Copied(from, from + |text|), Inserted(close)]) == |open + text + close|
  {
    var first, last := [Inserted(open), Copied(from, from + |text|), Inserted(close)], [Inserted(close)];
    var middle := [Copied(from, from + |text|), Inserted(close)];
    assert last[1..] == [] && middle[1..] == last && first[1..] == middle;
    assert Length(last) == |close| && Length(middle) == |text| + |close|;
  }

  /** The close of a comment, `liquid` or `echo` tag, searched for as its kind demands. */
  method FindClose(bytes: string, from: nat, name: string) returns (at: Option<nat>)
    requires from <= |bytes| && name == TagName(bytes[from..])
    ensures at == Shift(CloseOf(bytes[from..]), from)
  {
    hide BodySkip, NameLength, LiquidEndFrom, FindTagEnd, ScanFrom;
    var body := TagBodyStart(bytes, from);
    var start := body + |name|;
    ghost var b := bytes[from..];
    assert BodySkip(b) + |TagName(b)| == start - from;
    assert b[start - from..] == bytes[start..];
    if name == "liquid" {
      at := FindLiquidTagEnd(bytes, start);
    } else if name == "echo" {
      at := ScanToAt(bytes, start, "%}");
    } else {
      at := FindTagEndAt(bytes, from);
    }
  }

  /* ---- The main loop ---- */

  /** What is out, and what is left to read, make up the whole. */
  ghost predicate Progress(source: string, done: seq<Piece>, out: string, copied: nat, i: nat) {
    && copied <= i <= |source|
    && out + Rewritten(source[copied..i], source[i..]) == Rewritten("", source)
    && done + Scan(source, copied, i) == Scan(source, 0, 0)
    && |out| == Length(done)
    && (copied == 0 <==> done == [])
  }

  lemma ProgressAtStart(source: string)
    ensures Progress(source, [], "", 0, 0)
  {
    assert source[0..0] == "" && source[0..] == source;
    assert "" + Rewritten("", source) == Rewritten("", source) && [] + Scan(source, 0, 0) == Scan(source, 0, 0);
  }

  lemma ProgressVerbatim(source: string, done: seq<Piece>, out: string, copied: nat, i: nat)
    requires Progress(source, done, out, copied, i) && i + 1 < |source| && Step(source[i..]).Verbatim?
    ensures Progress(source, done, out, copied, i + Step(source[i..]).n)
  {
    hide Step, Scan, Rewritten;
    Unfolded(source, copied, i);
  }

  /** One step of the specification, at an offset. */
  lemma Unfolded(source: string, copied: nat, i: nat)
    requires copied <= i && i + 1 < |source|
    ensures match Step(source[i..])
      case Stop => UnfoldsAtStop(source, copied, i)
      case Verbatim(n) => UnfoldsAtVerbatim(source, copied, i, n)
      case Replace(n, trim, body) => UnfoldsAtReplace(source, copied, i, n, trim, body)
  {
    hide Step, BodyText, BodyPieces;
    var pending, rest := source[copied..i], source[i..];
    match Step(rest)
    case Stop =>
      assert pending + rest == source[copied..];
    case Verbatim(n) =>
      assert pending + rest[..n] == source[copied..i + n] && rest[n..] == source[i + n..];
    case Replace(n, _, _) =>
      assert source[i + n..i + n] == "" && rest[n..] == source[i + n..] && rest[2..] == source[i + 2..];
  }

  ghost predicate UnfoldsAtStop(source: string, copied: nat, i: nat)
    requires copied <= i <= |source|
  {
    Scan(source, copied, i) == [Copied(copied, |source|)] && Rewritten(source[copied..i], source[i..]) == source[copied..]
  }

  ghost predicate UnfoldsAtVerbatim(source: string, copied: nat, i: nat, n: nat)
    requires copied <= i <= |source|
  {
    && 0 < n <= |source| - i && Scan(source, copied, i) == Scan(source, copied, i + n)
    && Rewritten(source[copied..i], source[i..]) == Rewritten(source[copied..i + n], source[i + n..])
  }

  ghost predicate UnfoldsAtReplace(source: string, copied: nat, i: nat, n: nat, trim: bool, body: Body)
    requires copied <= i <= |source|
  {
    && 2 <= n <= |source| - i && InPlace(Replace(n, trim, body), source[i + 2..])
    && Scan(source, copied, i) == Flushed(source, copied, i, trim) + BodyPieces(body, i + 2) + Scan(source, i + n, i + n)
    && Rewritten(source[copied..i], source[i..])
       == TrimIf(trim, source[copied..i]) + BodyText(body) + Rewritten(source[i + n..i + n], source[i + n..])
  }

  lemma ProgressReplace(source: string, done: seq<Piece>, out: string, copied: nat, i: nat, m: Move)
    requires Progress(source, done, out, copied, i) && i + 1 < |source| && Step(source[i..]) == m && m.Replace?
    ensures Progress(source, done + (Flushed(source, copied, i, m.trim) + BodyPieces(m.body, i + 2)), out + (TrimIf(m.trim, source[copied..i]) + BodyText(m.body)), i + m.n, i + m.n)
  {
    hide Step, BodyPieces, BodyText, Spell, Scan, Rewritten, Flushed, TrimIf, InPlace, Length;
    Unfolded(source, copied, i);
    var pending, n := source[copied..i], m.n;
    var flushed, body := Flushed(source, copied, i, m.trim), BodyPieces(m.body, i + 2);
    Regrouped(out, TrimIf(m.trim, pending), BodyText(m.body), Rewritten(source[i + n..i + n], source[i + n..]));
    Regrouped(done, flushed, body, Scan(source, i + n, i + n));
    FlushedSpelled(source, copied, i, m.trim);
    BodySpelled(source, i, m);
    SpelledLength(source, flushed, body, copied, i, i + n, TrimIf(m.trim, pending), BodyText(m.body));
    AnchorsConcat(done, flushed + body, 0);
    SomethingFlushed(source, copied, i, m.trim, body);
  }

  lemma Regrouped<T>(a: seq<T>, b: seq<T>, c: seq<T>, d: seq<T>)
    ensures a + (b + c + d) == a + (b + c) + d
  {
  }

  lemma SomethingFlushed(source: string, copied: nat, i: nat, trim: bool, body: seq<Piece>)
    requires copied <= i <= |source|
    ensures Flushed(source, copied, i, trim) + body != []
  {
  }

  lemma SpelledLength(source: string, a: seq<Piece>, b: seq<Piece>, start: nat, middle: nat, end: nat, s: string, t: string)
    requires Spell(source, a, start, middle, s) && Spell(source, b, middle, end, t)
    ensures Length(a + b) == |s + t|
  {
    SpellConcat(source, a, b, start, middle, end, s, t);
  }

  lemma ProgressAtEnd(source: string, done: seq<Piece>, out: string, copied: nat, i: nat)
    requires Progress(source, done, out, copied, i) && (i + 1 >= |source| || Step(source[i..]).Stop?)
    ensures out + source[copied..] == Rewritten("", source)
    ensures done + [Copied(copied, |source|)] == Scan(source, 0, 0)
  {
    hide Step, Scan, Rewritten;
    if i + 1 < |source| {
      Unfolded(source, copied, i);
    } else {
      UnfoldedAtEnd(source, copied, i);
    }
  }

  lemma UnfoldedAtEnd(source: string, copied: nat, i: nat)
    requires copied <= i <= |source| <= i + 1
    ensures UnfoldsAtStop(source, copied, i)
  {
    assert source[copied..i] + source[i..] == source[copied..];
  }

  lemma ProgressBounds(source: string, done: seq<Piece>, out: string, copied: nat, i: nat)
    requires Progress(source, done, out, copied, i)
    ensures copied <= i <= |source| && |out| == Length(done) && (copied == 0 <==> done == [])
  {
  }

  /** Nothing in the source is rewritten. */
  ghost predicate Untouched(source: string) {
    Scan(source, 0, 0) == [Copied(0, |source|)]
  }

  lemma {:induction false} NothingToRewrite(source: string, i: nat)
    requires i <= |source|
    requires forall j | 0 <= j < |source| - 1 && source[j] == '{' :: source[j + 1] != '{' && source[j + 1] != '%'
    ensures Scan(source, 0, i) == [Copied(0, |source|)] && Rewritten(source[..i], source[i..]) == source
    decreases |source| - i
  {
    assert source[..i] + source[i..] == source;
    if i + 1 < |source| {
      var rest := source[i..];
      assert Step(rest) == Verbatim(1);
      assert source[..i] + rest[..1] == source[..i + 1] && rest[1..] == source[i + 1..];
      NothingToRewrite(source, i + 1);
    }
  }

  method MentionsLiquid(source: string) returns (found: bool)
    ensures found <==> exists j :: 0 <= j < |source| - 1 && source[j] == '{' && (source[j + 1] == '{' || source[j + 1] == '%')
  {
    found := false;
    var i := 0;
    while i + 1 < |source| && !found
      invariant found <==> exists j :: 0 <= j < i && j < |source| - 1 && source[j] == '{' && (source[j + 1] == '{' || source[j + 1] == '%')
    {
      found := source[i] == '{' && (source[i + 1] == '{' || source[i + 1] == '%');
      i := i + 1;
    }
  }

  /** A statement's text, once what is before it is out. */
  method EmitBody(body: Body, at: nat, out: string, anchors: Anchors) returns (text: string)
    modifies anchors
    ensures text == out + BodyText(body)
    ensures anchors.marks == old(anchors.marks) + NarrowAll(AnchorsOf(BodyPieces(body, at), |out|))
  {
    hide NarrowAll, Narrow, LinesText, LinesPieces, EchoText, EchoPieces, AnchorsOf, Trim, LeadingWhitespace, OutputOpen, OutputClose;
    match body {
      case Nothing =>
        NoAnchors(|out|);
        text := out;
      case Output(dashOpen, skip, inner, dashClose) =>
        text := out + OutputOpen(dashOpen);
        NarrowOne((|text|, at + skip));
        anchors.Record(|text|, at + skip);
        text := text + inner + OutputClose(dashClose);
        OneCopied(OutputOpen(dashOpen), at + skip, at + skip + |inner|, OutputClose(dashClose), |out|);
      case Statements(skip, lines) =>
        text := ExpandStatements(lines, at + skip, out, anchors);
      case Echo(skip, argument) =>
        text := ExpandEcho(Trim(argument), at + skip + LeadingWhitespace(argument), out, anchors);
    }
  }

  lemma FlushedLength(source: string, copied: nat, i: nat, trim: bool, at: nat)
    requires copied <= i <= |source|
    ensures AnchorsOf(Flushed(source, copied, i, trim), at) == [(at, copied)]
    ensures Length(Flushed(source, copied, i, trim)) == |TrimIf(trim, source[copied..i])|
  {
    var flushed := Flushed(source, copied, i, trim);
    assert flushed[1..] == [];
    assert Length(flushed) == PieceLength(flushed[0]) + Length(flushed[1..]);
  }

  /** Copies what is before a statement, trimmed if it says so, and writes what replaces it. */
  method Emit(source: string, copied: nat, i: nat, trim: bool, body: Body, out: string, anchors: Anchors) returns (text: string)
    requires copied <= i <= |source|
    modifies anchors
    ensures text == out + (TrimIf(trim, source[copied..i]) + BodyText(body))
    ensures anchors.marks == old(anchors.marks) + NarrowAll(AnchorsOf(Flushed(source, copied, i, trim) + BodyPieces(body, i + 2), |out|))
  {
    hide NarrowAll, Narrow, BodyText, BodyPieces;
    var before := TrimIf(trim, source[copied..i]);
    ghost var flushed := Flushed(source, copied, i, trim);
    FlushedLength(source, copied, i, trim, |out|);
    NarrowOne((|out|, copied));
    AnchorsConcat(flushed, BodyPieces(body, i + 2), |out|);
    NarrowConcat(AnchorsOf(flushed, |out|), AnchorsOf(BodyPieces(body, i + 2), |out + before|));
    anchors.Record(|out|, copied);
    text := EmitBody(body, i + 2, out + before, anchors);
  }

  lemma StepOf(source: string, i: nat)
    requires i + 1 < |source| && source[i] == '{'
    ensures source[i + 1] == '%' ==> Step(source[i..]) == AtTag(source[i + 2..])
    ensures source[i + 1] == '{' ==> Step(source[i..]) == AtOutput(source[i + 2..])
  {
    hide AtTag, AtOutput;
    assert source[i..][2..] == source[i + 2..] && source[i..][0] == source[i] && source[i..][1] == source[i + 1];
  }

  /** A tag at `i`: whether it is replaced, by what, and where reading goes on. */
  method ReadTag(source: string, i: nat) returns (m: Move)
    requires i + 1 < |source| && source[i] == '{' && source[i + 1] == '%'
    ensures m == Step(source[i..])
  {
    hide TagName, BodySkip, RawSkip, CloseOf, TagBody, ScanFrom, Spaces, Step;
    ghost var b := source[i + 2..];
    StepOf(source, i);
    var name := ReadTagName(source, i + 2);
    if name == "raw" {
      var next := SkipRawBlock(source, i + 2);
      return Verbatim(next - i);
    }
    var start := TagBodyStart(source, i + 2);
    assert start < |source| ==> source[start] == b[start - i - 2];
    if (start < |source| && source[start] == '#') || Expandable(name) {
      var close := FindClose(source, i + 2, name);
      if close.None? {
        return Verbatim(2);
      }
      m := ReplaceTag(source, i, close.value);
      return;
    }
    var close := ScanToAt(source, i + 2, "%}");
    m := Verbatim(if close.Some? then close.value + 2 - i else 2);
  }

  /** A tag that is replaced and closes at `at`; its hyphens trim what is around it. */
  method ReplaceTag(source: string, i: nat, at: nat) returns (m: Move)
    requires i + 2 <= at && at + 2 <= |source| && source[i + 1] == '%'
    requires TagName(source[i + 2..]) != "raw" && CloseOf(source[i + 2..]) == Some(at - i - 2)
    requires IsInlineComment(source[i + 2..]) || Expandable(TagName(source[i + 2..]))
    ensures m == AtTag(source[i + 2..])
  {
    hide TagName, BodySkip, CloseOf, TagBody, ScanFrom, Spaces, InPlace, IsInlineComment;
    ghost var b := source[i + 2..];
    assert source[at - 1] == if at == i + 2 then '%' else b[at - i - 3];
    assert b[at - i..] == source[at + 2..];
    var dash := source[at - 1] == '-';
    var next := at + 2;
    if dash {
      var trailing := TrailingSpaces(source, at + 2);
      next := next + trailing;
    }
    m := Replace(next - i, i + 2 < |source| && source[i + 2] == '-', TagBody(source[i + 2..], at - i - 2));
  }

  method TrailingSpaces(source: string, from: nat) returns (n: nat)
    requires from <= |source|
    ensures n == Spaces(source[from..])
  {
    n := 0;
    while from + n < |source| && IsLiquidWhitespace(source[from + n])
      invariant from + n <= |source|
      invariant n + Spaces(source[from + n..]) == Spaces(source[from..])
    {
      assert source[from + n..][1..] == source[from + n + 1..];
      n := n + 1;
    }
  }

  /** What an output becomes, from the text past its hyphen and where that text closes. */
  function OutputMove(dash: bool, skip: nat, inside: string, close: Option<nat>): Move
    requires close.Some? ==> close.value <= |inside|
  {
    match close
    case None => Stop
    case Some(k) =>
      var dashClose := DashBefore(inside, k);
      var raw := inside[..if dashClose then k - 1 else k];
      if TrimSpaces(raw) == "" then Verbatim(skip + k + 4)
      else Replace(skip + k + 4, false, Output(dash, skip + Spaces(raw), TrimSpaces(raw), dashClose))
  }

  lemma OutputInside(b: string)
    ensures var skip := if StartsWithDash(b) then 1 else 0;
            AtOutput(b) == OutputMove(StartsWithDash(b), skip, b[skip..], ScanTo(b[skip..], "}}"))
  {
    hide ScanTo, Spaces, TrimSpaces, InPlace;
    var skip := if StartsWithDash(b) then 1 else 0;
    var inside := b[skip..];
    var close := ScanTo(inside, "}}");
    if close.Some? {
      var n := if DashBefore(inside, close.value) then close.value - 1 else close.value;
      assert b[skip..skip + n] == inside[..n];
    }
  }

  lemma SameInside(source: string, start: nat, at: nat)
    requires start <= at <= |source|
    ensures var inside := source[start..];
            && DashBefore(inside, at - start) == (at > start && source[at - 1] == '-')
            && inside[..at - start] == source[start..at] && (at > start ==> inside[..at - start - 1] == source[start..at - 1])
  {
  }

  method ReadOutput(source: string, i: nat) returns (m: Move)
    requires i + 1 < |source| && source[i] == '{' && source[i + 1] == '{'
    ensures m == Step(source[i..])
  {
    hide ScanFrom, AtOutput, Spaces, TrimEndSpaces, TrimSpaces, Step;
    StepOf(source, i);
    OutputInside(source[i + 2..]);
    var dashOpen := i + 2 < |source| && source[i + 2] == '-';
    var innerStart := if dashOpen then i + 3 else i + 2;
    assert source[i + 2..][innerStart - i - 2..] == source[innerStart..];
    var close := ScanToAt(source, innerStart, "}}");
    if close.None? {
      return Stop;
    }
    var at := close.value;
    SameInside(source, innerStart, at);
    var dashClose := at > innerStart && source[at - 1] == '-';
    var raw := source[innerStart..if dashClose then at - 1 else at];
    var inner := TrimSpaces(raw);
    if inner == "" {
      return Verbatim(at + 2 - i);
    }
    m := Replace(at + 2 - i, false, Output(dashOpen, innerStart - i - 2 + Spaces(raw), inner, dashClose));
  }

  method ReadStep(source: string, i: nat) returns (m: Move)
    requires i + 1 < |source|
    ensures m == Step(source[i..]) && InPlace(m, source[i + 2..])
  {
    assert source[i..][0] == source[i] && source[i..][1] == source[i + 1] && source[i..][2..] == source[i + 2..];
    if source[i] != '{' {
      m := Verbatim(1);
    } else if source[i + 1] == '%' {
      m := ReadTag(source, i);
    } else if source[i + 1] == '{' {
      m := ReadOutput(source, i);
    } else {
      m := Verbatim(1);
    }
  }

  lemma MoveBounds(source: string, i: nat, m: Move)
    requires i + 1 < |source| && InPlace(m, source[i + 2..])
    ensures m.Verbatim? ==> 0 < m.n <= |source| - i
    ensures m.Replace? ==> 2 <= m.n <= |source| - i
  {
  }

  lemma NothingNarrowed()
    ensures NarrowAll(AnchorsOf([], 0)) == [] && NarrowAll([]) == []
  {
  }

  lemma NothingDone(source: string, done: seq<Piece>, out: string)
    requires done == [] && |out| == Length(done)
    requires out + source[0..] == Rewritten("", source) && done + [Copied(0, |source|)] == Scan(source, 0, 0)
    ensures Untouched(source) && source == Rewritten("", source)
    ensures NarrowAll(AnchorsOf(done, 0)) == []
  {
  }

  lemma OneStretch(from: nat, to: nat, at: nat)
    ensures AnchorsOf([Copied(from, to)], at) == [(at, from)]
  {
    assert [Copied(from, to)][1..] == [];
  }

  lemma LastPiece(done: seq<Piece>, copied: nat, to: nat, at: nat)
    requires done != [] && at == Length(done)
    ensures |done + [Copied(copied, to)]| > 1
    ensures NarrowAll(AnchorsOf(done + [Copied(copied, to)], 0)) == NarrowAll(AnchorsOf(done, 0)) + [(Narrow(at), Narrow(copied))]
  {
    hide NarrowAll, Narrow, Length, AnchorsOf;
    var last := [Copied(copied, to)];
    AnchorsConcat(done, last, 0);
    OneStretch(copied, to, at);
    NarrowConcat(AnchorsOf(done, 0), AnchorsOf(last, at));
    NarrowOne((at, copied));
  }

  /** Takes the specified step at each offset until none is left or one stops.  The anchors are
      those of the pieces, or none when the source is one piece. */
  method RewriteTemplateMapped(source: string) returns (text: string, anchors: Anchors)
    ensures fresh(anchors) && anchors.sourceLength == Narrow(|source|)
    ensures text == Rewritten("", source)
    ensures anchors.marks == if Untouched(source) then [] else NarrowAll(AnchorsOf(Scan(source, 0, 0), 0))
  {
    hide NarrowAll, Narrow, Step, BodyText, BodyPieces, AnchorsOf, Length, Flushed, TrimIf, Scan, Rewritten, Progress, InPlace;
    anchors := new Anchors(|source|);
    var liquid := MentionsLiquid(source);
    if !liquid {
      NothingToRewrite(source, 0);
      assert source[..0] == "" && source[0..] == source;
      return source, anchors;
    }
    var out, copied, i, stopped := "", 0, 0, false;
    ghost var done: seq<Piece> := [];
    ProgressAtStart(source);
    NothingNarrowed();
    while i + 1 < |source| && !stopped
      invariant Progress(source, done, out, copied, i) && copied <= i <= |source|
      invariant stopped ==> i + 1 < |source| && Step(source[i..]).Stop?
      invariant anchors.marks == NarrowAll(AnchorsOf(done, 0)) && fresh(anchors)
      invariant anchors.sourceLength == Narrow(|source|)
      decreases |source| - i, !stopped
    {
      ProgressBounds(source, done, out, copied, i);
      var m := ReadStep(source, i);
      MoveBounds(source, i, m);
      match m {
        case Stop => stopped := true;
        case Verbatim(n) =>
          ProgressVerbatim(source, done, out, copied, i);
          i := i + n;
        case Replace(n, trim, body) =>
          ghost var pieces := Flushed(source, copied, i, trim) + BodyPieces(body, i + 2);
          ProgressReplace(source, done, out, copied, i, m);
          AnchorsConcat(done, pieces, 0);
          NarrowConcat(AnchorsOf(done, 0), AnchorsOf(pieces, |out|));
          out := Emit(source, copied, i, trim, body, out, anchors);
          done := done + pieces;
          copied, i := i + n, i + n;
      }
    }
    ProgressBounds(source, done, out, copied, i);
    ProgressAtEnd(source, done, out, copied, i);
    if copied == 0 {
      NothingDone(source, done, out);
      return source, anchors;
    }
    LastPiece(done, copied, |source|, |out|);
    anchors.Record(|out|, copied);
    text := out + source[copied..];
  }
}
