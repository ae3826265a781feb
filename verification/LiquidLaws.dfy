/** What a rewriting's anchors promise, and when keeping them in 32 bits breaks it. */
module LiquidLaws {
  import opened Wrappers
  import opened LiquidText
  import opened LiquidScanners
  import opened LiquidAnchors
  import opened LiquidRewrites
  import opened LiquidRewriters

  /* ---- Anchors are never far apart ---- */

  /** The most a rewritten text gains between one copied stretch and the next. */
  const MOST_GAINED: nat := 16

  /** How far beyond its length the anchors of a source can lie apart. */
  const OVERHANG: nat := 13

  /** `reach` is where the last copied stretch ended, and as much further as was inserted since.
      It never gets `MOST_GAINED` beyond the next stretch, nor beyond 2 where that one is not
      followed by the text and the close of a statement; and it ends within `limit`. */
  predicate Near(pieces: seq<Piece>, reach: nat, limit: nat, length: nat) {
    if pieces == [] then reach <= limit
    else
      match pieces[0]
      case Inserted(text) => Near(pieces[1..], reach + |text|, limit, length)
      case Copied(from, to) =>
        reach <= from + MOST_GAINED && (reach <= from + 2 || from + 3 <= length) && Near(pieces[1..], to, limit, length)
  }

  lemma {:induction false} NearAfterLess(pieces: seq<Piece>, reach: nat, less: nat, limit: nat, more: nat, length: nat)
    requires Near(pieces, reach, limit, length) && less <= reach && limit <= more
    ensures Near(pieces, less, more, length)
    decreases |pieces|
  {
    if pieces != [] {
      if pieces[0].Inserted? {
        NearAfterLess(pieces[1..], reach + |pieces[0].text|, less + |pieces[0].text|, limit, more, length);
      } else {
        NearAfterLess(pieces[1..], pieces[0].to, pieces[0].to, limit, more, length);
      }
    }
  }

  lemma {:induction false} NearConcat(a: seq<Piece>, b: seq<Piece>, reach: nat, middle: nat, limit: nat, length: nat)
    requires Near(a, reach, middle, length) && Near(b, middle, limit, length)
    ensures Near(a + b, reach, limit, length)
    decreases |a|
  {
    if a == [] {
      assert a + b == b;
      NearAfterLess(b, middle, reach, limit, limit, length);
    } else {
      assert (a + b)[1..] == a[1..] + b;
      NearConcat(a[1..], b, if a[0].Copied? then a[0].to else reach + |a[0].text|, middle, limit, length);
    }
  }

  lemma OneNear(open: string, from: nat, to: nat, close: string, reach: nat, limit: nat, length: nat)
    requires reach + |open| <= from + MOST_GAINED && from + 3 <= length && to + |close| <= limit
    ensures Near([Inserted(open), Copied(from, to), Inserted(close)], reach, limit, length)
  {
    var first, middle, last := [Inserted(open), Copied(from, to), Inserted(close)], [Copied(from, to), Inserted(close)], [Inserted(close)];
    assert first[1..] == middle && middle[1..] == last && last[1..] == [];
    assert Near(last, to, limit, length);
    assert Near(middle, reach + |open|, limit, length);
  }

  /** A statement that echoes something spends five characters before it. */
  lemma EchoIsLonger(statement: string)
    requires EchoArgument(statement).Some? && EchoArgument(statement).value != ""
    ensures |EchoArgument(statement).value| + 5 <= |statement|
  {
    var rest := statement[4..];
    if rest != "" {
      assert IsSpace(rest[..1]);
      assert SpaceAtStart(rest) == 1;
    }
  }

  lemma StatementNear(line: string, start: nat, length: nat)
    requires start + |line| + 2 <= length
    ensures Near(StatementPieces(line, start), start + 3, start + |line| + 3, length)
  {
    hide LeadingWhitespace, Trim, SpaceAtEnd, EchoArgument;
    var statement, at := Trim(line), start + LeadingWhitespace(line);
    if !IsSilent(statement) {
      match EchoArgument(statement)
      case Some(expression) =>
        if expression != "" {
          EchoIsLonger(statement);
          var from := at + |statement| - |expression|;
          OneNear(OutputOpen(false), from, from + |expression|, OutputClose(false), start + 3, start + |line| + 3, length);
        }
      case None => OneNear("{% ", at, at + |statement|, " %}", start + 3, start + |line| + 3, length);
    }
  }

  lemma {:induction false} LinesNear(t: string, start: nat, length: nat)
    requires start + |t| + 2 <= length
    ensures Near(LinesPieces(t, start), start + 3, start + |t| + 3, length)
    decreases |t|
  {
    hide Near, StatementPieces;
    if t == "" {
      NothingNear(start + 3, start + 3, length);
    } else {
      var n := LineLength(t);
      StatementNear(t[..n], start, length);
      LinesNear(t[n..], start + n, length);
      NearConcat(StatementPieces(t[..n], start), LinesPieces(t[n..], start + n), start + 3, start + n + 3, start + |t| + 3, length);
    }
  }

  lemma NothingNear(reach: nat, limit: nat, length: nat)
    requires reach <= limit
    ensures Near([], reach, limit, length)
  {
  }

  lemma DelimiterLengths(dash: bool)
    ensures |OutputOpen(dash)| == 18 + if dash then 1 else 0
    ensures |OutputClose(dash)| == 3 + if dash then 1 else 0
  {
  }

  /** Where a statement's kept text lies between its delimiters. */
  predicate Inside(body: Body, n: nat) {
    match body
    case Nothing => true
    case Output(dashOpen, skip, text, dashClose) =>
      text != "" && skip >= (if dashOpen then 1 else 0) && skip + |text| + 4 + (if dashClose then 1 else 0) <= n
    case Statements(skip, text) => skip >= 6 && skip + |text| + 4 <= n
    case Echo(skip, text) => skip >= 4 && skip + |text| + 4 <= n
  }

  lemma OutputInside(b: string)
    requires AtOutput(b).Replace?
    ensures AtOutput(b).body.Output? && Inside(AtOutput(b).body, AtOutput(b).n)
  {
    hide Spaces, TrimEndSpaces, ScanTo;
  }

  lemma TagInside(b: string)
    requires AtTag(b).Replace?
    ensures !AtTag(b).body.Output? && Inside(AtTag(b).body, AtTag(b).n)
  {
    hide RawSkip, Spaces, BodySkip, TagName, ScanTo, CloseOf, IsInlineComment;
  }

  lemma StepInside(rest: string)
    requires |rest| >= 2 && Step(rest).Replace?
    ensures Inside(Step(rest).body, Step(rest).n) && Step(rest).n <= |rest|
  {
    hide AtTag, AtOutput, Inside;
    if rest[1] == '%' {
      TagInside(rest[2..]);
    } else {
      OutputInside(rest[2..]);
    }
  }

  lemma OutputNear(body: Body, i: nat, n: nat, length: nat)
    requires body.Output? && Inside(body, n) && i + n <= length
    ensures Near(BodyPieces(body, i + 2), i, i + n + 2, length)
  {
    hide Near, OutputOpen, OutputClose, LinesPieces, EchoPieces, Trim;
    var from := i + 2 + body.skip;
    DelimiterLengths(body.dashOpen);
    DelimiterLengths(body.dashClose);
    assert |body.text| > 0;
    OneNear(OutputOpen(body.dashOpen), from, from + |body.text|, OutputClose(body.dashClose), i, i + n + 2, length);
  }

  lemma EchoNear(e: string, from: nat, i: nat, limit: nat, length: nat)
    requires i + 2 <= from && from + |e| + 3 <= limit && from + |e| + 2 <= length
    ensures Near(EchoPieces(e, from), i, limit, length)
  {
    hide Near, OutputOpen, OutputClose;
    if e == "" {
      NothingNear(i, limit, length);
    } else {
      DelimiterLengths(false);
      assert |e| > 0;
      OneNear(OutputOpen(false), from, from + |e|, OutputClose(false), i, limit, length);
    }
  }

  lemma BodyNear(body: Body, i: nat, n: nat, length: nat)
    requires Inside(body, n) && i + n <= length
    ensures Near(BodyPieces(body, i + 2), i, i + n + 2, length)
  {
    hide LinesPieces, EchoPieces, Trim, LeadingWhitespace, Near, OutputOpen, OutputClose;
    match body
    case Nothing => NothingNear(i, i + n + 2, length);
    case Output(_, _, _, _) => OutputNear(body, i, n, length);
    case Statements(skip, text) =>
      var at := i + 2 + skip;
      LinesNear(text, at, length);
      NearAfterLess(LinesPieces(text, at), at + 3, i, at + |text| + 3, i + n + 2, length);
    case Echo(skip, text) => EchoNear(Trim(text), i + 2 + skip + LeadingWhitespace(text), i, i + n + 2, length);
  }

  lemma {:induction false} ScanNear(source: string, copied: nat, i: nat)
    requires copied <= i <= |source|
    ensures Near(Scan(source, copied, i), copied + 2, |source| + 2, |source|)
    decreases |source| - i
  {
    hide Step, BodyPieces, Inside;
    if i + 1 < |source| {
      match Step(source[i..])
      case Stop =>
      case Verbatim(n) => ScanNear(source, copied, i + n);
      case Replace(n, trim, body) =>
        StepInside(source[i..]);
        BodyNear(body, i, n, |source|);
        ScanNear(source, i + n, i + n);
        var flushed := Flushed(source, copied, i, trim);
        assert flushed[1..] == [] && Near(flushed, copied + 2, i, |source|);
        NearConcat(flushed, BodyPieces(body, i + 2), copied + 2, i, i + n + 2, |source|);
        NearConcat(flushed + BodyPieces(body, i + 2), Scan(source, i + n, i + n), copied + 2, i + n + 2, |source| + 2, |source|);
    }
  }

  /** One anchor lies no further beyond the last than the source it passed, and `MOST_GAINED`. */
  ghost predicate GapsWithin(anchors: seq<Anchor>, length: nat) {
    forall i | 0 < i < |anchors| ::
      && anchors[i].0 <= anchors[i - 1].0 + anchors[i].1 - anchors[i - 1].1 + MOST_GAINED
      && anchors[i].0 <= anchors[i - 1].0 + length + OVERHANG - anchors[i - 1].1
  }

  lemma {:induction false} NearMeansClose(pieces: seq<Piece>, reach: nat, limit: nat, at: nat, start: nat, end: nat)
    requires Near(pieces, reach, limit, end) && Ordered(pieces, start, end)
    ensures GapsWithin(AnchorsOf(pieces, at), end)
    ensures AnchorsOf(pieces, at) != [] ==>
              var first := AnchorsOf(pieces, at)[0];
              first.0 + reach <= at + first.1 + MOST_GAINED && first.0 + reach <= at + end + OVERHANG && start <= first.1
    decreases |pieces|
  {
    hide GapsWithin;
    if pieces == [] {
      var none: seq<Anchor> := [];
      GapsFromNext(none, none, end);
      assert AnchorsOf(pieces, at) == none + none;
    } else {
      OrderedWithin(pieces, start, end);
      var piece := pieces[0];
      var next := at + PieceLength(piece);
      var rest := AnchorsOf(pieces[1..], next);
      NearMeansClose(pieces[1..], if piece.Copied? then piece.to else reach + |piece.text|, limit, next, if piece.Copied? then piece.to else start, end);
      var first := if piece.Copied? then [(at, piece.from)] else [];
      assert AnchorsOf(pieces, at) == first + rest;
      assert piece in pieces;
      GapsFromNext(first, rest, end);
    }
  }

  lemma GapsFromNext(first: seq<Anchor>, rest: seq<Anchor>, length: nat)
    requires |first| <= 1 && (rest == [] || GapsWithin(rest, length))
    requires first != [] && rest != [] ==>
               && rest[0].0 <= first[0].0 + rest[0].1 - first[0].1 + MOST_GAINED
               && rest[0].0 <= first[0].0 + length + OVERHANG - first[0].1
    ensures GapsWithin(first + rest, length)
  {
  }

  /* ---- Thirty-two bits ---- */

  ghost predicate Ascending(anchors: seq<Anchor>) {
    forall i, j | 0 <= i < j < |anchors| :: anchors[i].0 <= anchors[j].0 && anchors[i].1 <= anchors[j].1
  }

  lemma NarrowBelow(n: nat)
    ensures n < TWO_TO_THE_32 ==> Narrow(n) == n
    ensures TWO_TO_THE_32 <= n < 2 * TWO_TO_THE_32 ==> Narrow(n) == n - TWO_TO_THE_32
  {
  }

  /** No anchor is 2^32 beyond the one before. */
  ghost predicate NeverWraps(anchors: seq<Anchor>) {
    forall i | 0 < i < |anchors| :: anchors[i].0 < anchors[i - 1].0 + TWO_TO_THE_32
  }

  lemma NarrowedUnchanged(anchors: seq<Anchor>)
    requires anchors != [] && Ascending(anchors) && anchors[|anchors| - 1].1 < TWO_TO_THE_32
    ensures anchors[|anchors| - 1].0 < TWO_TO_THE_32 <==> NarrowAll(anchors) == anchors
  {
    hide Narrow, NarrowAll;
    var last := |anchors| - 1;
    if anchors[last].0 < TWO_TO_THE_32 {
      forall i | 0 <= i < |anchors|
        ensures NarrowAll(anchors)[i] == anchors[i]
      {
        assert i < last ==> anchors[i].0 <= anchors[last].0 && anchors[i].1 <= anchors[last].1;
        NarrowBelow(anchors[i].0);
        NarrowBelow(anchors[i].1);
      }
      assert NarrowAll(anchors) == anchors;
    } else {
      assert NarrowAll(anchors)[last].0 == Narrow(anchors[last].0) < TWO_TO_THE_32 by {
        NarrowIsSmall(anchors[last].0);
      }
    }
  }

  lemma NarrowIsSmall(n: nat)
    ensures Narrow(n) < TWO_TO_THE_32
  {
  }

  /** Kept in 32 bits, anchors that are never 2^32 apart stay in order if and only if none of
      them overflows. */
  lemma NarrowedAscendsIff(anchors: seq<Anchor>)
    requires anchors != [] && Ascending(anchors) && NeverWraps(anchors)
    requires anchors[0].0 == 0 && anchors[|anchors| - 1].1 < TWO_TO_THE_32
    ensures Ascending(NarrowAll(anchors)) <==> anchors[|anchors| - 1].0 < TWO_TO_THE_32
  {
    hide Narrow, NarrowAll;
    var last := |anchors| - 1;
    NarrowedUnchanged(anchors);
    if anchors[last].0 >= TWO_TO_THE_32 {
      var k := FirstOverflow(anchors, last);
      NarrowBelow(anchors[k].0);
      NarrowBelow(anchors[k - 1].0);
      assert NarrowAll(anchors)[k].0 < NarrowAll(anchors)[k - 1].0;
    }
  }

  lemma {:induction false} FirstOverflow(anchors: seq<Anchor>, last: nat) returns (k: nat)
    requires last < |anchors| && anchors[0].0 == 0 && anchors[last].0 >= TWO_TO_THE_32
    ensures 0 < k <= last && anchors[k - 1].0 < TWO_TO_THE_32 <= anchors[k].0
  {
    if anchors[last - 1].0 < TWO_TO_THE_32 {
      k := last;
    } else {
      k := FirstOverflow(anchors, last - 1);
    }
  }

  /* ---- A rewriting's anchors ---- */

  lemma ScanStartsCopying(source: string, copied: nat, i: nat)
    requires copied <= i <= |source|
    ensures Scan(source, copied, i) != [] && Scan(source, copied, i)[0].Copied? && Scan(source, copied, i)[0].from == copied
    decreases |source| - i
  {
    hide Step, BodyPieces;
    if i + 1 < |source| && Step(source[i..]).Verbatim? {
      ScanStartsCopying(source, copied, i + Step(source[i..]).n);
    }
  }

  function Mapping(source: string): (anchors: seq<Anchor>)
    ensures anchors != [] && anchors[0] == (0, 0)
  {
    ScanStartsCopying(source, 0, 0);
    AnchorsOf(Scan(source, 0, 0), 0)
  }

  /** How long the rewritten text is up to its last anchor. */
  function LastOffset(source: string): nat {
    Mapping(source)[|Mapping(source)| - 1].0
  }

  /** Source and rewritten text can be addressed in 32 bits, this one up to its last anchor. */
  predicate Fits(source: string) {
    |source| < TWO_TO_THE_32 && LastOffset(source) < TWO_TO_THE_32
  }

  lemma ScanIsOrdered(source: string)
    ensures Spell(source, Scan(source, 0, 0), 0, |source|, Rewritten("", source))
    ensures Ordered(Scan(source, 0, 0), 0, |source|)
    ensures Length(Scan(source, 0, 0)) == |Rewritten("", source)|
  {
    ScanSpells(source, 0, 0);
    assert source[0..0] == "" && source[0..] == source;
  }

  lemma MappingLaws(source: string)
    ensures Lawful(Mapping(source), |Rewritten("", source)|, |source|)
    ensures Ascending(Mapping(source)) && GapsWithin(Mapping(source), |source|)
    ensures LastOffset(source) <= |Rewritten("", source)|
  {
    hide Scan, Length, Spell, Rewritten, GapsWithin;
    ScanIsOrdered(source);
    ScanNear(source, 0, 0);
    NearMeansClose(Scan(source, 0, 0), 2, |source| + 2, 0, 0, |source|);
    AnchorsLawful(Scan(source, 0, 0), 0, 0, |source|);
  }

  /** What is recorded in 32 bits is what was meant if and only if the rewritten text fits them up
      to its last anchor. */
  lemma RecordedIff(source: string)
    requires |source| < TWO_TO_THE_32
    ensures NarrowAll(Mapping(source)) == Mapping(source) <==> Fits(source)
  {
    hide NarrowAll, Mapping, Rewritten;
    MappingLaws(source);
    NarrowedUnchanged(Mapping(source));
  }

  /** The recorded anchors ascend if and only if the rewritten text fits 32 bits up to the last
      of them. */
  lemma AnchorsAscendIff(source: string)
    requires |source| + OVERHANG < TWO_TO_THE_32
    ensures Ascending(NarrowAll(Mapping(source))) <==> Fits(source)
  {
    hide NarrowAll, Mapping, Rewritten;
    MappingLaws(source);
    NarrowedAscendsIff(Mapping(source));
  }

  /** While it fits, every offset resolves inside the source, later offsets resolve no earlier,
      and every copied byte resolves to the byte it was copied from. */
  lemma MappingIsExact(source: string, k: nat, j: nat)
    requires Fits(source)
    requires k < |Scan(source, 0, 0)| && Scan(source, 0, 0)[k].Copied?
    requires j < Scan(source, 0, 0)[k].to - Scan(source, 0, 0)[k].from
    ensures Length(Scan(source, 0, 0)[..k]) + j < |Rewritten("", source)|
    ensures Resolved(source, Length(Scan(source, 0, 0)[..k]) + j) == Scan(source, 0, 0)[k].from + j < |source|
    ensures Rewritten("", source)[Length(Scan(source, 0, 0)[..k]) + j] == source[Scan(source, 0, 0)[k].from + j]
  {
    hide Scan, Rewritten, NarrowAll;
    var pieces, piece := Scan(source, 0, 0), Scan(source, 0, 0)[k];
    ScanIsOrdered(source);
    OrderedWithin(pieces, 0, |source|);
    assert piece in pieces;
    FlattenAt(source, pieces, k, j);
    RecordedIff(source);
    NarrowBelow(|source|);
    if Untouched(source) {
      assert pieces[..k] == [];
    } else {
      ExactOnCopied(pieces, k, j, |source|);
    }
  }

  lemma {:induction false} FlattenAt(source: string, pieces: seq<Piece>, k: nat, j: nat)
    requires forall p | p in pieces && p.Copied? :: p.from <= p.to <= |source|
    requires k < |pieces| && pieces[k].Copied? && j < pieces[k].to - pieces[k].from
    ensures Length(pieces[..k]) + j < |Flatten(source, pieces)|
    ensures Flatten(source, pieces)[Length(pieces[..k]) + j] == source[pieces[k].from + j]
  {
    if k > 0 {
      assert pieces[1..][..k - 1] == pieces[..k][1..];
      FlattenAt(source, pieces[1..], k - 1, j);
    } else {
      assert pieces[..0] == [];
    }
  }

  /** What the recorded anchors resolve an offset to. */
  function Resolved(source: string, offset: nat): nat {
    ToSource(if Scan(source, 0, 0) == [Copied(0, |source|)] then [] else NarrowAll(Mapping(source)), Narrow(|source|), offset)
  }

  lemma ResolvesInOrder(source: string, a: nat, b: nat)
    requires Fits(source) && a <= b
    ensures Resolved(source, a) <= Resolved(source, b) <= |source|
  {
    hide Scan, Rewritten, NarrowAll;
    MappingLaws(source);
    RecordedIff(source);
    NarrowBelow(|source|);
    if Scan(source, 0, 0) != [Copied(0, |source|)] {
      ToSourceIsMonotone(Mapping(source), |Rewritten("", source)|, |source|, a, b);
    }
  }
}
