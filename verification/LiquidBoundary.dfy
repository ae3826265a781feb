/** Which offsets resolve to the boundary of a character: those in copied text do exactly where
    they stand on one, and those in inserted text may resolve into the middle of a character. */
module LiquidBoundary {
  import opened Wrappers
  import opened LiquidText
  import opened LiquidScanners
  import opened LiquidAnchors
  import opened LiquidRewrites
  import opened LiquidRewriters
  import opened LiquidLaws
  import opened LiquidTemplates
  import opened LiquidReadings

  /** A byte inside a UTF-8 character, past its first. */
  predicate Continues(c: char) {
    '\U{80}' <= c < '\U{C0}'
  }

  /** Those are the bytes whose two highest bits are 10. */
  lemma ContinuesIff(c: char)
    requires c < '\U{100}'
    ensures Continues(c) <==> c as int / 64 == 2
  {
  }

  /** A resolved offset may be sliced at. */
  predicate OnBoundary(source: string, at: nat) {
    at >= |source| || !Continues(source[at])
  }

  /** In copied text an offset lands on a boundary if and only if it stands on one itself. */
  lemma CopiedLandsOnBoundaryIff(source: string, k: nat, j: nat)
    requires Fits(source)
    requires k < |Scan(source, 0, 0)| && Scan(source, 0, 0)[k].Copied?
    requires j < Scan(source, 0, 0)[k].to - Scan(source, 0, 0)[k].from
    ensures var offset := Length(Scan(source, 0, 0)[..k]) + j;
            OnBoundary(source, Resolved(source, offset)) <==> OnBoundary(Rewritten("", source), offset)
  {
    hide Scan, Rewritten, Resolved, Length, Mapping;
    MappingIsExact(source, k, j);
  }

  /* ---- Every offset ---- */

  /** An offset between two anchors counts on from the first and stops at the second. */
  lemma BetweenAnchors(source: string, g: nat, offset: nat)
    requires Fits(source) && g < |Mapping(source)| && Mapping(source)[g].0 <= offset
    requires g + 1 < |Mapping(source)| ==> offset < Mapping(source)[g + 1].0
    ensures Resolved(source, offset)
         == Min(Mapping(source)[g].1 + (offset - Mapping(source)[g].0), if g + 1 < |Mapping(source)| then Mapping(source)[g + 1].1 else |source|)
  {
    hide Scan, NarrowAll, Mapping, Rewritten, PartitionPoint;
    MappingLaws(source);
    RecordedIff(source);
    NarrowBelow(|source|);
    if Scan(source, 0, 0) == [Copied(0, |source|)] {
      OnlyStretch(source);
    }
    GoverningIs(Mapping(source), |Rewritten("", source)|, |source|, offset, g + 1);
  }

  lemma OnlyStretch(source: string)
    requires Scan(source, 0, 0) == [Copied(0, |source|)]
    ensures Mapping(source) == [(0, 0)]
  {
    hide Scan;
    OneStretch(0, |source|, 0);
  }

  /** A copied stretch: where it stands in the rewritten text, and in the source. */
  datatype Stretch = Stretch(at: nat, from: nat, to: nat)

  function FirstStretch(piece: Piece, at: nat): (first: seq<Stretch>)
    ensures piece.Inserted? ==> first == []
    ensures |first| <= 1 && forall s | s in first :: piece.Copied? && s == Stretch(at, piece.from, piece.to)
  {
    if piece.Copied? then [Stretch(at, piece.from, piece.to)] else []
  }

  function StretchesOf(pieces: seq<Piece>, at: nat): seq<Stretch> {
    if pieces == [] then []
    else
      FirstStretch(pieces[0], at) + StretchesOf(pieces[1..], at + PieceLength(pieces[0]))
  }

  lemma {:induction false} StretchAnchors(pieces: seq<Piece>, at: nat)
    ensures |StretchesOf(pieces, at)| == |AnchorsOf(pieces, at)|
    ensures forall i | 0 <= i < |StretchesOf(pieces, at)| ::
              AnchorsOf(pieces, at)[i] == (StretchesOf(pieces, at)[i].at, StretchesOf(pieces, at)[i].from)
    decreases |pieces|
  {
    if pieces != [] {
      StretchAnchors(pieces[1..], at + PieceLength(pieces[0]));
    }
  }

  /** Each stretch ends, in both texts, no later than the next begins. */
  ghost predicate InOrder(st: seq<Stretch>) {
    forall i | 0 <= i < |st| - 1 :: st[i].at + (st[i].to - st[i].from) <= st[i + 1].at && st[i].to <= st[i + 1].from
  }

  ghost predicate WithinAll(st: seq<Stretch>, at: nat, start: nat, end: nat) {
    forall s | s in st :: at <= s.at && start <= s.from <= s.to <= end
  }

  lemma OrderedWithFirst(first: Stretch, rest: seq<Stretch>, at: nat, start: nat, end: nat)
    requires InOrder(rest) && start <= first.from <= first.to <= end && at <= first.at
    requires WithinAll(rest, first.at + (first.to - first.from), first.to, end)
    ensures InOrder([first] + rest) && WithinAll([first] + rest, at, start, end)
  {
    if rest != [] {
      assert rest[0] in rest;
    }
  }

  lemma {:induction false} StretchesInOrder(pieces: seq<Piece>, at: nat, start: nat, end: nat)
    requires Ordered(pieces, start, end)
    ensures InOrder(StretchesOf(pieces, at)) && WithinAll(StretchesOf(pieces, at), at, start, end)
    decreases |pieces|
  {
    hide InOrder, WithinAll;
    if pieces == [] {
      NoneInOrder(at, start, end);
    } else {
      OrderedWithin(pieces, start, end);
      var piece, next := pieces[0], at + PieceLength(pieces[0]);
      var rest := StretchesOf(pieces[1..], next);
      assert piece in pieces;
      StretchesInOrder(pieces[1..], next, if piece.Copied? then piece.to else start, end);
      if piece.Copied? {
        OrderedWithFirst(Stretch(at, piece.from, piece.to), rest, at, start, end);
      } else {
        assert StretchesOf(pieces, at) == rest;
        WithinEarlier(rest, next, at, start, end);
      }
    }
  }

  lemma NoneInOrder(at: nat, start: nat, end: nat)
    ensures InOrder([]) && WithinAll([], at, start, end)
  {
  }

  lemma WithinEarlier(st: seq<Stretch>, next: nat, at: nat, start: nat, end: nat)
    requires WithinAll(st, next, start, end) && at <= next
    ensures WithinAll(st, at, start, end)
  {
  }

  /** The pieces copy from where the source has something to copy. */
  ghost predicate Readable(source: string, pieces: seq<Piece>) {
    Ordered(pieces, 0, |source|) && forall p | p in pieces && p.Copied? :: p.from <= p.to <= |source|
  }

  function PieceText(source: string, p: Piece): string
    requires p.Copied? ==> p.from <= p.to <= |source|
  {
    match p
    case Copied(from, to) => source[from..to]
    case Inserted(text) => text
  }

  lemma FirstPiece(source: string, pieces: seq<Piece>, at: nat)
    requires pieces != [] && Readable(source, pieces)
    ensures pieces[0].Copied? ==> pieces[0].from <= pieces[0].to <= |source| && |PieceText(source, pieces[0])| == pieces[0].to - pieces[0].from
    ensures pieces[0].Inserted? ==> PieceText(source, pieces[0]) == pieces[0].text
    ensures Readable(source, pieces[1..]) && PieceLength(pieces[0]) == |PieceText(source, pieces[0])|
    ensures Flatten(source, pieces) == PieceText(source, pieces[0]) + Flatten(source, pieces[1..])
    ensures Length(pieces) == |PieceText(source, pieces[0])| + Length(pieces[1..])
    ensures StretchesOf(pieces, at)
         == FirstStretch(pieces[0], at) + StretchesOf(pieces[1..], at + |PieceText(source, pieces[0])|)
  {
    assert pieces[0] in pieces;
    OrderedLater(pieces, |source|);
  }

  /** The byte of the rewritten text at an offset. */
  function CharAt(source: string, pieces: seq<Piece>, k: nat): char
    requires Readable(source, pieces) && k < Length(pieces)
  {
    Flatten(source, pieces)[k]
  }

  lemma FirstChar(source: string, pieces: seq<Piece>, k: nat)
    requires Readable(source, pieces) && pieces != [] && k < PieceLength(pieces[0])
    ensures k < Length(pieces)
    ensures match pieces[0]
            case Copied(from, to) => from + k < |source| && CharAt(source, pieces, k) == source[from + k]
            case Inserted(text) => k < |text| && CharAt(source, pieces, k) == text[k]
  {
    FirstPiece(source, pieces, 0);
    hide Readable, StretchesOf, Flatten, Length;
    var text, rest := PieceText(source, pieces[0]), Flatten(source, pieces[1..]);
    assert (text + rest)[k] == text[k];
  }

  lemma RestChar(source: string, pieces: seq<Piece>, k: nat)
    requires Readable(source, pieces) && pieces != [] && PieceLength(pieces[0]) <= k
    ensures Readable(source, pieces[1..]) && Length(pieces) == PieceLength(pieces[0]) + Length(pieces[1..])
    ensures k < Length(pieces) ==> CharAt(source, pieces, k) == CharAt(source, pieces[1..], k - PieceLength(pieces[0]))
  {
    FirstPiece(source, pieces, 0);
    hide Readable, StretchesOf, Flatten, Length, PieceLength;
    if k < Length(pieces) {
      Later(PieceText(source, pieces[0]), Flatten(source, pieces[1..]), k);
    }
  }

  lemma StretchesGoOn(source: string, pieces: seq<Piece>, at: nat)
    requires Readable(source, pieces) && pieces != []
    ensures StretchesOf(pieces, at) == FirstStretch(pieces[0], at) + StretchesOf(pieces[1..], at + PieceLength(pieces[0]))
    ensures forall s | s in StretchesOf(pieces[1..], at + PieceLength(pieces[0])) :: at + PieceLength(pieces[0]) <= s.at
  {
    FirstPiece(source, pieces, at);
    hide Readable, StretchesOf, FirstStretch;
    StretchesAfter(source, pieces[1..], at + PieceLength(pieces[0]));
  }

  lemma {:induction false} StretchChar(source: string, pieces: seq<Piece>, at: nat, i: nat, o: nat)
    requires Readable(source, pieces) && i < |StretchesOf(pieces, at)|
    requires Within(source, StretchesOf(pieces, at)[i], o)
    ensures var s := StretchesOf(pieces, at)[i];
            at <= o < at + Length(pieces) && CharAt(source, pieces, o - at) == source[s.from + (o - s.at)]
    decreases |pieces|
  {
    hide *;
    NoPiecesNoStretches(pieces, at);
    StretchesGoOn(source, pieces, at);
    var first, next := FirstStretch(pieces[0], at), at + PieceLength(pieces[0]);
    var rest := StretchesOf(pieces[1..], next);
    WithinMeans(source, StretchesOf(pieces, at)[i], o);
    if i < |first| {
      NthOfFirst(first, rest, i);
      assert first[i] in first;
      CopiedLength(pieces[0]);
      FirstChar(source, pieces, o - at);
    } else {
      NthOfRest(first, rest, i);
      assert rest[i - |first|] in rest;
      RestChar(source, pieces, o - at);
      StretchChar(source, pieces[1..], next, i - |first|, o);
    }
  }

  lemma WithinMeans(source: string, s: Stretch, o: nat)
    requires Within(source, s, o)
    ensures s.from <= s.to <= |source| && s.at <= o < s.at + (s.to - s.from)
  {
  }

  lemma CopiedLength(p: Piece)
    ensures p.Copied? && p.from <= p.to ==> PieceLength(p) == p.to - p.from
  {
  }

  /** The offset lies in the stretch, and the stretch in the source. */
  ghost predicate Within(source: string, s: Stretch, o: nat) {
    s.from <= s.to <= |source| && s.at <= o < s.at + (s.to - s.from)
  }

  lemma NoPiecesNoStretches(pieces: seq<Piece>, at: nat)
    ensures StretchesOf(pieces, at) != [] || Length(pieces) > 0 ==> pieces != []
  {
  }

  lemma NthOfFirst<T>(first: seq<T>, rest: seq<T>, i: nat)
    requires i < |first|
    ensures (first + rest)[i] == first[i]
  {
  }

  lemma NthOfRest<T>(first: seq<T>, rest: seq<T>, i: nat)
    requires |first| <= i < |first| + |rest|
    ensures (first + rest)[i] == rest[i - |first|]
  {
  }

  lemma Later(first: string, rest: string, k: nat)
    requires |first| <= k < |first| + |rest|
    ensures (first + rest)[k] == rest[k - |first|]
  {
  }

  lemma OrderedLater(pieces: seq<Piece>, end: nat)
    requires pieces != [] && Ordered(pieces, 0, end)
    ensures Ordered(pieces[1..], 0, end)
  {
    if pieces[0].Copied? {
      OrderedFromEarlier(pieces[1..], 0, pieces[0].to, end);
    }
  }

  predicate IsAscii(text: string) {
    forall i | 0 <= i < |text| :: text[i] < '\U{80}'
  }

  predicate AsciiInserts(pieces: seq<Piece>) {
    forall p | p in pieces && p.Inserted? :: IsAscii(p.text)
  }

  /** An offset lies past one stretch and before the next; -1 stands for what comes before the
      first. */
  ghost predicate InGap(st: seq<Stretch>, i: int, o: nat) {
    && -1 <= i < |st|
    && (i >= 0 ==> st[i].from <= st[i].to && st[i].at + (st[i].to - st[i].from) <= o)
    && (i + 1 < |st| ==> o < st[i + 1].at)
  }

  lemma GapGoesOn(first: seq<Stretch>, rest: seq<Stretch>, next: nat, i: int, o: nat)
    requires |first| <= 1 && InGap(first + rest, i, o)
    requires forall s | s in first :: s.at <= o && s.from <= s.to && next == s.at + (s.to - s.from)
    requires forall s | s in rest :: next <= s.at && s.from <= s.to
    requires first == [] ==> next <= o
    ensures InGap(rest, i - |first|, o) && next <= o
  {
    var st := first + rest;
    if first != [] {
      assert first[0] in first && st[0] == first[0];
      assert i > 0 ==> st[i] == rest[i - 1] && rest[i - 1] in rest;
      assert i + 1 < |st| ==> st[i + 1] == rest[i];
    } else {
      assert st == rest;
    }
  }

  lemma GapMovesOn(source: string, pieces: seq<Piece>, at: nat, next: nat, i: int, o: nat) returns (j: int)
    requires pieces != [] && Readable(source, pieces) && next == at + PieceLength(pieces[0])
    requires InGap(StretchesOf(pieces, at), i, o) && at <= o && (pieces[0].Inserted? ==> next <= o)
    ensures InGap(StretchesOf(pieces[1..], next), j, o) && next <= o
  {
    j := i - |FirstStretch(pieces[0], at)|;
    FirstPiece(source, pieces, at);
    hide Readable, StretchesOf, Flatten, Length, InGap;
    StretchesAfter(source, pieces[1..], next);
    GapGoesOn(FirstStretch(pieces[0], at), StretchesOf(pieces[1..], next), next, i, o);
  }

  /** What follows a stretch and comes before the next is inserted text. */
  lemma {:induction false} GapChar(source: string, pieces: seq<Piece>, at: nat, i: int, o: nat)
    requires Readable(source, pieces) && AsciiInserts(pieces)
    requires InGap(StretchesOf(pieces, at), i, o) && at <= o < at + Length(pieces)
    ensures !Continues(CharAt(source, pieces, o - at))
    decreases |pieces|
  {
    hide *;
    NoPiecesNoStretches(pieces, at);
    if pieces[0].Inserted? && o < at + PieceLength(pieces[0]) {
      InsertedChar(source, pieces, o - at);
    } else {
      var j := GapStep(source, pieces, at, i, o);
      GapChar(source, pieces[1..], at + PieceLength(pieces[0]), j, o);
    }
  }

  lemma InsertedChar(source: string, pieces: seq<Piece>, k: nat)
    requires Readable(source, pieces) && AsciiInserts(pieces) && pieces != [] && pieces[0].Inserted? && k < PieceLength(pieces[0])
    ensures k < Length(pieces) && !Continues(CharAt(source, pieces, k))
  {
    hide *;
    AsciiPieces(pieces);
    FirstChar(source, pieces, k);
    AsciiNeverContinues(pieces[0].text, k);
  }

  lemma GapStep(source: string, pieces: seq<Piece>, at: nat, i: int, o: nat) returns (j: int)
    requires Readable(source, pieces) && AsciiInserts(pieces) && pieces != [] && InGap(StretchesOf(pieces, at), i, o)
    requires at <= o < at + Length(pieces) && (pieces[0].Inserted? ==> at + PieceLength(pieces[0]) <= o)
    ensures var next := at + PieceLength(pieces[0]);
      && Readable(source, pieces[1..]) && AsciiInserts(pieces[1..]) && InGap(StretchesOf(pieces[1..], next), j, o)
      && next <= o < next + Length(pieces[1..]) && CharAt(source, pieces, o - at) == CharAt(source, pieces[1..], o - next)
  {
    hide *;
    AsciiPieces(pieces);
    j := GapMovesOn(source, pieces, at, at + PieceLength(pieces[0]), i, o);
    RestChar(source, pieces, o - at);
  }

  lemma AsciiPieces(pieces: seq<Piece>)
    requires pieces != [] && AsciiInserts(pieces)
    ensures AsciiInserts(pieces[1..]) && (pieces[0].Inserted? ==> IsAscii(pieces[0].text))
  {
    hide IsAscii;
    assert pieces[0] in pieces;
  }

  lemma AsciiNeverContinues(text: string, k: nat)
    requires IsAscii(text) && k < |text|
    ensures !Continues(text[k])
  {
  }

  lemma StretchesAfter(source: string, pieces: seq<Piece>, at: nat)
    requires Readable(source, pieces)
    ensures forall s | s in StretchesOf(pieces, at) :: at <= s.at && s.from <= s.to
  {
    hide InOrder;
    StretchesInOrder(pieces, at, 0, |source|);
  }

  lemma DelimitersAreAscii(dash: bool)
    ensures IsAscii(OutputOpen(dash)) && IsAscii(OutputClose(dash)) && IsAscii("{% ") && IsAscii(" %}")
  {
  }

  lemma StatementAscii(line: string, start: nat)
    ensures AsciiInserts(StatementPieces(line, start))
  {
    hide Trim, LeadingWhitespace, OutputOpen, OutputClose, IsAscii, EchoArgument;
    DelimitersAreAscii(false);
  }

  lemma {:induction false} LinesAscii(t: string, start: nat)
    ensures AsciiInserts(LinesPieces(t, start))
    decreases |t|
  {
    hide StatementPieces, IsAscii;
    if t != "" {
      StatementAscii(t[..LineLength(t)], start);
      LinesAscii(t[LineLength(t)..], start + LineLength(t));
    }
  }

  lemma BodyAscii(body: Body, at: nat)
    ensures AsciiInserts(BodyPieces(body, at))
  {
    hide Trim, LeadingWhitespace, LinesPieces, OutputOpen, OutputClose, IsAscii;
    DelimitersAreAscii(false);
    match body
    case Statements(skip, text) => LinesAscii(text, at + skip);
    case Output(dashOpen, _, _, dashClose) =>
      DelimitersAreAscii(dashOpen);
      DelimitersAreAscii(dashClose);
    case _ =>
  }

  /** Only ASCII is ever inserted, and the last stretch reaches the source's end. */
  lemma {:induction false} ScanAscii(source: string, copied: nat, i: nat)
    requires copied <= i <= |source|
    ensures AsciiInserts(Scan(source, copied, i))
    ensures var pieces := Scan(source, copied, i);
            pieces != [] && pieces[|pieces| - 1].Copied? && pieces[|pieces| - 1].to == |source|
    decreases |source| - i
  {
    hide Step, BodyPieces, IsAscii;
    if i + 1 < |source| {
      match Step(source[i..])
      case Stop =>
      case Verbatim(n) => ScanAscii(source, copied, i + n);
      case Replace(n, trim, body) =>
        BodyAscii(body, i + 2);
        ScanAscii(source, i + n, i + n);
    }
  }

  lemma {:induction false} LastStretch(pieces: seq<Piece>, at: nat)
    requires pieces != [] && pieces[|pieces| - 1].Copied?
    ensures StretchesOf(pieces, at) != []
    ensures StretchesOf(pieces, at)[|StretchesOf(pieces, at)| - 1].to == pieces[|pieces| - 1].to
    decreases |pieces|
  {
    if |pieces| > 1 {
      LastStretch(pieces[1..], at + PieceLength(pieces[0]));
    } else {
      assert pieces[1..] == [];
    }
  }

  function Stretches(source: string): seq<Stretch> {
    StretchesOf(Scan(source, 0, 0), 0)
  }

  /** All the proof below needs of the stretches of one source. */
  lemma StretchLaws(source: string)
    ensures var st, anchors := Stretches(source), Mapping(source);
            && |st| == |anchors| && st[|st| - 1].to == |source|
            && (forall i | 0 <= i < |st| :: anchors[i] == (st[i].at, st[i].from) && st[i].from <= st[i].to <= |source|)
            && (forall i | 0 <= i < |st| - 1 :: st[i].at + (st[i].to - st[i].from) <= st[i + 1].at && st[i].to <= st[i + 1].from)
  {
    hide Scan, Rewritten, StretchesOf;
    var pieces := Scan(source, 0, 0);
    ScanIsOrdered(source);
    ScanAscii(source, 0, 0);
    LastStretch(pieces, 0);
    StretchAnchors(pieces, 0);
    StretchesInOrder(pieces, 0, 0, |source|);
    forall i | 0 <= i < |Stretches(source)|
      ensures Stretches(source)[i].from <= Stretches(source)[i].to <= |source|
    {
      assert Stretches(source)[i] in Stretches(source);
    }
  }

  /** How much is inserted between a stretch and the next. */
  function Gap(st: seq<Stretch>, i: nat): int
    requires i + 1 < |st|
  {
    st[i + 1].at - (st[i].at + st[i].to - st[i].from)
  }

  /** No character goes on at any byte the inserted text reaches. */
  ghost predicate ClearGap(source: string, st: seq<Stretch>, i: nat)
    requires i + 1 < |st|
  {
    forall x: nat | st[i].to <= x <= st[i + 1].from && x < st[i].to + Gap(st, i) :: OnBoundary(source, x)
  }

  lemma StretchLands(source: string, g: nat, offset: nat)
    requires Fits(source) && g < |Stretches(source)|
    requires Stretches(source)[g].at <= offset <= |Rewritten("", source)|
    requires g + 1 < |Stretches(source)| ==> offset < Stretches(source)[g + 1].at
    ensures var st := Stretches(source);
            if offset < st[g].at + st[g].to - st[g].from then
              OnBoundary(source, Resolved(source, offset)) <==> OnBoundary(Rewritten("", source), offset)
            else if g + 1 < |st| then
              && OnBoundary(Rewritten("", source), offset)
              && Resolved(source, offset) == Min(st[g].from + (offset - st[g].at), st[g + 1].from)
            else OnBoundary(source, Resolved(source, offset))
  {
    hide Scan, Mapping, Rewritten, Resolved, StretchesOf, Continues;
    var st, pieces := Stretches(source), Scan(source, 0, 0);
    StretchLaws(source);
    BetweenAnchors(source, g, offset);
    ScanIsOrdered(source);
    ScanAscii(source, 0, 0);
    if offset < st[g].at + st[g].to - st[g].from {
      StretchChar(source, pieces, 0, g, offset);
    } else if g + 1 < |st| && offset < |Rewritten("", source)| {
      GapChar(source, pieces, 0, g, offset);
    }
  }

  lemma ClearGapLands(source: string, offset: nat)
    requires Fits(source) && offset <= |Rewritten("", source)| && OnBoundary(Rewritten("", source), offset)
    requires forall i: nat | i + 1 < |Stretches(source)| :: ClearGap(source, Stretches(source), i)
    ensures OnBoundary(source, Resolved(source, offset))
  {
    hide Mapping, Rewritten, Resolved, OnBoundary, Stretches, PartitionPoint;
    var st, anchors := Stretches(source), Mapping(source);
    StretchLaws(source);
    var g := PartitionPoint(anchors, offset) - 1;
    assert g >= 0 by {
      assert anchors[0] == (0, 0);
    }
    StretchLands(source, g, offset);
    assert g + 1 < |st| ==> ClearGap(source, st, g);
  }

  lemma GapMislands(source: string, i: nat, x: nat) returns (offset: nat)
    requires Fits(source) && i + 1 < |Stretches(source)|
    requires Stretches(source)[i].to <= x <= Stretches(source)[i + 1].from && x < Stretches(source)[i].to + Gap(Stretches(source), i)
    ensures offset <= |Rewritten("", source)| && OnBoundary(Rewritten("", source), offset) && Resolved(source, offset) == x
  {
    hide Mapping, Rewritten, Resolved, OnBoundary, Stretches;
    var st, anchors := Stretches(source), Mapping(source);
    StretchLaws(source);
    MappingLaws(source);
    offset := st[i].at + (x - st[i].from);
    assert anchors[i + 1].0 <= |Rewritten("", source)|;
    StretchLands(source, i, offset);
  }

  /** Every offset that stands on a boundary of the rewritten text resolves to one of the source,
      if and only if no character of the source goes on at a byte reached by the text inserted
      between two copied stretches. */
  lemma EveryOffsetLandsIff(source: string)
    requires Fits(source)
    ensures (forall offset: nat | offset <= |Rewritten("", source)| && OnBoundary(Rewritten("", source), offset) ::
               OnBoundary(source, Resolved(source, offset)))
            <==> forall i: nat | i + 1 < |Stretches(source)| :: ClearGap(source, Stretches(source), i)
  {
    hide Mapping, Rewritten, Resolved, OnBoundary, Stretches, Fits;
    if forall i: nat | i + 1 < |Stretches(source)| :: ClearGap(source, Stretches(source), i) {
      forall offset: nat | offset <= |Rewritten("", source)| && OnBoundary(Rewritten("", source), offset)
        ensures OnBoundary(source, Resolved(source, offset))
      {
        ClearGapLands(source, offset);
      }
    } else {
      var st := Stretches(source);
      var i: nat :| i + 1 < |st| && !ClearGap(source, st, i);
      var x: nat :| st[i].to <= x <= st[i + 1].from && x < st[i].to + Gap(st, i) && !OnBoundary(source, x);
      var offset := GapMislands(source, i, x);
    }
  }

  /* ---- A statement, a comment of one two-byte character, a statement ---- */

  const BODY := " a\n#\U{C3}\U{A9}\nb "

  const TAG := Special(Liquid, false, " ", BODY, false)

  const SOURCE := "{% liquid a\n#\U{C3}\U{A9}\nb %}"

  lemma LetterIsNotSpace(w: string)
    requires w != "" && (w[0] == 'a' || w[0] == 'b' || w[0] == '#')
    ensures !IsSpace(w)
  {
  }

  lemma NothingLeads(t: string)
    requires t != "" && (t[0] == 'a' || t[0] == 'b' || t[0] == '#')
    ensures LeadingWhitespace(t) == 0
  {
    hide IsSpace;
    if |t| >= 1 { LetterIsNotSpace(t[..1]); }
    if |t| >= 2 { LetterIsNotSpace(t[..2]); }
    if |t| >= 3 { LetterIsNotSpace(t[..3]); }
  }

  lemma OneLetter(letter: string)
    requires letter == "a" || letter == "b"
    ensures TrimEnd(letter) == letter
  {
    hide IsSpace;
    LetterIsNotSpace(letter);
    assert letter[0..] == letter;
  }

  lemma SpaceAfter(letter: string, space: string)
    requires (letter == "a" || letter == "b") && (space == " " || space == "\n")
    ensures TrimEnd(letter + space) == letter
  {
    hide LeadingWhitespace;
    OneLetter(letter);
    var t := letter + space;
    assert t[1..] == space && IsSpace(space) && t[..1] == letter;
    assert SpaceAtEnd(t) == 1;
  }

  lemma FirstLine()
    ensures LeadingWhitespace(" a\n") == 1 && Trim(" a\n") == "a"
  {
    var t := " a\n";
    assert t[..1] == " " && IsSpace(" ") && SpaceAtStart(t) == 1;
    assert t[1..] == "a" + "\n";
    NothingLeads(t[1..]);
    SpaceAfter("a", "\n");
  }

  lemma LastLine()
    ensures LeadingWhitespace("b ") == 0 && Trim("b ") == "b"
  {
    assert "b " == "b" + " " && "b "[0..] == "b ";
    NothingLeads("b ");
    SpaceAfter("b", " ");
  }

  lemma CommentLineIsSilent(t: string)
    requires t != "" && t[0] == '#'
    ensures IsSilent(Trim(t))
  {
    hide TrimEnd, SpaceAtEnd;
    NothingLeads(t);
  }

  lemma BodyLines(start: nat)
    ensures LinesPieces(BODY, start) ==
            [Inserted("{% "), Copied(start + 1, start + 2), Inserted(" %}"), Inserted("{% "), Copied(start + 7, start + 8), Inserted(" %}")]
  {
    hide StatementPieces, LinesPieces;
    var comment, last := "#\U{C3}\U{A9}\n", "b ";
    BodyIsLines();
    LineThenRest(" a\n", comment + last, start);
    LineThenRest(comment, last, start + 3);
    LineThenRest(last, "", start + 7);
    NoLines(start + 9);
    PlainLine(" a\n", "a", 1, start);
    PlainLine(last, "b", 0, start + 7);
    CommentLine(comment, start + 3);
  }

  lemma BodyIsLines()
    ensures BODY == " a\n" + ("#\U{C3}\U{A9}\n" + "b ") && "b " + "" == "b "
  {
  }

  lemma LineThenRest(line: string, rest: string, start: nat)
    requires line != "" && (forall i | 0 <= i < |line| - 1 :: line[i] != '\n') && (rest == "" || line[|line| - 1] == '\n')
    ensures LinesPieces(line + rest, start) == StatementPieces(line, start) + LinesPieces(rest, start + |line|)
  {
    hide StatementPieces, LineLength;
    hide LinesPieces;
    LineIs(line, rest);
    FirstOf(line + rest, start);
  }

  lemma FirstOf(t: string, start: nat)
    requires t != ""
    ensures LinesPieces(t, start) == StatementPieces(t[..LineLength(t)], start) + LinesPieces(t[LineLength(t)..], start + LineLength(t))
  {
    hide StatementPieces, LineLength;
  }

  lemma PlainLine(line: string, letter: string, lead: nat, start: nat)
    requires (line == " a\n" && letter == "a" && lead == 1) || (line == "b " && letter == "b" && lead == 0)
    ensures StatementPieces(line, start) == [Inserted("{% "), Copied(start + lead, start + lead + 1), Inserted(" %}")]
  {
    hide Trim, LeadingWhitespace;
    FirstLine();
    LastLine();
  }

  lemma CommentLine(line: string, start: nat)
    requires line != "" && line[0] == '#'
    ensures StatementPieces(line, start) == []
  {
    hide Trim, LeadingWhitespace;
    CommentLineIsSilent(line);
  }

  /** A text's first line, when it is all there is up to its newline. */
  lemma {:induction false} LineIs(line: string, rest: string)
    requires line != "" && (forall i | 0 <= i < |line| - 1 :: line[i] != '\n') && (rest == "" || line[|line| - 1] == '\n')
    ensures LineLength(line + rest) == |line|
    ensures (line + rest)[..|line|] == line && (line + rest)[|line|..] == rest
    decreases |line|
  {
    if |line| > 1 {
      assert (line + rest)[1..] == line[1..] + rest;
      LineIs(line[1..], rest);
    } else if rest == "" {
      assert (line + rest)[1..] == "";
    }
  }

  lemma {:induction false} QuietBody(l: Line, t: string)
    requires !l.Literal? && forall i | 0 <= i < |t| :: !IsQuote(t[i]) && t[i] != '%'
    ensures LiquidEndFrom(l, t + "%}") == Some(|t|)
    decreases |t|
  {
    if t == "" {
      assert t + "%}" == "%}" && "%}"[..2] == "%}";
    } else {
      assert (t + "%}")[1..] == t[1..] + "%}" && (t + "%}")[..2][0] == t[0];
      QuietBody(AfterLineChar(l, t[0]), t[1..]);
    }
  }

  lemma TagPrints()
    ensures Print(TAG) == SOURCE && |SOURCE| == 20
  {
    assert "{%" + ("" + (" " + ("liquid" + (BODY + "" + "%}")))) == SOURCE;
  }

  lemma TagOk()
    ensures SpecialOk(TAG)
  {
    hide LiquidEndFrom;
    TagRest();
    QuietBody(LineStart, BODY);
    assert BODY[0] == ' ' && BODY[|BODY| - 1] == ' ';
  }

  lemma TagRest()
    ensures SpecialRest(TAG) == BODY + "%}" && BODY + Dash(false) == BODY
  {
    assert BODY + "" == BODY;
  }

  lemma SourceRewritten()
    ensures Scan(SOURCE, 0, 0) ==
            [Copied(0, 0), Inserted("{% "), Copied(10, 11), Inserted(" %}"), Inserted("{% "), Copied(16, 17), Inserted(" %}"), Copied(20, 20)]
  {
    hide Step, Print, SpecialOk, LinesPieces;
    TagOk();
    TagPrints();
    ReadsSpecial(TAG, "");
    assert SOURCE + "" == SOURCE && SOURCE[0..] == SOURCE;
    BodyLines(9);
    var m := Replace(20, false, Statements(7, BODY));
    assert Step(SOURCE[0..]) == m;
    assert BodyPieces(m.body, 2) == LinesPieces(BODY, 9);
    assert Scan(SOURCE, 20, 20) == [Copied(20, 20)];
    assert Scan(SOURCE, 0, 0) == [Copied(0, 0)] + LinesPieces(BODY, 9) + [Copied(20, 20)];
  }

  lemma SourceAnchors()
    ensures Mapping(SOURCE) == [(0, 0), (3, 10), (10, 16), (14, 20)]
  {
    hide Scan;
    SourceRewritten();
    ZeroLength();
    hide AnchorsOf, Length;
    var a, b := [Inserted("{% "), Copied(10, 11), Inserted(" %}")], [Inserted("{% "), Copied(16, 17), Inserted(" %}")];
    assert Scan(SOURCE, 0, 0) == [Copied(0, 0)] + (a + (b + [Copied(20, 20)]));
    AnchorsConcat([Copied(0, 0)], a + (b + [Copied(20, 20)]), 0);
    AnchorsConcat(a, b + [Copied(20, 20)], 0);
    AnchorsConcat(b, [Copied(20, 20)], 7);
    OneStretch(0, 0, 0);
    OneStretch(20, 20, 14);
    OneCopied("{% ", 10, 11, " %}", 0);
    OneCopied("{% ", 16, 17, " %}", 7);
    OneCopiedLength("{% ", 10, "a", " %}");
    OneCopiedLength("{% ", 16, "b", " %}");
  }

  lemma ZeroLength()
    ensures Length([Copied(0, 0)]) == 0
  {
    assert [Copied(0, 0)][1..] == [];
  }

  const ANCHORS: seq<Anchor> := [(0, 0), (3, 10), (10, 16), (14, 20)]

  lemma SevenResolves()
    ensures ToSource(ANCHORS, 20, 7) == 14
  {
    hide PartitionPoint;
    GoverningIs(ANCHORS, 14, 20, 7, 2);
  }

  /** Between the two statements' tags an offset resolves to the second byte of the comment's
      character, where the source cannot be sliced. */
  lemma InsertedLandsInsideCharacter()
    ensures Resolved(SOURCE, 7) == 14 && !OnBoundary(SOURCE, 14)
  {
    hide Scan, Mapping, NarrowAll, ToSource, Narrow;
    SourceRewritten();
    SourceAnchors();
    TagPrints();
    RecordedIff(SOURCE);
    NarrowBelow(20);
    SevenResolves();
    assert |Scan(SOURCE, 0, 0)| == 8;
  }
}
