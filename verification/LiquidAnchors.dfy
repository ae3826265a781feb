/** Rewritten text as pieces copied from the source or inserted, and the anchors that lead an
    offset in it back to the source. */
module LiquidAnchors {

  datatype Piece = Copied(from: nat, to: nat) | Inserted(text: string)

  function PieceLength(p: Piece): nat {
    match p
    case Copied(from, to) => if from <= to then to - from else 0
    case Inserted(text) => |text|
  }

  function Length(pieces: seq<Piece>): nat {
    if pieces == [] then 0 else PieceLength(pieces[0]) + Length(pieces[1..])
  }

  /** What is copied is copied in order: each stretch starts no earlier than the last ended. */
  predicate Ordered(pieces: seq<Piece>, start: nat, end: nat) {
    if pieces == [] then start <= end
    else
      match pieces[0]
      case Copied(from, to) => start <= from <= to && Ordered(pieces[1..], to, end)
      case Inserted(_) => Ordered(pieces[1..], start, end)
  }

  lemma {:induction false} OrderedWithin(pieces: seq<Piece>, start: nat, end: nat)
    requires Ordered(pieces, start, end)
    ensures start <= end
    ensures forall p | p in pieces && p.Copied? :: start <= p.from <= p.to <= end
  {
    if pieces != [] {
      OrderedWithin(pieces[1..], if pieces[0].Copied? then pieces[0].to else start, end);
    }
  }

  lemma {:induction false} OrderedConcat(a: seq<Piece>, b: seq<Piece>, start: nat, middle: nat, end: nat)
    requires Ordered(a, start, middle) && Ordered(b, middle, end)
    ensures Ordered(a + b, start, end)
  {
    if a == [] {
      assert a + b == b;
      OrderedFromEarlier(b, start, middle, end);
    } else {
      assert (a + b)[1..] == a[1..] + b;
      OrderedConcat(a[1..], b, if a[0].Copied? then a[0].to else start, middle, end);
    }
  }

  lemma {:induction false} OrderedFromEarlier(b: seq<Piece>, start: nat, middle: nat, end: nat)
    requires start <= middle && Ordered(b, middle, end)
    ensures Ordered(b, start, end)
  {
    if b != [] && b[0].Inserted? {
      OrderedFromEarlier(b[1..], start, middle, end);
    }
  }

  function Flatten(source: string, pieces: seq<Piece>): (text: string)
    requires forall p | p in pieces && p.Copied? :: p.from <= p.to <= |source|
    ensures |text| == Length(pieces)
  {
    if pieces == [] then ""
    else (match pieces[0] case Copied(from, to) => source[from..to] case Inserted(text) => text) + Flatten(source, pieces[1..])
  }

  lemma {:induction false} FlattenConcat(source: string, a: seq<Piece>, b: seq<Piece>)
    requires forall p | p in a + b && p.Copied? :: p.from <= p.to <= |source|
    ensures (forall p | p in a && p.Copied? :: p.from <= p.to <= |source|)
    ensures (forall p | p in b && p.Copied? :: p.from <= p.to <= |source|)
    ensures Flatten(source, a + b) == Flatten(source, a) + Flatten(source, b)
  {
    assert forall p | p in a || p in b :: p in a + b;
    if a == [] {
      assert a + b == b;
    } else {
      assert (a + b)[1..] == a[1..] + b;
      FlattenConcat(source, a[1..], b);
    }
  }

  /* ---- Anchors ---- */

  /** Where rewritten text and source agree, one anchor where each copied stretch begins. */
  type Anchor = (nat, nat)

  function AnchorsOf(pieces: seq<Piece>, at: nat): seq<Anchor> {
    if pieces == [] then []
    else
      (if pieces[0].Copied? then [(at, pieces[0].from)] else []) + AnchorsOf(pieces[1..], at + PieceLength(pieces[0]))
  }

  lemma {:induction false} AnchorsConcat(a: seq<Piece>, b: seq<Piece>, at: nat)
    ensures AnchorsOf(a + b, at) == AnchorsOf(a, at) + AnchorsOf(b, at + Length(a))
    ensures Length(a + b) == Length(a) + Length(b)
    decreases |a|
  {
    hide PieceLength;
    if a == [] {
      assert a + b == b;
    } else {
      var whole, next := a + b, at + PieceLength(a[0]);
      assert whole[0] == a[0] && whole[1..] == a[1..] + b;
      AnchorsConcat(a[1..], b, next);
      var first := if a[0].Copied? then [(at, a[0].from)] else [];
      assert AnchorsOf(whole, at) == first + AnchorsOf(whole[1..], next) && AnchorsOf(a, at) == first + AnchorsOf(a[1..], next);
      assert at + Length(a) == next + Length(a[1..]);
    }
  }

  /** Ascending in both components, and inside both texts. */
  ghost predicate Lawful(anchors: seq<Anchor>, textLength: nat, sourceLength: nat) {
    && (forall i | 0 <= i < |anchors| :: anchors[i].0 <= textLength && anchors[i].1 <= sourceLength)
    && (forall i, j | 0 <= i < j < |anchors| :: anchors[i].0 <= anchors[j].0 && anchors[i].1 <= anchors[j].1)
  }

  lemma {:induction false} AnchorsLawful(pieces: seq<Piece>, at: nat, start: nat, end: nat)
    requires Ordered(pieces, start, end)
    ensures Lawful(AnchorsOf(pieces, at), at + Length(pieces), end)
    ensures forall a | a in AnchorsOf(pieces, at) :: at <= a.0 && start <= a.1
    decreases |pieces|
  {
    hide Lawful;
    if pieces == [] {
      assert Lawful([], at, end) by {
        NoAnchorsLawful(at, end);
      }
    } else {
      OrderedWithin(pieces, start, end);
      var piece, next := pieces[0], at + PieceLength(pieces[0]);
      var rest := AnchorsOf(pieces[1..], next);
      AnchorsLawful(pieces[1..], next, if piece.Copied? then piece.to else start, end);
      assert piece in pieces;
      if piece.Copied? {
        LawfulAfter((at, piece.from), rest, next + Length(pieces[1..]), end);
        assert AnchorsOf(pieces, at) == [(at, piece.from)] + rest;
      } else {
        assert AnchorsOf(pieces, at) == rest;
      }
    }
  }

  lemma NoAnchorsLawful(textLength: nat, sourceLength: nat)
    ensures Lawful([], textLength, sourceLength)
  {
  }

  lemma LawfulAfter(first: Anchor, rest: seq<Anchor>, textLength: nat, sourceLength: nat)
    requires Lawful(rest, textLength, sourceLength) && first.0 <= textLength && first.1 <= sourceLength
    requires forall a | a in rest :: first.0 <= a.0 && first.1 <= a.1
    ensures Lawful([first] + rest, textLength, sourceLength)
  {
    assert forall i | 0 <= i < |rest| :: rest[i] in rest;
  }

  /** How many anchors lie at or before an offset. */
  function PartitionPoint(anchors: seq<Anchor>, offset: nat): (g: nat)
    ensures g <= |anchors|
    ensures g > 0 ==> anchors[g - 1].0 <= offset
    ensures g < |anchors| ==> anchors[g].0 > offset
  {
    if anchors == [] || anchors[0].0 > offset then 0 else 1 + PartitionPoint(anchors[1..], offset)
  }

  function Min(a: nat, b: nat): nat {
    if a <= b then a else b
  }

  /** Counts on from the last anchor at or before the offset, and stops at the next one. */
  function ToSource(anchors: seq<Anchor>, sourceLength: nat, offset: nat): nat {
    var g := PartitionPoint(anchors, offset);
    if g == 0 then Min(if anchors == [] then offset else anchors[0].1, sourceLength)
    else
      var limit := if g < |anchors| then anchors[g].1 else sourceLength;
      Min(anchors[g - 1].1 + (offset - anchors[g - 1].0), limit)
  }

  lemma GoverningIs(anchors: seq<Anchor>, textLength: nat, sourceLength: nat, offset: nat, g: nat)
    requires Lawful(anchors, textLength, sourceLength) && g <= |anchors|
    requires g > 0 ==> anchors[g - 1].0 <= offset
    requires g < |anchors| ==> anchors[g].0 > offset
    ensures PartitionPoint(anchors, offset) == g
  {
    var p := PartitionPoint(anchors, offset);
  }

  /** A later offset never resolves to an earlier place, and none resolves past the end. */
  lemma ToSourceIsMonotone(anchors: seq<Anchor>, textLength: nat, sourceLength: nat, a: nat, b: nat)
    requires Lawful(anchors, textLength, sourceLength) && a <= b
    ensures ToSource(anchors, sourceLength, a) <= ToSource(anchors, sourceLength, b) <= sourceLength
  {
    var g, h := PartitionPoint(anchors, a), PartitionPoint(anchors, b);
    if g < h {
      assert g < h - 1 ==> anchors[g].1 <= anchors[h - 1].1;
    }
  }

  /** The anchor of one copied stretch, and what the next anchor says. */
  lemma AnchorOfStretch(pieces: seq<Piece>, k: nat, sourceLength: nat) returns (anchors: seq<Anchor>, g: nat)
    requires Ordered(pieces, 0, sourceLength) && k < |pieces| && pieces[k].Copied?
    ensures anchors == AnchorsOf(pieces, 0) && g < |anchors|
    ensures anchors[g] == (Length(pieces[..k]), pieces[k].from) && pieces[k].from <= pieces[k].to <= sourceLength
    ensures g + 1 < |anchors| ==> Length(pieces[..k]) + (pieces[k].to - pieces[k].from) <= anchors[g + 1].0
    ensures g + 1 < |anchors| ==> pieces[k].to <= anchors[g + 1].1
  {
    hide Ordered;
    var a, piece, b := pieces[..k], pieces[k], pieces[k + 1..];
    var before := Length(a);
    var past := before + PieceLength(piece);
    assert pieces == a + ([piece] + b);
    assert AnchorsOf([piece] + b, before) == [(before, piece.from)] + AnchorsOf(b, past) by {
      assert ([piece] + b)[1..] == b;
    }
    AnchorsConcat(a, [piece] + b, 0);
    OrderedSplit(a, [piece] + b, 0, sourceLength);
    OrderedAfter(piece, b, sourceLength);
    AnchorsLawful(b, past, piece.to, sourceLength);
    anchors, g := AnchorsOf(pieces, 0), |AnchorsOf(a, 0)|;
    assert g + 1 < |anchors| ==> anchors[g + 1] in AnchorsOf(b, past);
  }

  /** On every byte copied from the source, the way back is exact. */
  lemma ExactOnCopied(pieces: seq<Piece>, k: nat, j: nat, sourceLength: nat)
    requires Ordered(pieces, 0, sourceLength)
    requires k < |pieces| && pieces[k].Copied? && j < pieces[k].to - pieces[k].from
    ensures ToSource(AnchorsOf(pieces, 0), sourceLength, Length(pieces[..k]) + j) == pieces[k].from + j
  {
    hide PartitionPoint, Lawful, Length, AnchorsOf, Ordered;
    var anchors, g := AnchorOfStretch(pieces, k, sourceLength);
    AnchorsLawful(pieces, 0, 0, sourceLength);
    GoverningIs(anchors, Length(pieces), sourceLength, Length(pieces[..k]) + j, g + 1);
  }

  lemma {:induction false} OrderedSplit(a: seq<Piece>, b: seq<Piece>, start: nat, end: nat)
    requires Ordered(a + b, start, end)
    ensures exists middle: nat :: Ordered(b, middle, end)
    decreases |a|
  {
    if a == [] {
      assert a + b == b;
    } else {
      assert (a + b)[1..] == a[1..] + b;
      OrderedSplit(a[1..], b, if a[0].Copied? then a[0].to else start, end);
    }
  }

  lemma OrderedAfter(piece: Piece, b: seq<Piece>, end: nat)
    requires piece.Copied? && exists middle: nat :: Ordered([piece] + b, middle, end)
    ensures piece.from <= piece.to <= end && Ordered(b, piece.to, end)
  {
    var middle: nat :| Ordered([piece] + b, middle, end);
    assert ([piece] + b)[1..] == b;
    OrderedWithin(b, piece.to, end);
  }
}
