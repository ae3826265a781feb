/** How much rewriting can lengthen a source, and so how long a source may be for its anchors to
    keep their order in 32 bits. */
module LiquidGrowth {
  import opened Wrappers
  import opened LiquidText
  import opened LiquidScanners
  import opened LiquidAnchors
  import opened LiquidRewrites
  import opened LiquidRewriters
  import opened LiquidLaws

  /* ---- At most seventeen characters for every five ---- */

  function MostGrown(n: nat): nat {
    n + 17 * (n / 5)
  }

  lemma GrowsTogether(a: nat, b: nat)
    ensures MostGrown(a) + MostGrown(b) <= MostGrown(a + b)
  {
    FifthsAddUp(a, b);
  }

  lemma FifthsAddUp(a: nat, b: nat)
    ensures a / 5 + b / 5 <= (a + b) / 5
  {
    var p, q, r := a / 5, b / 5, (a + b) / 5;
    assert 5 * p <= a && 5 * q <= b && a + b < 5 * r + 5;
  }

  lemma EndsInSpace(line: string)
    requires line != "" && line[|line| - 1] == '\n'
    ensures |Trim(line)| < |line|
  {
    var k := LeadingWhitespace(line);
    if k < |line| {
      var t := line[k..];
      assert t[|t| - 1..] == "\n" && IsSpace("\n");
      assert SpaceAtEnd(t) == 1;
    }
  }

  /** A statement of one character is the worst; a line that is not the last has its newline. */
  lemma StatementGrows(line: string)
    ensures |StatementText(line)| <= 4 * |line| + 3
    ensures line != "" && line[|line| - 1] == '\n' ==> |StatementText(line)| <= 4 * |line|
  {
    hide Trim, LeadingWhitespace, SpaceAtEnd, EchoArgument, OutputOpen, OutputClose;
    var statement := Trim(line);
    DelimiterLengths(false);
    if line != "" && line[|line| - 1] == '\n' {
      EndsInSpace(line);
    }
    if EchoArgument(statement).Some? && EchoArgument(statement).value != "" {
      EchoIsLonger(statement);
    }
  }

  lemma {:induction false} LineEnds(t: string)
    requires LineLength(t) < |t|
    ensures t[LineLength(t) - 1] == '\n'
    decreases |t|
  {
    if t[0] != '\n' {
      LineEnds(t[1..]);
    }
  }

  lemma {:induction false} LinesGrow(t: string)
    ensures |LinesText(t)| <= 4 * |t| + 3
    decreases |t|
  {
    hide StatementText;
    if t != "" {
      var n := LineLength(t);
      StatementGrows(t[..n]);
      if n < |t| {
        LineEnds(t);
      }
      LinesGrow(t[n..]);
      assert n == |t| ==> LinesText(t[n..]) == "";
    }
  }

  lemma BodyGrows(body: Body, n: nat)
    requires Inside(body, n) && n >= 2
    ensures |BodyText(body)| <= MostGrown(n)
  {
    hide LinesText, Trim, OutputOpen, OutputClose;
    match body
    case Nothing =>
    case Output(dashOpen, _, text, dashClose) =>
      DelimiterLengths(dashOpen);
      DelimiterLengths(dashClose);
      assert |text| > 0;
    case Statements(_, text) => LinesGrow(text);
    case Echo(_, text) => DelimiterLengths(false);
  }

  /** Whatever the source, every five characters read become at most twenty-two. */
  lemma {:induction false} RewrittenGrows(pending: string, rest: string)
    ensures |Rewritten(pending, rest)| <= |pending| + MostGrown(|rest|)
    decreases |rest|
  {
    hide Step, BodyText, MostGrown, TrimEndSpaces, Inside;
    if |rest| < 2 || Step(rest).Stop? {
      NeverShrinks(|rest|);
    } else {
      var n := Step(rest).n;
      if Step(rest).Verbatim? {
        RewrittenGrows(pending + rest[..n], rest[n..]);
        NeverShrinks(n);
      } else {
        StepInside(rest);
        BodyGrows(Step(rest).body, n);
        RewrittenGrows("", rest[n..]);
      }
      GrowsTogether(n, |rest| - n);
    }
  }

  lemma NeverShrinks(n: nat)
    ensures n <= MostGrown(n)
  {
  }

  /** The longest source sure to keep its anchors, whatever is in it. */
  const LONGEST_SAFE: nat := 976_128_933

  /** The rewritten text of a source up to that length can be addressed in 32 bits. */
  lemma ShortSourcesFit(source: string)
    requires |source| <= LONGEST_SAFE
    ensures Fits(source) && |Rewritten("", source)| < TWO_TO_THE_32
  {
    hide Rewritten, Mapping;
    RewrittenGrows("", source);
    MappingLaws(source);
  }

  /* ---- A source that fits and a rewritten text that does not ---- */

  function Repeated(n: nat): (s: string)
    ensures |s| == 5 * n
  {
    if n == 0 then "" else "{{x}}" + Repeated(n - 1)
  }

  lemma StepAtOutput(rest: string)
    requires |rest| >= 5 && rest[..5] == "{{x}}"
    ensures Step(rest) == Replace(5, false, Output(false, 0, "x", false))
  {
    var b := rest[2..];
    assert rest[0] == '{' && rest[1] == '{' && b[0] == 'x' && b[1] == '}' && b[2] == '}';
    LetterScanned(b);
    LetterTrimmed();
    hide ScanTo, Spaces, TrimSpaces, InPlace, AtTag;
    assert b[0..] == b && b[0..1] == "x";
  }

  lemma LetterScanned(b: string)
    requires |b| >= 3 && b[0] == 'x' && b[1] == '}' && b[2] == '}'
    ensures ScanTo(b, "}}") == Some(1)
  {
    assert b[..2][0] == 'x' && b[1..][..2] == "}}" && b[1..] != "";
    assert ScanFrom(None, b[1..], "}}") == Some(0);
  }

  lemma LetterTrimmed()
    ensures Spaces("x") == 0 && TrimSpaces("x") == "x"
  {
    assert "x"[1..] == "" && "x"[0..] == "x";
  }

  lemma {:induction false} RepeatedGrows(source: string, n: nat, i: nat, at: nat)
    requires i <= |source| && source[i..] == Repeated(n)
    ensures AnchorsOf(Scan(source, i, i), at) != []
    ensures AnchorsOf(Scan(source, i, i), at)[|AnchorsOf(Scan(source, i, i), at)| - 1].0 == at + 22 * n
    decreases n
  {
    hide *;
    if n == 0 {
      LastScan(source, i);
      OneStretch(i, |source|, at);
    } else {
      ScansOne(source, n, i);
      HeadLength(i);
      AnchorsConcat(Head(i), Scan(source, i + 5, i + 5), at);
      RepeatedGrows(source, n - 1, i + 5, at + 22);
      LastOfConcat(AnchorsOf(Head(i), at), AnchorsOf(Scan(source, i + 5, i + 5), at + 22));
    }
  }

  lemma LastOfConcat(a: seq<Anchor>, b: seq<Anchor>)
    requires b != []
    ensures a + b != [] && (a + b)[|a + b| - 1] == b[|b| - 1]
  {
  }

  function Head(i: nat): seq<Piece> {
    [Copied(i, i), Inserted(OutputOpen(false)), Copied(i + 2, i + 3), Inserted(OutputClose(false))]
  }

  lemma LastScan(source: string, i: nat)
    requires i <= |source| && source[i..] == Repeated(0)
    ensures i == |source| && Scan(source, i, i) == [Copied(i, |source|)]
  {
    hide Step;
  }

  lemma ScansOne(source: string, n: nat, i: nat)
    requires i <= |source| && source[i..] == Repeated(n) && n > 0
    ensures i + 5 <= |source| && source[i + 5..] == Repeated(n - 1)
    ensures Scan(source, i, i) == Head(i) + Scan(source, i + 5, i + 5)
  {
    hide Step;
    assert source[i..][..5] == "{{x}}" && source[i + 5..] == Repeated(n)[5..] == Repeated(n - 1);
    StepAtOutput(source[i..]);
  }

  lemma HeadLength(i: nat)
    ensures Length(Head(i)) == 22
  {
    var rest := [Inserted(OutputOpen(false)), Copied(i + 2, i + 3), Inserted(OutputClose(false))];
    assert ([Copied(i, i)] + rest)[1..] == rest && [Copied(i, i)] + rest == [Copied(i, i), Inserted(OutputOpen(false)), Copied(i + 2, i + 3), Inserted(OutputClose(false))];
    OneCopiedLength(OutputOpen(false), i + 2, "x", OutputClose(false));
  }

  /* ---- Longer sources ---- */

  function Letters(k: nat): (s: string)
    ensures |s| == k && forall i | 0 <= i < k :: s[i] == 'x'
  {
    seq(k, i => 'x')
  }

  /** Plain text, then outputs. */
  function Padded(k: nat, m: nat): (s: string)
    ensures |s| == k + 5 * m && s[k..] == Repeated(m)
  {
    Letters(k) + Repeated(m)
  }

  lemma {:induction false} PlainIsPassed(source: string, k: nat, i: nat)
    requires i <= k && k + 1 < |source| && forall j | i <= j < k :: source[j] == 'x'
    ensures Scan(source, 0, i) == Scan(source, 0, k)
    decreases k - i
  {
    if i < k {
      assert source[i..][0] == 'x' && Step(source[i..]) == Verbatim(1);
      PlainIsPassed(source, k, i + 1);
    }
  }

  lemma PaddedScan(k: nat, m: nat)
    requires m > 0
    ensures Scan(Padded(k, m), 0, 0)
         == [Copied(0, k), Inserted(OutputOpen(false)), Copied(k + 2, k + 3), Inserted(OutputClose(false))] + Scan(Padded(k, m), k + 5, k + 5)
  {
    hide Step, Letters, Repeated;
    var source := Padded(k, m);
    PaddedStarts(k, m);
    PlainIsPassed(source, k, 0);
    StepAtOutput(source[k..]);
  }

  lemma PaddedStarts(k: nat, m: nat)
    requires m > 0
    ensures forall j | 0 <= j < k :: Padded(k, m)[j] == 'x'
    ensures Padded(k, m)[k..][..5] == "{{x}}" && Padded(k, m)[k + 5..] == Repeated(m - 1)
  {
    assert Repeated(m)[..5] == "{{x}}" && Repeated(m)[5..] == Repeated(m - 1);
    assert Padded(k, m)[k + 5..] == Padded(k, m)[k..][5..];
  }

  /** Where the plain text, the first output and the last stretch of all are anchored. */
  lemma PaddedAnchors(k: nat, m: nat)
    requires m > 0
    ensures |Mapping(Padded(k, m))| > 2 && Mapping(Padded(k, m))[1] == (k + 18, k + 2)
    ensures LastOffset(Padded(k, m)) == k + 22 * m
    ensures m == 1 ==> Mapping(Padded(k, m)) == [(0, 0), (k + 18, k + 2), (k + 22, k + 5)]
  {
    hide Scan, Letters, Repeated, Padded, OutputOpen, OutputClose;
    var source := Padded(k, m);
    var plain, output, rest := [Copied(0, k)], [Inserted(OutputOpen(false)), Copied(k + 2, k + 3), Inserted(OutputClose(false))], Scan(source, k + 5, k + 5);
    PaddedScan(k, m);
    assert Scan(source, 0, 0) == plain + (output + rest);
    AnchorsConcat(plain, output + rest, 0);
    AnchorsConcat(output, rest, k);
    OneStretch(0, k, 0);
    assert plain[1..] == [] && Length(plain) == k;
    DelimiterLengths(false);
    OneCopied(OutputOpen(false), k + 2, k + 3, OutputClose(false), k);
    OneCopiedLength(OutputOpen(false), k + 2, "x", OutputClose(false));
    PaddedStarts(k, m);
    RepeatedGrows(source, m - 1, k + 5, k + 22);
    if m == 1 {
      assert Repeated(0) == "" by {
        NoneRepeated();
      }
      OnlyEnd(source, k + 5, k + 22);
    }
  }

  lemma NoneRepeated()
    ensures Repeated(0) == ""
  {
  }

  lemma OnlyEnd(source: string, i: nat, at: nat)
    requires i == |source|
    ensures AnchorsOf(Scan(source, i, i), at) == [(at, i)]
  {
    OneStretch(i, i, at);
  }

  /** The outputs it takes. */
  const ENOUGH: nat := 195_225_786

  lemma PaddedOverflows(n: nat)
    requires LONGEST_SAFE < n < TWO_TO_THE_32
    ensures |Padded(n - 5 * ENOUGH, ENOUGH)| == n
    ensures !Fits(Padded(n - 5 * ENOUGH, ENOUGH)) && !Ascending(NarrowAll(Mapping(Padded(n - 5 * ENOUGH, ENOUGH))))
  {
    hide Padded, Mapping, NarrowAll, Ascending, Repeated, Rewritten;
    var k := n - 5 * ENOUGH;
    var source := Padded(k, ENOUGH);
    var anchors := Mapping(source);
    PaddedAnchors(k, ENOUGH);
    MappingLaws(source);
    forall i | 0 < i < |anchors|
      ensures anchors[i].0 < anchors[i - 1].0 + TWO_TO_THE_32
    {
      assert i > 2 ==> anchors[1].1 <= anchors[i - 1].1;
    }
    NarrowedAscendsIff(anchors);
  }

  /** Of every length the sources all keep their anchors' order if and only if it is at most
      `LONGEST_SAFE`: a longer one always has a source that loses it. */
  lemma LengthIsSafeIff(n: nat)
    requires n < TWO_TO_THE_32
    ensures (forall source: string | |source| == n :: Fits(source)) <==> n <= LONGEST_SAFE
    ensures (forall source: string | |source| == n :: Ascending(NarrowAll(Mapping(source)))) <==> n <= LONGEST_SAFE
  {
    hide Mapping, Fits, NarrowAll, Ascending, Rewritten, Padded;
    if n <= LONGEST_SAFE {
      forall source: string | |source| == n
        ensures Fits(source) && Ascending(NarrowAll(Mapping(source)))
      {
        ShortSourcesFit(source);
        RecordedIff(source);
        MappingLaws(source);
      }
    } else {
      PaddedOverflows(n);
      var source := Padded(n - 5 * ENOUGH, ENOUGH);
      assert |source| == n;
    }
  }

  /** A gigabyte of output statements: the source is well under 2^32 bytes, and its anchors do
      not ascend. */
  lemma ShortSourceOverflows()
    ensures |Repeated(200_000_000)| < TWO_TO_THE_32 && !Ascending(NarrowAll(Mapping(Repeated(200_000_000))))
  {
    hide Repeated, NarrowAll, Scan, AnchorsOf;
    var source := Repeated(200_000_000);
    assert source[0..] == source;
    RepeatedGrows(source, 200_000_000, 0, 0);
    AnchorsAscendIff(source);
  }

  /** At each of the last thirteen lengths below 2^32 an anchor can come all the way round: the
      rewritten text no longer fits, and the recorded anchors ascend all the same. */
  lemma AnchorsComeRound(n: nat)
    requires n < TWO_TO_THE_32 <= n + OVERHANG
    ensures |Padded(n - 5, 1)| == n && !Fits(Padded(n - 5, 1)) && Ascending(NarrowAll(Mapping(Padded(n - 5, 1))))
  {
    hide Padded, Mapping, NarrowAll;
    var k := n - 5;
    PaddedAnchors(k, 1);
    var recorded := NarrowAll(Mapping(Padded(k, 1)));
    var round := k + 18 - TWO_TO_THE_32;
    assert recorded[0] == (0, 0) && recorded[1] == (round, k + 2) && recorded[2] == (round + 4, k + 5);
  }
}
