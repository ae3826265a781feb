/** Value paths as text: components joined by dots, numerals read back as indices. */
module PathTexts {
  import opened Wrappers
  import opened ValuePaths

  /** Indices are 64 bits wide. */
  const INDEX_LIMIT: nat := 0x1_0000_0000_0000_0000

  /* ---- Numerals ---- */

  predicate IsDigit(c: char) {
    '0' <= c <= '9'
  }

  function DigitValue(c: char): nat
    requires IsDigit(c)
  {
    (c - '0') as nat
  }

  predicate AllDigits(t: string) {
    forall i | 0 <= i < |t| :: IsDigit(t[i])
  }

  function Value(t: string): nat
    requires AllDigits(t)
  {
    if t == "" then 0 else 10 * Value(t[..|t| - 1]) + DigitValue(t[|t| - 1])
  }

  /** One optional plus sign, then digits, and no overflow. */
  function ParseIndex(part: string): Option<nat> {
    var digits := if part != "" && part[0] == '+' then part[1..] else part;
    if digits == "" || !AllDigits(digits) || Value(digits) >= INDEX_LIMIT then None else Some(Value(digits))
  }

  function DigitChar(d: nat): (c: char)
    requires d < 10
    ensures IsDigit(c) && DigitValue(c) == d
  {
    '0' + d as char
  }

  function Decimal(n: nat): (t: string)
    ensures t != "" && AllDigits(t)
  {
    if n < 10 then [DigitChar(n)] else Decimal(n / 10) + [DigitChar(n % 10)]
  }

  lemma {:induction false} DecimalValue(n: nat)
    ensures Value(Decimal(n)) == n
  {
    var t := Decimal(n);
    if n < 10 {
      assert t[..0] == "";
    } else {
      DecimalValue(n / 10);
      assert t[..|t| - 1] == Decimal(n / 10);
    }
  }

  lemma DecimalParses(n: nat)
    ensures ParseIndex(Decimal(n)) == if n <= 18_446_744_073_709_551_615 then Some(n) else None
  {
    DecimalValue(n);
    assert IsDigit(Decimal(n)[0]);
  }

  lemma {:induction false} ZerosCountForNothing(zeros: string, t: string)
    requires (forall i | 0 <= i < |zeros| :: zeros[i] == '0') && AllDigits(t)
    ensures Value(zeros + t) == Value(t)
    decreases |t|, |zeros|
  {
    if t != "" {
      assert (zeros + t)[..|zeros + t| - 1] == zeros + t[..|t| - 1];
      ZerosCountForNothing(zeros, t[..|t| - 1]);
    } else if zeros != "" {
      var init := zeros[..|zeros| - 1];
      assert (zeros + t)[..|zeros + t| - 1] == init + t;
      ZerosCountForNothing(init, t);
    } else {
      assert zeros + t == t;
    }
  }

  /** A part is read as an index with or without a plus sign and leading zeros; a part with any
      other character in it, and an empty one, is a key. */
  lemma IndexIsRead(plus: string, zeros: string, n: nat)
    requires plus in ["", "+"] && forall i | 0 <= i < |zeros| :: zeros[i] == '0'
    ensures ParsePart(plus + (zeros + Decimal(n)))
         == if n <= 18_446_744_073_709_551_615 then Index(n) else Key(plus + (zeros + Decimal(n)))
  {
    DecimalValue(n);
    var digits := Decimal(n);
    hide Decimal, Value;
    ZerosCountForNothing(zeros, digits);
    SignIsDropped(plus, zeros + digits);
  }

  lemma SignIsDropped(plus: string, digits: string)
    requires plus in ["", "+"] && digits != "" && AllDigits(digits)
    ensures ParseIndex(plus + digits) == if Value(digits) < 0x1_0000_0000_0000_0000 then Some(Value(digits)) else None
  {
    hide Value;
    if plus == "" {
      assert plus + digits == digits && IsDigit(digits[0]);
    } else {
      assert (plus + digits)[1..] == digits && (plus + digits)[0] == '+';
    }
  }

  lemma OthersAreKeys(part: string, i: nat)
    requires part == "" || part == "+" || (i < |part| && !IsDigit(part[i]) && (i > 0 || part[0] != '+'))
    ensures ParsePart(part) == Key(part)
  {
    if i < |part| && i > 0 && part[0] == '+' {
      assert part[1..][i - 1] == part[i];
    }
  }

  /* ---- Splitting and joining ---- */

  predicate NoDot(t: string) {
    '.' !in t
  }

  function FirstDot(t: string): (n: nat)
    ensures n <= |t| && NoDot(t[..n])
    ensures n < |t| ==> t[n] == '.'
  {
    if t == "" || t[0] == '.' then 0
    else
      var n := 1 + FirstDot(t[1..]);
      assert t[..n] == [t[0]] + t[1..][..n - 1];
      n
  }

  function Split(t: string): (parts: seq<string>)
    ensures parts != [] && forall p | p in parts :: NoDot(p)
    decreases |t|
  {
    var n := FirstDot(t);
    if n == |t| then [t] else [t[..n]] + Split(t[n + 1..])
  }

  function Join(parts: seq<string>): string {
    if parts == [] then "" else if |parts| == 1 then parts[0] else parts[0] + "." + Join(parts[1..])
  }

  lemma {:induction false} FirstDotAfter(head: string, tail: string)
    requires NoDot(head) && (tail == "" || tail[0] == '.')
    ensures FirstDot(head + tail) == |head|
    decreases |head|
  {
    if head == "" {
      assert head + tail == tail;
    } else {
      assert head[0] in head && (head + tail)[1..] == head[1..] + tail;
      FirstDotAfter(head[1..], tail);
    }
  }

  lemma {:induction false} SplitJoined(parts: seq<string>)
    requires parts != [] && forall p | p in parts :: NoDot(p)
    ensures Split(Join(parts)) == parts
  {
    hide FirstDot, NoDot;
    assert parts[0] in parts;
    if |parts| == 1 {
      SplitAt(parts[0], "");
      assert parts[0] + "" == parts[0] && parts == [parts[0]];
    } else {
      var tail := "." + Join(parts[1..]);
      assert Join(parts) == parts[0] + tail;
      SplitAt(parts[0], tail);
      assert tail[1..] == Join(parts[1..]) && parts == [parts[0]] + parts[1..];
      SplitJoined(parts[1..]);
    }
  }

  lemma SplitAt(head: string, tail: string)
    requires NoDot(head) && (tail == "" || tail[0] == '.')
    ensures Split(head + tail) == if tail == "" then [head] else [head] + Split(tail[1..])
  {
    hide FirstDot, NoDot;
    FirstDotAfter(head, tail);
    var text := head + tail;
    assert tail == "" ==> text == head;
    assert text[..|head|] == head && (tail != "" ==> text[|head| + 1..] == tail[1..]);
  }

  lemma {:induction false} JoinSplit(t: string)
    ensures Join(Split(t)) == t
    decreases |t|
  {
    hide FirstDot, NoDot;
    var n := FirstDot(t);
    if n < |t| {
      var rest := Split(t[n + 1..]);
      JoinSplit(t[n + 1..]);
      assert ([t[..n]] + rest)[1..] == rest;
      assert t == t[..n] + "." + t[n + 1..];
      assert Split(t) == [t[..n]] + rest;
    } else {
      assert Split(t) == [t];
    }
  }

  /* ---- Paths ---- */

  function ParsePart(part: string): Component {
    match ParseIndex(part)
    case Some(i) => Index(i)
    case None => Key(part)
  }

  function ParseParts(parts: seq<string>): (path: Path)
    ensures |path| == |parts|
    ensures forall i | 0 <= i < |path| :: path[i] == ParsePart(parts[i])
  {
    if parts == [] then [] else [ParsePart(parts[0])] + ParseParts(parts[1..])
  }

  function Parse(text: string): Path {
    if text == "" then [] else ParseParts(Split(text))
  }

  function PrintPart(c: Component): string {
    match c
    case Key(name) => name
    case Index(at) => Decimal(at)
  }

  function PrintParts(path: Path): (parts: seq<string>)
    ensures |parts| == |path|
    ensures forall i | 0 <= i < |path| :: parts[i] == PrintPart(path[i])
  {
    if path == [] then [] else [PrintPart(path[0])] + PrintParts(path[1..])
  }

  function Print(path: Path): string {
    Join(PrintParts(path))
  }

  /** Indices fit; keys hold no dot and do not read as indices. */
  predicate Printable(path: Path) {
    forall c | c in path ::
      match c
      case Key(name) => NoDot(name) && ParseIndex(name).None?
      case Index(at) => at < INDEX_LIMIT
  }

  lemma DigitsHaveNoDot(t: string)
    requires AllDigits(t)
    ensures NoDot(t)
  {
  }

  lemma PartsReadBack(path: Path)
    requires Printable(path)
    ensures ParseParts(PrintParts(path)) == path
    ensures forall p | p in PrintParts(path) :: NoDot(p)
  {
    var parts := PrintParts(path);
    forall i | 0 <= i < |path|
      ensures ParsePart(parts[i]) == path[i] && NoDot(parts[i])
    {
      assert path[i] in path;
      if path[i].Index? {
        DecimalParses(path[i].at);
        DigitsHaveNoDot(parts[i]);
      }
    }
  }

  /** Printing a path and parsing it again is the identity, on every path but the single empty
      key, which prints like the empty path. */
  lemma PrintThenParseIff(path: Path)
    requires Printable(path)
    ensures Parse(Print(path)) == path <==> path != [Key("")]
  {
    PartsReadBack(path);
    var parts := PrintParts(path);
    if path != [] {
      SplitJoined(parts);
      if Print(path) == "" {
        NothingJoined(parts);
        assert path[0] == Key("");
        assert path == [path[0]];
      }
      if path == [Key("")] {
        assert parts == [""] && Print(path) == "";
      }
    }
  }

  lemma NothingJoined(parts: seq<string>)
    requires parts != [] && Join(parts) == ""
    ensures parts == [""]
  {
    if |parts| == 1 {
      assert parts == [parts[0]];
    }
  }

  /** What a text parses to can be printed and parsed again. */
  lemma ParsedIsPrintable(text: string)
    ensures Printable(Parse(text)) && Parse(text) != [Key("")]
  {
    if text != "" {
      var path, parts := Parse(text), Split(text);
      forall c | c in path
        ensures match c case Key(name) => NoDot(name) && ParseIndex(name).None? case Index(at) => at < INDEX_LIMIT
      {
        var i :| 0 <= i < |path| && path[i] == c;
        assert parts[i] in parts;
      }
      JoinSplit(text);
      assert path == [Key("")] ==> parts == [""] by {
        assert parts == [parts[0]] || |parts| > 1;
      }
    }
  }

  /** Parsing, printing and parsing again is parsing, for every text. */
  lemma ParsePrintParse(text: string)
    ensures Parse(Print(Parse(text))) == Parse(text)
  {
    ParsedIsPrintable(text);
    PrintThenParseIff(Parse(text));
  }

  /** The parts of a text pushed one component at a time. */
  method FromString(text: string) returns (path: Path)
    ensures path == Parse(text)
  {
    path := [];
    if text != "" {
      var parts := Split(text);
      for i := 0 to |parts|
        invariant |path| == i
        invariant forall k | 0 <= k < i :: path[k] == ParsePart(parts[k])
      {
        var index := ParseIndex(parts[i]);
        match index {
          case Some(at) => path := path + [Index(at)];
          case None => path := path + [Key(parts[i])];
        }
      }
    }
  }
}
