/** Liquid in markdown code is kept from being liquid again once it is html. */
module Markdown {
  import opened Wrappers
  import opened LiquidText
  import opened LiquidRewrites
  import opened LiquidRewriters
  import opened LiquidTemplates
  import opened PathTexts

  /** Stands for a brace until the html exists; markdown never holds it. */
  const SENTINEL: char := '\0'

  const ESCAPED_BRACE := "&#123;"

  /** A brace here opens a delimiter. */
  predicate Opens(t: string, i: nat) {
    i + 1 < |t| && t[i] == '{' && (t[i + 1] == '{' || t[i + 1] == '%')
  }

  /** The same text with exactly the opening braces replaced. */
  ghost predicate NeutralForm(literal: string, out: string) {
    |out| == |literal| && forall i | 0 <= i < |out| :: out[i] == if Opens(literal, i) then SENTINEL else literal[i]
  }

  lemma NeutralIsPlain(literal: string, out: string)
    requires NeutralForm(literal, out)
    ensures Plain(out)
  {
    forall i | 0 <= i < |out| - 1 && out[i] == '{'
      ensures out[i + 1] != '{' && out[i + 1] != '%'
    {
      assert !Opens(literal, i);
    }
  }

  /** One pass over the text, looking one byte ahead. */
  method NeutralizeLiquid(literal: string) returns (r: Option<string>)
    ensures r.None? <==> Plain(literal)
    ensures r.Some? ==> NeutralForm(literal, r.value) && Plain(r.value)
  {
    var found := MentionsLiquid(literal);
    if !found {
      return None;
    }
    var out := "";
    var at := 0;
    while at < |literal|
      invariant 0 <= at <= |literal| && |out| == at
      invariant forall i | 0 <= i < at :: out[i] == if Opens(literal, i) then SENTINEL else literal[i]
    {
      if literal[at] == '{' && at + 1 < |literal| && (literal[at + 1] == '{' || literal[at + 1] == '%') {
        out := out + [SENTINEL];
      } else {
        out := out + [literal[at]];
      }
      at := at + 1;
    }
    NeutralIsPlain(literal, out);
    r := Some(out);
  }

  function Escaped(t: string): string {
    if t == "" then "" else (if t[0] == SENTINEL then ESCAPED_BRACE else [t[0]]) + Escaped(t[1..])
  }

  lemma {:induction false} EscapedStart(t: string)
    ensures Escaped(t) == "" <==> t == ""
    ensures t != "" ==> Escaped(t)[0] == if t[0] == SENTINEL then '&' else t[0]
  {
  }

  lemma {:induction false} EscapedIsPlain(t: string)
    requires Plain(t)
    ensures Plain(Escaped(t))
  {
    if t != "" {
      var head, tail := if t[0] == SENTINEL then ESCAPED_BRACE else [t[0]], Escaped(t[1..]);
      assert forall i | 0 <= i < |t| - 1 :: t[1..][i] == t[i + 1];
      EscapedIsPlain(t[1..]);
      EscapedStart(t[1..]);
      var out := head + tail;
      forall i | 0 <= i < |out| - 1 && out[i] == '{'
        ensures out[i + 1] != '{' && out[i + 1] != '%'
      {
        if i >= |head| {
          assert out[i] == tail[i - |head|] && out[i + 1] == tail[i - |head| + 1];
        } else {
          assert t[0] == '{' && i == 0 && |t| > 1;
          assert out[1] == tail[0];
        }
      }
    }
  }

  /** Escaped code comes through the rewriter as it is: no brace of it opens anything. */
  lemma EscapedCodeIsLeftAlone(literal: string, out: string)
    requires NeutralForm(literal, out)
    ensures Rewritten("", Escaped(out)) == Escaped(out)
  {
    NeutralIsPlain(literal, out);
    EscapedIsPlain(out);
    NothingToRewrite(Escaped(out), 0);
    assert Escaped(out)[..0] == "" && Escaped(out)[0..] == Escaped(out);
  }

  /** Turning the sentinels back gives the code as it was written. */
  lemma NothingElseChanges(literal: string, out: string)
    requires NeutralForm(literal, out) && SENTINEL !in literal
    ensures |out| == |literal|
    ensures forall i | 0 <= i < |out| :: literal[i] == if out[i] == SENTINEL then '{' else out[i]
  {
    forall i | 0 <= i < |out|
      ensures literal[i] == if out[i] == SENTINEL then '{' else out[i]
    {
      assert literal[i] in literal;
    }
  }

  lemma {:induction false} EscapedConcat(a: string, b: string)
    ensures Escaped(a + b) == Escaped(a) + Escaped(b)
    decreases |a|
  {
    if a == "" {
      assert a + b == b;
    } else {
      assert (a + b)[1..] == a[1..] + b;
      EscapedConcat(a[1..], b);
    }
  }

  /** Each sentinel comes out as the character reference of a brace, by its number, and every other
      character as itself. */
  lemma EscapedInPlace(a: string, c: char, b: string)
    ensures Escaped(a + [c] + b) == Escaped(a) + (if c == SENTINEL then "&#" + Decimal('{' as int) + ";" else [c]) + Escaped(b)
  {
    EscapedConcat(a + [c], b);
    EscapedConcat(a, [c]);
    assert [c][1..] == "" && Escaped("") == "";
    BraceByNumber();
  }

  lemma BraceByNumber()
    ensures "&#" + Decimal('{' as int) + ";" == ESCAPED_BRACE
  {
    assert '{' as int == 123;
    assert Decimal(1) == "1" && Decimal(12) == "12" && Decimal(123) == "123";
  }

  /* ---- The cache of rendered markdown ---- */

  const MAX_ENTRIES: nat := 1024

  class MarkdownCache {
    const toHtml: string -> string
    var entries: map<string, string>

    /** Every entry is its source's html, and there are never too many. */
    ghost predicate Valid()
      reads this
    {
      |entries| <= MAX_ENTRIES && forall source | source in entries :: entries[source] == toHtml(source)
    }

    constructor (toHtml: string -> string)
      ensures Valid() && this.toHtml == toHtml
    {
      this.toHtml, entries := toHtml, map[];
    }

    /** Cached or not, the html is the source's own.  A full cache is cleared, not trimmed. */
    method Html(source: string) returns (html: string)
      requires Valid()
      modifies this
      ensures Valid() && html == toHtml(source) && source in entries
      ensures entries == if source in old(entries) then old(entries)
                         else if |old(entries)| == 1024 then map[source := toHtml(source)]
                         else old(entries)[source := toHtml(source)]
    {
      if source in entries {
        return entries[source];
      }
      html := toHtml(source);
      if |entries| >= MAX_ENTRIES {
        entries := map[];
      }
      assert |entries[source := html]| == |entries| + 1;
      entries := entries[source := html];
    }
  }
}
