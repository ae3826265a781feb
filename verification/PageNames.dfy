/** How the name of a file in the pages dir is read: as a page of a name and a type, or as a
    partial.  Both readings look for `.liquid` anywhere in the name, not only at its end. */
module PageNames {
  import opened Wrappers
  import opened Builds

  const SUFFIX := ".liquid"

  predicate SuffixAt(s: string, k: nat) {
    k + 7 <= |s| && s[k..k + 7] == SUFFIX
  }

  /** Which characters count as part of a word: letters do, a dot and a newline never. */
  type Words = w: char -> bool | !w('.') && !w('\n') && forall c | 'a' <= c <= 'z' :: w(c)
    witness c => 'a' <= c <= 'z'

  function WordLength(word: Words, s: string): (n: nat)
    ensures n <= |s| && forall i | 0 <= i < n :: word(s[i])
    ensures n < |s| ==> !word(s[n])
  {
    if s != "" && word(s[0]) then 1 + WordLength(word, s[1..]) else 0
  }

  /** An extension and `.liquid`, or `.liquid` alone, from here on. */
  function TypeAt(word: Words, s: string, k: nat): Option<string>
    requires k <= |s|
  {
    var n := if k < |s| && s[k] == '.' then WordLength(word, s[k + 1..]) else 0;
    if n > 0 && SuffixAt(s, k + 1 + n) then Some(s[k + 1..k + 1 + n])
    else if SuffixAt(s, k) then Some("")
    else None
  }

  /** The shortest name there is, and the extension after it. */
  function NameFrom(word: Words, s: string, k: nat): Option<(string, string)>
    requires k <= |s|
    decreases |s| - k
  {
    if TypeAt(word, s, k).Some? then Some((s[..k], TypeAt(word, s, k).value))
    else if k == |s| || s[k] == '\n' then None
    else NameFrom(word, s, k + 1)
  }

  /** The type an extension in lower case stands for. */
  function TypeOf(ext: DotFree): TemplateType {
    match ext
    case "html" => Html
    case "css" => Css
    case "csv" => Csv
    case "json" => Json
    case "rss" => Rss
    case "" => Default
    case _ => Unknown(ext)
  }

  /** The name and the extension a page is written with. */
  function ParsePage(word: Words, s: string): Option<(string, string)> {
    if s == "" || s[0] == '\n' then None else NameFrom(word, s, 1)
  }

  predicate IsPartialName(s: string) {
    s != "" && s[0] == '_' && exists k :: 2 <= k < |s| && SuffixAt(s, k) && forall i | 1 <= i < k :: s[i] != '\n'
  }

  /* ---- Names ---- */

  lemma {:induction false} NoNameBefore(word: Words, s: string, from: nat, k: nat)
    requires from <= k <= |s| && '\n' !in s[..k] && forall i | from <= i < k :: TypeAt(word, s, i).None?
    ensures NameFrom(word, s, from) == NameFrom(word, s, k)
    decreases k - from
  {
    if from < k {
      assert s[from] == s[..k][from];
      NoNameBefore(word, s, from + 1, k);
    }
  }

  lemma {:induction false} WholeWord(word: Words, w: string, rest: string)
    requires (forall i | 0 <= i < |w| :: word(w[i])) && (rest != "" ==> !word(rest[0]))
    ensures WordLength(word, w + rest) == |w|
    decreases |w|
  {
    if w == "" {
      assert w + rest == rest;
    } else {
      assert (w + rest)[1..] == w[1..] + rest;
      WholeWord(word, w[1..], rest);
    }
  }

  predicate Undotted(name: string) {
    forall i | 0 <= i < |name| :: name[i] != '.' && name[i] != '\n'
  }

  /** Before the dot of its extension a name without dots is no shorter name. */
  lemma NameStarts(word: Words, name: string, rest: string)
    requires name != "" && Undotted(name) && rest != "" && rest[0] == '.'
    ensures ParsePage(word, name + rest) == NameFrom(word, name + rest, |name|)
  {
    var s := name + rest;
    assert s[0] == name[0];
    forall i | 1 <= i < |name|
      ensures TypeAt(word, s, i).None?
    {
      assert s[i] == name[i];
      assert i + 7 <= |s| ==> s[i..i + 7][0] == s[i];
    }
    assert '\n' !in s[..|name|] by {
      assert s[..|name|] == name;
    }
    NoNameBefore(word, s, 1, |name|);
  }

  lemma ExtensionThere(word: Words, name: string, ext: string, tail: string)
    requires ext != "" && forall i | 0 <= i < |ext| :: word(ext[i])
    ensures var s := name + ("." + ext + SUFFIX + tail);
            TypeAt(word, s, |name|) == Some(ext) && s[..|name|] == name
  {
    WholeWord(word, ext, SUFFIX + tail);
    Slices(name, ext, SUFFIX, tail);
    assert |SUFFIX| == 7;
    hide WordLength, TypeAt;
    ExtensionAt(word, name + ("." + ext + SUFFIX + tail), |name|, ext);
  }

  lemma Slices(name: string, ext: string, suffix: string, tail: string)
    ensures var s, k, n := name + ("." + ext + suffix + tail), |name|, |ext|;
      && |s| >= k + 1 + n + |suffix| && s[..k] == name && s[k..k + 1] == "." && s[k + 1..] == ext + (suffix + tail)
      && s[k + 1..k + 1 + n] == ext && s[k + 1 + n..k + 1 + n + |suffix|] == suffix
  {
    var s := name + ("." + ext + suffix + tail);
    assert s == name + ("." + (ext + (suffix + tail)));
    Middle(name, ".", ext + (suffix + tail));
    assert s == (name + ".") + (ext + (suffix + tail));
    Middle(name + ".", ext, suffix + tail);
    assert s == (name + "." + ext) + (suffix + tail);
    Middle(name + "." + ext, suffix, tail);
  }

  lemma ExtensionAt(word: Words, s: string, k: nat, ext: string)
    requires k + 1 + |ext| + 7 <= |s| && ext != "" && s[k..k + 1] == "." && WordLength(word, s[k + 1..]) == |ext|
    requires s[k + 1..k + 1 + |ext|] == ext && s[k + 1 + |ext|..k + 1 + |ext| + 7] == SUFFIX
    ensures TypeAt(word, s, k) == Some(ext)
  {
    hide WordLength;
    assert s[k] == s[k..k + 1][0];
  }

  lemma Middle(a: string, b: string, c: string)
    ensures var s := a + (b + c); s[..|a|] == a && s[|a|..] == b + c && s[|a|..|a| + |b|] == b
  {
  }

  lemma SuffixThere(word: Words, name: string, tail: string)
    requires !(tail != "" && word(tail[0])) && !SuffixAt(tail, 0)
    ensures var s := name + (SUFFIX + tail); TypeAt(word, s, |name|) == Some("") && s[..|name|] == name
  {
    var s, after := name + (SUFFIX + tail), SUFFIX + tail;
    WholeWord(word, "liquid", tail);
    hide WordLength;
    assert s[|name|..] == after && after[..7] == SUFFIX && after[1..] == "liquid" + tail;
    assert s[|name| + 1..] == after[1..];
    assert s[|name|..|name| + 7] == after[..7];
    assert |tail| >= 7 ==> s[|name| + 7..|name| + 14] == tail[0..7];
  }

  /** A page written with an extension is read as its name and that extension, and one without as
      its name alone, whatever follows `.liquid`: `a.liquid.orig` is the page `a`. */
  lemma NamesAreRead(word: Words, name: string, ext: string, tail: string)
    requires name != "" && Undotted(name) && forall i | 0 <= i < |ext| :: word(ext[i])
    ensures ext != "" ==> ParsePage(word, name + ("." + ext + SUFFIX + tail)) == Some((name, ext))
    ensures !(tail != "" && word(tail[0])) && !SuffixAt(tail, 0) ==> ParsePage(word, name + (SUFFIX + tail)) == Some((name, ""))
  {
    hide TypeAt, ParsePage, SuffixAt;
    if ext != "" {
      NameStarts(word, name, "." + ext + SUFFIX + tail);
      ExtensionThere(word, name, ext, tail);
    }
    if !(tail != "" && word(tail[0])) && !SuffixAt(tail, 0) {
      NameStarts(word, name, SUFFIX + tail);
      SuffixThere(word, name, tail);
    }
  }

  lemma {:induction false} FromSuffix(word: Words, s: string, k: nat)
    requires k <= |s| && '\n' !in s
    ensures NameFrom(word, s, k).Some? ==> exists j :: k <= j <= |s| && SuffixAt(s, j)
    ensures (exists j :: k <= j <= |s| && SuffixAt(s, j)) ==> NameFrom(word, s, k).Some?
    decreases |s| - k
  {
    if TypeAt(word, s, k).None? && k < |s| {
      FromSuffix(word, s, k + 1);
      assert !SuffixAt(s, k);
    }
  }

  /** A file is read as a page if and only if `.liquid` stands anywhere in its name but at the very
      start. */
  lemma IsPageIff(word: Words, s: string)
    requires '\n' !in s
    ensures ParsePage(word, s).Some? <==> exists j :: 1 <= j <= |s| && SuffixAt(s, j)
  {
    if s != "" {
      assert s[0] in s;
      FromSuffix(word, s, 1);
    }
  }

  /** A partial is a page's name after an underscore. */
  lemma PartialIff(s: string)
    requires '\n' !in s
    ensures IsPartialName(s) <==> s != "" && s[0] == '_' && exists j :: 2 <= j < |s| && SuffixAt(s, j)
  {
    forall i | 0 <= i < |s|
      ensures s[i] != '\n'
    {
      assert s[i] in s;
    }
  }

  /* ---- Types ---- */

  /** A page keeps the extension it is written with, but for `csv`, which builds to `css`, and none,
      which builds to `html`. */
  lemma ExtensionIsKeptIff(ext: DotFree)
    ensures Extension(TypeOf(ext)) == ext <==> ext != "csv" && ext != ""
    ensures Extension(TypeOf("csv")) == "css" && Extension(TypeOf("")) == "html"
  {
    assert |"css"| == 3 && "csv"[2] == 'v' && "css"[2] == 's';
  }
}
