/** Records of past renders, and why reusing one is sound.

    A record pairs the reads of some past render, signed, with the output it had.  It stays true
    forever, because it speaks of the context it was rendered against; it is reusable when
    the context now signs alike on everything it read. */
module Reuse {
  import opened Wrappers
  import opened Templates
  import opened Context
  import opened WritePlans
  import opened Builds

  /** Determines the partials, and is determined by them. */
  datatype PartialsDigest = PartialsDigest(partials: map<string, string>)

  datatype RenderRecord = RenderRecord(partials: PartialsDigest, template: Digest, overlay: Option<Signature>,
                                       deps: map<Dep, Signature>, output: Digest)

  /** The signature of each noted read; None if one of them has no signature. */
  function SignedReads(noted: set<Dep>, signatures: ContextSignatures): Option<map<Dep, Signature>> {
    if forall dep | dep in noted :: signatures.Of(dep).Some?
    then Some(map dep | dep in noted :: signatures.Of(dep).value)
    else None
  }

  /** Whether a record still holds, and what it produced is still what was last written. */
  predicate Reusable(r: RenderRecord, partials: PartialsDigest, template: Digest, overlay: Option<Signature>,
                     signatures: ContextSignatures, built: map<Path, Digest>, dest: Path) {
    && r.partials == partials && r.template == template && r.overlay == overlay
    && dest in built && built[dest] == r.output
    && forall dep | dep in r.deps :: signatures.Of(dep) == Some(r.deps[dep])
  }

  /** The value of the page's own object, signed; None for a page that has none. */
  function OverlaySignature(page: Page): Option<Signature> {
    match page.of
    case None => None
    case Some(o) => Some(OfValue(LiquidObject(o)))
  }

  /** A page's destination names it, and names the type of the object it renders. */
  ghost predicate WellPlaced(build: Path, page: Page) {
    && page.dest != []
    && (exists ext: DotFree :: Last(page.dest) == page.name + "." + ext)
    && (page.of.Some? ==> Parent(page.dest) == build + [page.of.value.objectName])
  }

  lemma LastDot(name: string, ext: DotFree)
    ensures var s := name + "." + ext;
            s[|name|] == '.' && forall i | |name| < i < |s| :: s[i] != '.'
  {
    var s := name + "." + ext;
    forall i | |name| < i < |s|
      ensures s[i] != '.'
    {
      assert s[i] == ext[i - |name| - 1];
    }
  }

  lemma NameFromDest(name: string, ext: DotFree, name': string, ext': DotFree)
    requires name + "." + ext == name' + "." + ext'
    ensures name == name'
  {
    LastDot(name, ext);
    LastDot(name', ext');
    assert |name| == |name'|;
    assert (name + "." + ext)[..|name|] == name && (name' + "." + ext')[..|name|] == name';
  }

  /** The destination and the object's signature determine the whole overlay. */
  lemma OverlayFromSignature(build: Path, page: Page, page': Page)
    requires WellPlaced(build, page) && WellPlaced(build, page')
    requires page.dest == page'.dest && OverlaySignature(page) == OverlaySignature(page')
    ensures Overlay(page) == Overlay(page')
  {
    var ext: DotFree :| Last(page.dest) == page.name + "." + ext;
    var ext': DotFree :| Last(page'.dest) == page'.name + "." + ext';
    NameFromDest(page.name, ext, page'.name, ext');
    if page.of.Some? {
      var o, o' := page.of.value, page'.of.value;
      assert (build + [o.objectName])[|build|] == (build + [o'.objectName])[|build|];
      assert LiquidObject(o).fields["order"] == o.order && LiquidObject(o').fields["order"] == o'.order;
      assert LiquidObject(o).fields["path"] == UrlPath(o) && LiquidObject(o').fields["path"] == UrlPath(o');
    }
  }

  /** The render a record remembers. */
  datatype Witness = Witness(base: map<string, Value>, signatures: ContextSignatures, page: Page)

  ghost predicate RenderedFrom(x: Externals, build: Path, noTypes: bool, dest: Path, r: RenderRecord, w: Witness) {
    && Signs(w.signatures, w.base) && (w.signatures.objects == map[] <==> noTypes)
    && WellPlaced(build, w.page) && w.page.dest == dest
    && r.template == HashFile(w.page.source) && r.overlay == OverlaySignature(w.page)
    && var o := RenderOutcome(x, r.partials.partials, w.base, w.page);
       && o.Rendered? && r.output == HashFile(x.postProcess(o.text))
       && SignedReads(o.noted, w.signatures) == Some(r.deps)
  }

  /** Some render, at some time, produced this record. */
  ghost predicate TrueRecord(x: Externals, build: Path, noTypes: bool, dest: Path, r: RenderRecord) {
    exists w :: RenderedFrom(x, build, noTypes, dest, r, w)
  }

  ghost predicate TrueRecords(x: Externals, build: Path, noTypes: bool, records: map<Path, RenderRecord>) {
    forall dest | dest in records :: TrueRecord(x, build, noTypes, dest, records[dest])
  }

  lemma DepsAgree(noted: set<Dep>, past: ContextSignatures, now: ContextSignatures, deps: map<Dep, Signature>)
    requires SignedReads(noted, past) == Some(deps)
    requires forall dep | dep in deps :: now.Of(dep) == Some(deps[dep])
    ensures forall dep | dep in noted :: Agree(past, now, dep)
    ensures SignedReads(noted, now) == Some(deps)
  {
    assert deps.Keys == noted;
    forall dep | dep in noted
      ensures Agree(past, now, dep)
    {
      assert dep in deps && past.Of(dep) == Some(deps[dep]);
    }
    assert SignedReads(noted, now).value == deps;
  }

  /** Rendering a page again over a context that signs alike on its recorded reads. */
  lemma RenderedAgain(x: Externals, w: Witness, page: Page, partials: map<string, string>,
                      base: map<string, Value>, signatures: ContextSignatures, deps: map<Dep, Signature>)
    requires Signs(w.signatures, w.base) && Signs(signatures, base)
    requires w.signatures.objects == map[] <==> signatures.objects == map[]
    requires w.page.source == page.source && Overlay(w.page) == Overlay(page)
    requires RenderOutcome(x, partials, w.base, w.page).Rendered?
    requires SignedReads(RenderOutcome(x, partials, w.base, w.page).noted, w.signatures) == Some(deps)
    requires forall dep | dep in deps :: signatures.Of(dep) == Some(deps[dep])
    ensures RenderOutcome(x, partials, base, page) == RenderOutcome(x, partials, w.base, w.page)
  {
    var t := x.lang.parse(page.source).value;
    DepsAgree(RenderOutcome(x, partials, w.base, w.page).noted, w.signatures, signatures, deps);
    RenderAgrees(x.lang, partials, t, Layers(Overlay(w.page), w.base), w.signatures,
                 Layers(Overlay(page), base), signatures, map[], x.includeDepth);
  }

  /** Reuse is sound: when a record is reusable, rendering the page now would read the same
      things and produce exactly the recorded output. */
  lemma ReuseIsSound(x: Externals, build: Path, noTypes: bool, r: RenderRecord, page: Page,
                     partials: map<string, string>, base: map<string, Value>, signatures: ContextSignatures,
                     built: map<Path, Digest>)
    requires TrueRecord(x, build, noTypes, page.dest, r)
    requires WellPlaced(build, page) && Signs(signatures, base) && (signatures.objects == map[] <==> noTypes)
    requires Reusable(r, PartialsDigest(partials), HashFile(page.source), OverlaySignature(page), signatures, built, page.dest)
    ensures RenderPage(x, partials, base, page).Some?
    ensures HashFile(RenderPage(x, partials, base, page).value) == r.output
    ensures SignedReads(RenderOutcome(x, partials, base, page).noted, signatures) == Some(r.deps)
  {
    var w :| RenderedFrom(x, build, noTypes, page.dest, r, w);
    OverlayFromSignature(build, w.page, page);
    RenderedAgain(x, w, page, partials, base, signatures, r.deps);
    DepsAgree(RenderOutcome(x, partials, w.base, w.page).noted, w.signatures, signatures, r.deps);
  }

  /** A fresh render makes a true record. */
  lemma NewRecordIsTrue(x: Externals, build: Path, noTypes: bool, page: Page, partials: map<string, string>,
                        base: map<string, Value>, signatures: ContextSignatures)
    requires WellPlaced(build, page) && Signs(signatures, base) && (signatures.objects == map[] <==> noTypes)
    requires var o := RenderOutcome(x, partials, base, page); o.Rendered? && SignedReads(o.noted, signatures).Some?
    ensures var o := RenderOutcome(x, partials, base, page);
            TrueRecord(x, build, noTypes, page.dest,
                       RenderRecord(PartialsDigest(partials), HashFile(page.source), OverlaySignature(page),
                                    SignedReads(o.noted, signatures).value, HashFile(x.postProcess(o.text))))
  {
    var o := RenderOutcome(x, partials, base, page);
    var r := RenderRecord(PartialsDigest(partials), HashFile(page.source), OverlaySignature(page),
                          SignedReads(o.noted, signatures).value, HashFile(x.postProcess(o.text)));
    assert RenderedFrom(x, build, noTypes, page.dest, r, Witness(base, signatures, page));
  }
}
