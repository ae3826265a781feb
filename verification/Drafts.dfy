/** The pages of a plan as they are drafted, one job at a time, and why the finished draft
    accounts for exactly what rendering every page afresh would produce. */
module Drafts {
  import opened Wrappers
  import opened Templates
  import opened Context
  import opened WritePlans
  import opened Builds
  import opened Reuse
  import opened Planning

  datatype Draft = Draft(ok: bool, records: map<Path, RenderRecord>, writes: seq<Write>, kept: seq<(Path, Digest)>)

  /** What planning reads: the shared context and the cache of what was last built. */
  datatype Setting = Setting(x: Externals, partials: map<string, string>, base: map<string, Value>,
                             signatures: ContextSignatures, built: map<Path, Digest>)

  function Recorded(s: Setting, d: Draft, path: Path, contents: string): Draft {
    if path in s.built && s.built[path] == HashFile(contents)
    then d.(kept := d.kept + [(path, HashFile(contents))])
    else d.(writes := d.writes + [Write(path, contents, HashFile(contents))])
  }

  /** The per-object signature recorded for the page's own object, if any. */
  function OverlayOf(s: Setting, page: Page): Option<Signature> {
    if page.of.None? then None
    else
      var key := (page.of.value.objectName, page.of.value.filename);
      if key in s.signatures.perObject then Some(s.signatures.perObject[key]) else None
  }

  predicate CanReuse(s: Setting, d: Draft, page: Page) {
    page.dest in d.records
      && Reusable(d.records[page.dest], PartialsDigest(s.partials), HashFile(page.source), OverlayOf(s, page),
                  s.signatures, s.built, page.dest)
  }

  function DraftPage(s: Setting, d: Draft, page: Page): Draft {
    if CanReuse(s, d, page) then d.(kept := d.kept + [(page.dest, d.records[page.dest].output)])
    else
      var o := RenderOutcome(s.x, s.partials, s.base, page);
      if o.Failed? then d.(ok := false)
      else
        var rendered := s.x.postProcess(o.text);
        var deps := SignedReads(o.noted, s.signatures);
        var d' := if deps.None? then d
                  else d.(records := d.records[page.dest :=
                            RenderRecord(PartialsDigest(s.partials), HashFile(page.source), OverlayOf(s, page),
                                         deps.value, HashFile(rendered))]);
        Recorded(s, d', page.dest, rendered)
  }

  /** A failure ends the draft unless failures are skipped. */
  function DraftJob(s: Setting, d: Draft, job: Job, skip: bool): Draft {
    var d' := if job.Broken? then d.(ok := false) else DraftPage(s, d, job.page);
    if skip then d'.(ok := true) else d'
  }

  function DraftJobs(s: Setting, d: Draft, jobs: seq<Job>, skip: bool): Draft {
    if jobs == [] then d
    else
      var d' := DraftJobs(s, d, jobs[..|jobs| - 1], skip);
      if d'.ok then DraftJob(s, d', jobs[|jobs| - 1], skip) else d'
  }

  function DraftSitemap(s: Setting, m: Manifest, d: Draft): Draft {
    if !m.sitemap || m.siteUrl == "" then d
    else
      var pages := VisitedBy(d.writes, d.kept);
      var sitemap := m.buildDir + ["sitemap.xml"];
      var robots := m.buildDir + ["robots.txt"];
      var one := if sitemap in pages then d else Recorded(s, d, sitemap, s.x.urlset(m.siteUrl, pages));
      if robots in pages then one else Recorded(s, one, robots, s.x.robots(m.siteUrl))
  }

  /* ---- What a draft promises ---- */

  /** The setting describes its own context, for a site whose object types are the same as ever. */
  ghost predicate Sound(s: Setting, noTypes: bool) {
    Signs(s.signatures, s.base) && (s.signatures.objects == map[] <==> noTypes)
  }

  ghost predicate Aims(s: Setting, build: Path, noTypes: bool, d: Draft, target: map<Path, string>) {
    TrueRecords(s.x, build, noTypes, d.records) && Planned(d.writes, d.kept, target, s.built)
  }

  lemma RecordedAims(s: Setting, build: Path, noTypes: bool, d: Draft, target: map<Path, string>, path: Path, contents: string)
    requires Aims(s, build, noTypes, d, target) && path !in target
    ensures Aims(s, build, noTypes, Recorded(s, d, path, contents), target[path := contents])
  {
    if path in s.built && s.built[path] == HashFile(contents) {
      PlannedKeep(d.writes, d.kept, target, s.built, path, contents);
    } else {
      PlannedWrite(d.writes, d.kept, target, s.built, path, contents);
    }
  }

  /** A page the draft reuses enters the plan with exactly its fresh rendering. */
  lemma ReusedPageAims(s: Setting, build: Path, noTypes: bool, d: Draft, page: Page, target: map<Path, string>)
    requires Sound(s, noTypes) && Aims(s, build, noTypes, d, target) && CanReuse(s, d, page)
    requires WellPlaced(build, page) && OverlayOf(s, page) == OverlaySignature(page) && page.dest !in target
    ensures var text := RenderPage(s.x, s.partials, s.base, page);
            text.Some? && Aims(s, build, noTypes, DraftPage(s, d, page), target[page.dest := text.value])
  {
    assert TrueRecord(s.x, build, noTypes, page.dest, d.records[page.dest]);
    ReuseIsSound(s.x, build, noTypes, d.records[page.dest], page, s.partials, s.base, s.signatures, s.built);
    PlannedKeep(d.writes, d.kept, target, s.built, page.dest, RenderPage(s.x, s.partials, s.base, page).value);
  }

  /** Keeping the record of a fresh render keeps every record true. */
  lemma RecordKept(s: Setting, build: Path, noTypes: bool, records: map<Path, RenderRecord>, page: Page)
    requires Sound(s, noTypes) && TrueRecords(s.x, build, noTypes, records)
    requires WellPlaced(build, page) && OverlayOf(s, page) == OverlaySignature(page)
    requires var o := RenderOutcome(s.x, s.partials, s.base, page);
             o.Rendered? && SignedReads(o.noted, s.signatures).Some?
    ensures var o := RenderOutcome(s.x, s.partials, s.base, page);
            TrueRecords(s.x, build, noTypes, records[page.dest :=
              RenderRecord(PartialsDigest(s.partials), HashFile(page.source), OverlayOf(s, page),
                           SignedReads(o.noted, s.signatures).value, HashFile(s.x.postProcess(o.text)))])
  {
    NewRecordIsTrue(s.x, build, noTypes, page, s.partials, s.base, s.signatures);
  }

  lemma RenderedPageAims(s: Setting, build: Path, noTypes: bool, d: Draft, page: Page, target: map<Path, string>)
    requires Sound(s, noTypes) && Aims(s, build, noTypes, d, target) && d.ok && !CanReuse(s, d, page)
    requires WellPlaced(build, page) && OverlayOf(s, page) == OverlaySignature(page) && page.dest !in target
    ensures var text := RenderPage(s.x, s.partials, s.base, page);
            && DraftPage(s, d, page).ok == text.Some?
            && Aims(s, build, noTypes, DraftPage(s, d, page),
                    if text.Some? then target[page.dest := text.value] else target)
  {
    var o := RenderOutcome(s.x, s.partials, s.base, page);
    if o.Rendered? {
      var rendered := s.x.postProcess(o.text);
      if SignedReads(o.noted, s.signatures).Some? {
        RecordKept(s, build, noTypes, d.records, page);
        var d' := d.(records := d.records[page.dest :=
                       RenderRecord(PartialsDigest(s.partials), HashFile(page.source), OverlayOf(s, page),
                                    SignedReads(o.noted, s.signatures).value, HashFile(rendered))]);
        RecordedAims(s, build, noTypes, d', target, page.dest, rendered);
      } else {
        RecordedAims(s, build, noTypes, d, target, page.dest, rendered);
      }
    }
  }

  /** Reused or rendered, a page enters the plan with exactly its fresh rendering. */
  lemma DraftPageAims(s: Setting, build: Path, noTypes: bool, d: Draft, page: Page, target: map<Path, string>)
    requires Sound(s, noTypes) && Aims(s, build, noTypes, d, target) && d.ok
    requires WellPlaced(build, page) && OverlayOf(s, page) == OverlaySignature(page) && page.dest !in target
    ensures var text := RenderPage(s.x, s.partials, s.base, page);
            && DraftPage(s, d, page).ok == text.Some?
            && Aims(s, build, noTypes, DraftPage(s, d, page),
                    if text.Some? then target[page.dest := text.value] else target)
  {
    if CanReuse(s, d, page) {
      ReusedPageAims(s, build, noTypes, d, page, target);
    } else {
      RenderedPageAims(s, build, noTypes, d, page, target);
    }
  }

  /** The outputs of a list of jobs lie where its pages do. */
  lemma {:induction false} RenderedDests(x: Externals, partials: map<string, string>, base: map<string, Value>,
                                         jobs: seq<Job>, skip: bool, p: Path)
    requires RenderAll(x, partials, base, jobs, skip).Some? && p in RenderAll(x, partials, base, jobs, skip).value
    ensures exists i :: 0 <= i < |jobs| && jobs[i].RenderJob? && jobs[i].page.dest == p
  {
    var n := |jobs| - 1;
    var init := RenderAll(x, partials, base, jobs[..n], skip).value;
    if p in init {
      RenderedDests(x, partials, base, jobs[..n], skip, p);
      var i :| 0 <= i < n && jobs[..n][i].RenderJob? && jobs[..n][i].page.dest == p;
      assert jobs[i].page.dest == p;
    }
  }

  lemma GoodJobIsPlaced(s: Setting, build: Path, job: Job)
    requires GoodJob(build, s.signatures, job) && job.RenderJob?
    ensures WellPlaced(build, job.page) && OverlayOf(s, job.page) == OverlaySignature(job.page)
  {
  }

  /** Drafting every job accounts for every page a from-scratch render of the same jobs
      produces, and fails exactly when that fails. */
  lemma {:induction false} DraftJobsAim(s: Setting, build: Path, noTypes: bool, d: Draft, jobs: seq<Job>, skip: bool)
    requires Sound(s, noTypes) && Aims(s, build, noTypes, d, map[]) && d.ok
    requires DistinctDests(jobs) && forall job | job in jobs :: GoodJob(build, s.signatures, job)
    ensures var all := RenderAll(s.x, s.partials, s.base, jobs, skip);
            && DraftJobs(s, d, jobs, skip).ok == all.Some?
            && TrueRecords(s.x, build, noTypes, DraftJobs(s, d, jobs, skip).records)
            && (all.Some? ==> Aims(s, build, noTypes, DraftJobs(s, d, jobs, skip), all.value))
  {
    hide GoodJob, Sound, DraftPage, RenderPage, OverlayOf, OverlaySignature, WellPlaced;
    if jobs != [] {
      var n := |jobs| - 1;
      var init, job := jobs[..n], jobs[n];
      assert forall i | 0 <= i < n :: init[i] == jobs[i];
      DraftJobsAim(s, build, noTypes, d, init, skip);
      var d' := DraftJobs(s, d, init, skip);
      if d'.ok && job.RenderJob? {
        var target := RenderAll(s.x, s.partials, s.base, init, skip).value;
        if job.page.dest in target {
          RenderedDests(s.x, s.partials, s.base, init, skip, job.page.dest);
        }
        assert GoodJob(build, s.signatures, job);
        GoodJobIsPlaced(s, build, job);
        DraftPageAims(s, build, noTypes, d', job.page, target);
      }
    }
  }

  lemma DraftSitemapAims(s: Setting, m: Manifest, noTypes: bool, d: Draft, target: map<Path, string>)
    requires Aims(s, m.buildDir, noTypes, d, target)
    ensures Aims(s, m.buildDir, noTypes, DraftSitemap(s, m, d), WithSitemap(s.x, m, target))
  {
    var sitemap := m.buildDir + ["sitemap.xml"];
    var robots := m.buildDir + ["robots.txt"];
    assert sitemap != robots by {
      assert sitemap[|m.buildDir|] != robots[|m.buildDir|];
    }
    if m.sitemap && m.siteUrl != "" {
      var pages := target.Keys;
      var text := s.x.urlset(m.siteUrl, pages);
      var one, target1 := d, target;
      if sitemap !in pages {
        RecordedAims(s, m.buildDir, noTypes, d, target, sitemap, text);
        one, target1 := Recorded(s, d, sitemap, text), target[sitemap := text];
      }
      if robots !in pages {
        RecordedAims(s, m.buildDir, noTypes, one, target1, robots, s.x.robots(m.siteUrl));
      }
    }
  }

  /** The draft of all the pages and the sitemap accounts for exactly what rendering every
      page afresh produces, and fails when that fails. */
  lemma DraftAims(s: Setting, m: Manifest, noTypes: bool, d: Draft, jobs: seq<Job>, skip: bool)
    requires Sound(s, noTypes) && Aims(s, m.buildDir, noTypes, d, map[]) && d.ok
    requires DistinctDests(jobs) && forall job | job in jobs :: GoodJob(m.buildDir, s.signatures, job)
    ensures var d' := DraftJobs(s, d, jobs, skip);
            var all := RenderAll(s.x, s.partials, s.base, jobs, skip);
            && d'.ok == all.Some?
            && TrueRecords(s.x, m.buildDir, noTypes, d'.records)
            && (all.Some? ==> Aims(s, m.buildDir, noTypes, DraftSitemap(s, m, d'), WithSitemap(s.x, m, all.value)))
  {
    DraftJobsAim(s, m.buildDir, noTypes, d, jobs, skip);
    var all := RenderAll(s.x, s.partials, s.base, jobs, skip);
    if all.Some? {
      DraftSitemapAims(s, m, noTypes, DraftJobs(s, d, jobs, skip), all.value);
    }
  }

  /* ---- Reuse saves renders ---- */

  /** A page that was rendered, whose reads could all be signed, is reused later exactly while its
      partials, its source and its object's signature are the same, everything it read signs the
      same, and its output is still the one built. */
  lemma RenderedIsReusedIff(s: Setting, d: Draft, page: Page, s': Setting, d': Draft, page': Page)
    requires !CanReuse(s, d, page) && RenderOutcome(s.x, s.partials, s.base, page).Rendered?
    requires SignedReads(RenderOutcome(s.x, s.partials, s.base, page).noted, s.signatures).Some?
    requires page'.dest == page.dest && page.dest in d'.records && page.dest in DraftPage(s, d, page).records
    requires d'.records[page.dest] == DraftPage(s, d, page).records[page.dest]
    ensures CanReuse(s', d', page') <==>
            var o := RenderOutcome(s.x, s.partials, s.base, page);
            && s'.partials == s.partials && page'.source == page.source && OverlayOf(s', page') == OverlayOf(s, page)
            && (forall dep | dep in o.noted :: s'.signatures.Of(dep) == s.signatures.Of(dep))
            && page.dest in s'.built && s'.built[page.dest] == HashFile(s.x.postProcess(o.text))
  {
    hide RenderOutcome;
    var o := RenderOutcome(s.x, s.partials, s.base, page);
    var record := DraftPage(s, d, page).records[page.dest];
    assert record == RenderRecord(PartialsDigest(s.partials), HashFile(page.source), OverlayOf(s, page),
                                  SignedReads(o.noted, s.signatures).value, HashFile(s.x.postProcess(o.text)));
    forall dep | dep in o.noted
      ensures s.signatures.Of(dep) == Some(record.deps[dep])
    {
    }
  }

  /** A page that can be reused is kept as it was built, and nothing is rendered or written. */
  lemma ReusedIsKept(s: Setting, d: Draft, page: Page)
    requires CanReuse(s, d, page)
    ensures DraftPage(s, d, page) == d.(kept := d.kept + [(page.dest, s.built[page.dest])])
  {
  }

  /** Planning a page that renders stores a record exactly when all its reads can be signed. */
  lemma RecordStoredIff(s: Setting, d: Draft, page: Page)
    requires !CanReuse(s, d, page) && RenderOutcome(s.x, s.partials, s.base, page).Rendered? && page.dest !in d.records
    ensures page.dest in DraftPage(s, d, page).records <==>
            forall dep | dep in RenderOutcome(s.x, s.partials, s.base, page).noted :: s.signatures.Of(dep).Some?
  {
    hide RenderOutcome;
  }
}
