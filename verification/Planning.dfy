/** When planning a build is right: plans under construction, and the jobs they come from. */
module Planning {
  import opened Wrappers
  import opened Templates
  import opened Context
  import opened WritePlans
  import opened PlanLaws
  import opened Builds
  import opened Reuse

  /* ---- Plans under construction ---- */

  /** The plan accounts for exactly `target`, writing what the cache does not hold. */
  ghost predicate Planned(writes: seq<Write>, kept: seq<(Path, Digest)>, target: map<Path, string>, cache: map<Path, Digest>) {
    && (forall w | w in writes :: w.path in target && w.contents == target[w.path] && w.hash == HashFile(w.contents)
                                  && !(w.path in cache && cache[w.path] == w.hash))
    && (forall u | u in kept :: u.0 in target && u.1 == HashFile(target[u.0]) && u.0 in cache && cache[u.0] == u.1)
    && VisitedBy(writes, kept) == target.Keys
  }

  function VisitedBy(writes: seq<Write>, kept: seq<(Path, Digest)>): set<Path> {
    (set w | w in writes :: w.path) + (set u | u in kept :: u.0)
  }

  lemma PlannedWrite(writes: seq<Write>, kept: seq<(Path, Digest)>, target: map<Path, string>, cache: map<Path, Digest>,
                     path: Path, contents: string)
    requires Planned(writes, kept, target, cache) && path !in target
    requires !(path in cache && cache[path] == HashFile(contents))
    ensures Planned(writes + [Write(path, contents, HashFile(contents))], kept, target[path := contents], cache)
  {
    var more := writes + [Write(path, contents, HashFile(contents))];
    assert VisitedBy(more, kept) == VisitedBy(writes, kept) + {path} by {
      assert more[|writes|] in more;
      assert forall w :: w in more <==> w in writes || w == more[|writes|];
    }
  }

  lemma PlannedKeep(writes: seq<Write>, kept: seq<(Path, Digest)>, target: map<Path, string>, cache: map<Path, Digest>,
                    path: Path, contents: string)
    requires Planned(writes, kept, target, cache) && path !in target
    requires path in cache && cache[path] == HashFile(contents)
    ensures Planned(writes, kept + [(path, HashFile(contents))], target[path := contents], cache)
  {
    var more := kept + [(path, HashFile(contents))];
    assert VisitedBy(writes, more) == VisitedBy(writes, kept) + {path} by {
      assert more[|kept|] in more;
      assert forall u :: u in more <==> u in kept || u == more[|kept|];
    }
  }

  lemma PlannedRealises(writes: seq<Write>, kept: seq<(Path, Digest)>, deletes: seq<Path>,
                        target: map<Path, string>, cache: map<Path, Digest>)
    requires Planned(writes, kept, target, cache)
    requires forall p :: p in deletes <==> p in cache && p !in VisitedBy(writes, kept)
    ensures Realises(writes, kept, deletes, target, cache)
  {
    forall p | p in target
      ensures (exists w :: w in writes && w.path == p) || (exists u :: u in kept && u.0 == p)
    {
      assert p in VisitedBy(writes, kept);
    }
  }

  /* ---- Objects and where they are read from ---- */

  /** A path beneath the objects dir that belongs to one object type. */
  predicate PathNames(rel: Path, name: string) {
    (|rel| > 1 && rel[0] == name) || rel == RootFile(name)
  }

  lemma OneTypePerPath(rel: Path, name: string, name': string)
    requires PathNames(rel, name) && PathNames(rel, name')
    ensures name == name'
  {
    if rel == RootFile(name) {
      assert (name + ".toml")[..|name|] == name && (name' + ".toml")[..|name'|] == name';
    }
  }

  /* ---- When the promises of a build hold ---- */

  ghost predicate DistinctDests(jobs: seq<Job>) {
    forall i, j | 0 <= i < j < |jobs| && jobs[i].RenderJob? && jobs[j].RenderJob? ::
      jobs[i].page.dest != jobs[j].page.dest
  }

  /** What the build of a site needs of its sources: object types are named once, none takes
      the name `site_url`, and no two pages build to one path. */
  ghost predicate RegularPages(x: Externals, m: Manifest, defs: seq<Definition>, src: Sources) {
    var entries := ReadEntries(x, defs, src.objects);
    entries.Some? ==>
      && DistinctNames(entries.value) && NoSiteUrlType(x.pluralize, entries.value)
      && DistinctDests(AllJobs(x, m, defs, entries.value, src.pages))
  }

  /** No two scripts build to one path, and every script compiles. */
  ghost predicate RegularScripts(x: Externals, m: Manifest, src: Sources) {
    && (forall a, b | a in src.scripts && b in src.scripts && a != b
          && ScriptDest(x, m, a).Some? && ScriptDest(x, m, b).Some? ::
          ScriptDest(x, m, a).value.0 != ScriptDest(x, m, b).value.0)
    && (forall a | a in src.scripts && ScriptDest(x, m, a).Some? ::
          ScriptText(x, ScriptDest(x, m, a).value.1, src.scripts[a]).Some?)
  }

  /** Each job's page is placed by its name, and its object is signed by its own value. */
  ghost predicate GoodJob(build: Path, signatures: ContextSignatures, job: Job) {
    job.RenderJob? ==>
      && WellPlaced(build, job.page)
      && (job.page.of.Some? ==>
            var key := (job.page.of.value.objectName, job.page.of.value.filename);
            key in signatures.perObject && signatures.perObject[key] == OfValue(LiquidObject(job.page.of.value)))
  }

  lemma TemplatePagesAreGood(x: Externals, m: Manifest, entries: Entries, n: nat, template: Path, source: string,
                             signatures: ContextSignatures, i: nat)
    requires n < |entries| && i < |EntryObjects(entries[n].1)| && OwnObjects(entries[n].1, entries[n].0)
    requires DistinctNames(entries) && signatures.perObject == PerObject(entries)
    requires DistinctDests(TemplatePages(x, m, template, EntryObjects(entries[n].1), source))
    ensures GoodJob(m.buildDir, signatures, TemplatePages(x, m, template, EntryObjects(entries[n].1), source)[i])
  {
    var objects := EntryObjects(entries[n].1);
    var jobs := TemplatePages(x, m, template, objects, source);
    var ext: DotFree := Extension(TemplateKind(x, template));
    forall j | i < j < |objects|
      ensures objects[j].filename != objects[i].filename
    {
      assert objects[i] in objects && objects[j] in objects;
      assert jobs[i].page.dest != jobs[j].page.dest;
    }
    PerObjectFinds(entries, n, i);
    assert objects[i] in objects;
    assert Last(jobs[i].page.dest) == objects[i].filename + "." + ext;
    assert Parent(jobs[i].page.dest) == m.buildDir + [objects[i].objectName];
  }

  lemma {:induction false} TemplateJobsAreGood(x: Externals, m: Manifest, defs: seq<Definition>, entries: Entries, n: nat,
                                               pages: map<Path, string>, signatures: ContextSignatures)
    requires EntriesFor(entries, defs) && DistinctNames(entries) && signatures.perObject == PerObject(entries)
    requires n <= |defs| && DistinctDests(TemplateJobs(x, m, defs[..n], entries[..n], pages))
    ensures forall job | job in TemplateJobs(x, m, defs[..n], entries[..n], pages) :: GoodJob(m.buildDir, signatures, job)
  {
    if n > 0 {
      assert defs[..n][..n - 1] == defs[..n - 1] && entries[..n][..n - 1] == entries[..n - 1];
      var init := TemplateJobs(x, m, defs[..n - 1], entries[..n - 1], pages);
      var last := JobsFor(x, m, defs[n - 1], entries[n - 1].1, pages);
      var all := TemplateJobs(x, m, defs[..n], entries[..n], pages);
      assert all == init + last;
      DistinctParts(init, last);
      TemplateJobsAreGood(x, m, defs, entries, n - 1, pages, signatures);
      JobsForAreGood(x, m, defs[n - 1], entries, n - 1, pages, signatures);
    }
  }

  lemma DistinctParts(first: seq<Job>, rest: seq<Job>)
    requires DistinctDests(first + rest)
    ensures DistinctDests(first) && DistinctDests(rest)
  {
    var all := first + rest;
    assert forall i | 0 <= i < |first| :: first[i] == all[i];
    assert forall i | 0 <= i < |rest| :: rest[i] == all[|first| + i];
  }

  lemma JobsForAreGood(x: Externals, m: Manifest, def: Definition, entries: Entries, n: nat,
                       pages: map<Path, string>, signatures: ContextSignatures)
    requires n < |entries| && OwnObjects(entries[n].1, entries[n].0)
    requires DistinctNames(entries) && signatures.perObject == PerObject(entries)
    requires DistinctDests(JobsFor(x, m, def, entries[n].1, pages))
    ensures forall job | job in JobsFor(x, m, def, entries[n].1, pages) :: GoodJob(m.buildDir, signatures, job)
  {
    var jobs := JobsFor(x, m, def, entries[n].1, pages);
    forall i | 0 <= i < |jobs|
      ensures GoodJob(m.buildDir, signatures, jobs[i])
    {
      if jobs[i].RenderJob? {
        TemplatePagesAreGood(x, m, entries, n, def.template.value, pages[TemplateFile(def.template.value)], signatures, i);
      }
    }
  }

  lemma {:induction false} FileJobsAreGood(x: Externals, m: Manifest, defs: seq<Definition>, rels: seq<Path>,
                                           pages: map<Path, string>, signatures: ContextSignatures)
    ensures forall job | job in FileJobs(x, m, defs, rels, pages) :: GoodJob(m.buildDir, signatures, job)
  {
    if rels != [] {
      var n := |rels| - 1;
      FileJobsAreGood(x, m, defs, rels[..n], pages, signatures);
      if IsPage(x, defs, rels[n]) && rels[n] in pages {
        var page := FilePage(x, m, rels[n], pages);
        var ext: DotFree := Extension(x.parsePageName(Last(rels[n])).value.1);
        assert Last(page.dest) == page.name + "." + ext;
      }
    }
  }

  lemma JobsAreGood(x: Externals, m: Manifest, defs: seq<Definition>, entries: Entries, pages: map<Path, string>,
                    signatures: ContextSignatures)
    requires EntriesFor(entries, defs) && DistinctNames(entries) && signatures.perObject == PerObject(entries)
    requires DistinctDests(AllJobs(x, m, defs, entries, pages))
    ensures forall job | job in AllJobs(x, m, defs, entries, pages) :: GoodJob(m.buildDir, signatures, job)
  {
    assert defs[..|defs|] == defs && entries[..|defs|] == entries;
    DistinctParts(TemplateJobs(x, m, defs, entries, pages), FileJobs(x, m, defs, x.walk(pages.Keys), pages));
    TemplateJobsAreGood(x, m, defs, entries, |defs|, pages, signatures);
    FileJobsAreGood(x, m, defs, x.walk(pages.Keys), pages, signatures);
  }
}
