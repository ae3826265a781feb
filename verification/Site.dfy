/** A site with its caches, and the planning of its builds against a filesystem snapshot. */
module Sites {
  import opened Wrappers
  import opened Templates
  import opened Context
  import opened WritePlans
  import opened PlanLaws
  import opened Builds
  import opened Reuse
  import opened Planning
  import opened Drafts

  /** Every cached object is what its file now parses to. */
  ghost predicate CoherentCache(x: Externals, dir: Path, cache: map<Path, Object>, objects: map<Path, string>) {
    forall p | p in cache ::
      && dir <= p
      && var rel := p[|dir|..];
         PathNames(rel, cache[p].objectName) && ParseObject(x, cache[p].objectName, rel, objects) == Some(cache[p])
  }

  /** A cache loses and changes nothing, and gains nothing unless it may. */
  ghost predicate OnlyGrew(before: map<Path, Object>, after: map<Path, Object>, may: bool) {
    (forall p | p in before :: p in after && after[p] == before[p]) && (!may ==> after == before)
  }

  /** A script's recorded output is what its recorded source compiles to. */
  ghost predicate TrueScriptCache(x: Externals, cache: map<Path, (Digest, Digest)>) {
    forall p | p in cache ::
      x.compile(cache[p].0.content).Some? && cache[p].1 == HashFile(x.compile(cache[p].0.content).value)
  }

  /** Dropping the objects of edited files keeps the rest of the cache right. */
  lemma CoherentAfterEdit(x: Externals, dir: Path, cache: map<Path, Object>, files: map<Path, string>,
                          files': map<Path, string>, edited: set<Path>)
    requires CoherentCache(x, dir, cache, Beneath(files, dir))
    requires forall p | p !in edited :: (p in files <==> p in files') && (p in files ==> files[p] == files'[p])
    ensures CoherentCache(x, dir, cache - edited, Beneath(files', dir))
  {
    hide ParseObject;
    var now := cache - edited;
    forall p | p in now
      ensures ParseObject(x, cache[p].objectName, p[|dir|..], Beneath(files', dir)) == Some(cache[p])
    {
      assert p in cache && dir + p[|dir|..] == p;
      SameParse(x, cache[p].objectName, p[|dir|..], Beneath(files, dir), Beneath(files', dir));
    }
  }

  /** A parse depends on the file at its own path only. */
  lemma SameParse(x: Externals, name: string, rel: Path, objects: map<Path, string>, objects': map<Path, string>)
    requires rel in objects <==> rel in objects'
    requires rel in objects ==> objects[rel] == objects'[rel]
    ensures ParseObject(x, name, rel, objects) == ParseObject(x, name, rel, objects')
  {
  }

  class Site {
    const x: Externals
    const defs: seq<Definition>
    var manifest: Manifest
    const buildCache: HashCache
    const staticCache: HashCache
    /** Compiled script destination to source hash and output hash. */
    var scriptCache: map<Path, (Digest, Digest)>
    var renderCache: map<Path, RenderRecord>
    var objCache: map<Path, Object>
    var generation: nat

    constructor (x: Externals, defs: seq<Definition>, manifest: Manifest)
      ensures this.x == x && this.defs == defs && this.manifest == manifest
      ensures fresh(buildCache) && fresh(staticCache) && buildCache != staticCache
      ensures buildCache.entries == map[] && staticCache.entries == map[]
      ensures scriptCache == map[] && renderCache == map[] && objCache == map[] && generation == 0
    {
      this.x, this.defs, this.manifest := x, defs, manifest;
      var pages := new HashCache();
      var statics := new HashCache();
      buildCache, staticCache := pages, statics;
      scriptCache, renderCache, objCache, generation := map[], map[], map[], 0;
    }

    /* ---- What the caches promise ---- */

    /** Every cached object is what its file now parses to. */
    ghost predicate Coherent(objects: map<Path, string>)
      reads this`objCache, this`manifest
    {
      CoherentCache(x, manifest.objectsDir, objCache, objects)
    }

    ghost predicate TrueScripts()
      reads this`scriptCache
    {
      TrueScriptCache(x, scriptCache)
    }

    ghost predicate True(objects: map<Path, string>)
      reads this`objCache, this`manifest, this`scriptCache, this`renderCache
    {
      && Coherent(objects) && TrueScripts()
      && TrueRecords(x, manifest.buildDir, defs == [], renderCache)
    }

    /* ---- Objects ---- */

    /** Drops a file's object, and moves the generation on. */
    method InvalidateFile(path: Path)
      modifies this`objCache, this`generation
      ensures objCache == old(objCache) - {path} && generation == old(generation) + 1
    {
      objCache := objCache - {path};
      generation := generation + 1;
    }

    /** Reads one object through the cache.  A parse enters the cache only while
        the generation it was made at is the current one. */
    method ObjectForPath(name: string, rel: Path, objects: map<Path, string>, generation: nat) returns (r: Option<Object>)
      modifies this`objCache
      ensures old(Coherent(objects)) && PathNames(rel, name) ==>
                Coherent(objects) && r == ParseObject(x, name, rel, objects)
      ensures var path, parsed := manifest.objectsDir + rel, ParseObject(x, name, rel, objects);
              if path !in old(objCache) && parsed.Some? && this.generation == generation
              then objCache == old(objCache)[path := parsed.value] else objCache == old(objCache)
    {
      if rel == [] || x.extension(Last(rel)) != Some("toml") {
        return None;
      }
      var path := manifest.objectsDir + rel;
      assert path[|manifest.objectsDir|..] == rel;
      if path in objCache {
        if Coherent(objects) && PathNames(rel, name) {
          OneTypePerPath(rel, name, objCache[path].objectName);
        }
        return Some(objCache[path]);
      }
      r := ParseObject(x, name, rel, objects);
      if r.Some? && this.generation == generation {
        objCache := objCache[path := r.value];
      }
    }

    method ReadListCached(name: string, rels: seq<Path>, objects: map<Path, string>, generation: nat)
      returns (r: seq<Object>)
      modifies this`objCache
      ensures old(Coherent(objects)) && (forall rel | rel in rels :: rel != []) ==>
                Coherent(objects) && r == ReadList(x, name, rels, objects)
      ensures OnlyGrew(old(objCache), objCache, this.generation == generation)
    {
      r := [];
      ghost var good := Coherent(objects) && forall rel | rel in rels :: rel != [];
      for i := 0 to |rels|
        invariant good ==> Coherent(objects) && r == ReadList(x, name, rels[..i], objects)
        invariant OnlyGrew(old(objCache), objCache, this.generation == generation)
      {
        assert rels[..i + 1][..i] == rels[..i];
        assert rels[i] in rels && (rels[i] != [] ==> PathNames([name] + rels[i], name));
        var o := ObjectForPath(name, [name] + rels[i], objects, generation);
        if o.Some? {
          r := InsertSorted(x, r, o.value);
        }
      }
      assert rels[..|rels|] == rels;
    }

    method ReadEntryCached(name: string, objects: map<Path, string>, generation: nat) returns (r: Option<Entry>)
      modifies this`objCache
      ensures old(Coherent(objects)) ==> Coherent(objects) && r == ReadEntry(x, name, objects)
      ensures OnlyGrew(old(objCache), objCache, this.generation == generation)
    {
      var members := Beneath(objects, [name]);
      if members != map[] {
        if Exists(objects, RootFile(name)) {
          return None;
        }
        assert forall rel | rel in x.walk(members.Keys) :: rel in members;
        var list := ReadListCached(name, x.walk(members.Keys), objects, generation);
        r := Some(List(list));
      } else if Exists(objects, RootFile(name)) {
        var o := ObjectForPath(name, RootFile(name), objects, generation);
        r := if o.Some? then Some(Root(o.value)) else None;
      } else {
        r := Some(List([]));
      }
    }

    method GetObjectsAt(objects: map<Path, string>, generation: nat) returns (r: Option<Entries>)
      modifies this`objCache
      ensures old(Coherent(objects)) ==> Coherent(objects) && r == ReadEntries(x, defs, objects)
      ensures r.Some? ==> |r.value| == |defs|
      ensures OnlyGrew(old(objCache), objCache, this.generation == generation)
    {
      hide ReadEntries, ReadEntry, CoherentCache;
      var entries: Entries := [];
      ghost var good := Coherent(objects);
      NoDefinitions(x, objects);
      for i := 0 to |defs|
        invariant |entries| == i
        invariant good ==> Coherent(objects) && ReadEntries(x, defs[..i], objects) == Some(entries)
        invariant OnlyGrew(old(objCache), objCache, this.generation == generation)
      {
        if good {
          NextEntry(x, defs, objects, i);
        }
        var entry := ReadEntryCached(defs[i].name, objects, generation);
        if entry.None? {
          if good {
            NoEntryFailsAll(x, defs, objects, i + 1);
          }
          return None;
        }
        entries := entries + [(defs[i].name, entry.value)];
      }
      assert defs[..|defs|] == defs;
      r := Some(entries);
    }

    /* ---- Pages ---- */

    /** Where the plan has come to. */
    ghost function DraftOf(plan: WritePlan, ok: bool): Draft
      reads plan, this`renderCache
    {
      Draft(ok, renderCache, plan.writes, plan.kept)
    }

    /** Plans one page: reuses its last render when nothing it read has moved, and renders
        it otherwise. */
    method PlanPage(s: Setting, page: Page, dir: Option<Path>, plan: WritePlan) returns (ok: bool)
      requires s.x == x && s.built == buildCache.entries
      modifies this`renderCache, plan
      ensures DraftOf(plan, ok) == DraftPage(s, old(DraftOf(plan, true)), page)
      ensures plan.deletes == old(plan.deletes)
    {
      var template, overlay := HashFile(page.source), OverlayOf(s, page);
      if page.dest in renderCache {
        var r := renderCache[page.dest];
        if Reusable(r, PartialsDigest(s.partials), template, overlay, s.signatures, buildCache.entries, page.dest) {
          plan.RecordReused(page.dest, r.output);
          return true;
        }
      }
      var o := RenderOutcome(x, s.partials, s.base, page);
      if o.Failed? {
        return false;
      }
      var rendered := x.postProcess(o.text);
      var hash := HashFile(rendered);
      var deps := SignedReads(o.noted, s.signatures);
      if deps.Some? {
        renderCache := renderCache[page.dest := RenderRecord(PartialsDigest(s.partials), template, overlay, deps.value, hash)];
      }
      plan.Record(buildCache, dir, page.dest, rendered, hash);
      ok := true;
    }

    method PlanJobs(s: Setting, jobs: seq<Job>, skip: bool, plan: WritePlan) returns (ok: bool)
      requires s.x == x && s.built == buildCache.entries
      modifies this`renderCache, plan
      ensures DraftOf(plan, ok) == DraftJobs(s, old(DraftOf(plan, true)), jobs, skip)
      ensures plan.deletes == old(plan.deletes)
    {
      for i := 0 to |jobs|
        invariant DraftOf(plan, true) == DraftJobs(s, old(DraftOf(plan, true)), jobs[..i], skip)
        invariant plan.deletes == old(plan.deletes)
      {
        assert jobs[..i + 1][..i] == jobs[..i];
        ok := false;
        if jobs[i].RenderJob? {
          var page := jobs[i].page;
          ok := PlanPage(s, page, if page.dest == [] then None else Some(Parent(page.dest)), plan);
        }
        if !ok && !skip {
          DraftStays(s, old(DraftOf(plan, true)), jobs, skip, i + 1);
          return;
        }
      }
      assert jobs[..|jobs|] == jobs;
      ok := true;
    }

    /** Plans each of the two default files whose path no page was built to. */
    method PlanSitemap(s: Setting, plan: WritePlan)
      requires s.x == x && s.built == buildCache.entries
      modifies plan
      ensures DraftOf(plan, true) == DraftSitemap(s, manifest, old(DraftOf(plan, true)))
      ensures plan.deletes == old(plan.deletes)
    {
      if !manifest.sitemap || manifest.siteUrl == "" {
        return;
      }
      var built := plan.Visited();
      var sitemap := manifest.buildDir + ["sitemap.xml"];
      var robots := manifest.buildDir + ["robots.txt"];
      if sitemap !in built {
        var contents := x.urlset(manifest.siteUrl, built);
        plan.Record(buildCache, None, sitemap, contents, HashFile(contents));
      }
      if robots !in built {
        var contents := x.robots(manifest.siteUrl);
        plan.Record(buildCache, None, robots, contents, HashFile(contents));
      }
    }

    /** Plans every page of a site whose objects have been read. */
    method PlanPages(src: Sources, entries: Entries, skip: bool, plan: WritePlan) returns (ok: bool)
      requires |entries| == |defs| && plan.writes == [] && plan.kept == [] && plan.deletes == []
      modifies this`renderCache, plan
      ensures var s := SettingOf(src, entries);
              var d := DraftJobs(s, Draft(true, old(renderCache), [], []), AllJobs(x, manifest, defs, entries, src.pages), skip);
              ok == d.ok && DraftOf(plan, ok) == if ok then DraftSitemap(s, manifest, d) else d
      ensures plan.deletes == []
    {
      var partials := x.partials(src.layout, src.pages);
      var base, signatures := BuildContext(x.pluralize, entries, manifest.siteUrl);
      var s := Setting(x, partials, base, signatures, buildCache.entries);
      ok := PlanJobs(s, AllJobs(x, manifest, defs, entries, src.pages), skip, plan);
      if ok {
        PlanSitemap(s, plan);
      }
    }

    function SettingOf(src: Sources, entries: Entries): Setting
      reads this`manifest, buildCache
    {
      Setting(x, x.partials(src.layout, src.pages), BaseContext(x.pluralize, entries, manifest.siteUrl),
              SignaturesOf(x.pluralize, entries, manifest.siteUrl), buildCache.entries)
    }

    /** Plans every page, and the deletion of every output no page builds to any more. */
    method PlanReadable(src: Sources, entries: Entries, skip: bool, plan: WritePlan) returns (ok: bool)
      requires |entries| == |defs| && plan.writes == [] && plan.kept == [] && plan.deletes == []
      requires src.objects != map[] && src.pages != map[]
      modifies this`renderCache, plan
      ensures old(TrueRecords(x, manifest.buildDir, defs == [], renderCache)) && RegularPages(x, manifest, defs, src)
                && ReadEntries(x, defs, src.objects) == Some(entries) ==>
                && TrueRecords(x, manifest.buildDir, defs == [], renderCache)
                && ok == PageOutputs(x, manifest, defs, src, skip).Some?
                && (ok ==> Realises(plan.writes, plan.kept, plan.deletes, PageOutputs(x, manifest, defs, src, skip).value,
                                    buildCache.entries))
    {
      ghost var records := renderCache;
      ok := PlanPages(src, entries, skip, plan);
      if ok {
        plan.DeleteUnvisited(buildCache);
      }
      if TrueRecords(x, manifest.buildDir, defs == [], records) && RegularPages(x, manifest, defs, src)
           && ReadEntries(x, defs, src.objects) == Some(entries) {
        PagesPlanned(SettingOf(src, entries), manifest, defs, src, entries, records,
                     AllJobs(x, manifest, defs, entries, src.pages), skip);
        if ok {
          assert plan.deletes[0..] == plan.deletes;
          PlannedRealises(plan.writes, plan.kept, plan.deletes, PageOutputs(x, manifest, defs, src, skip).value,
                          buildCache.entries);
        }
      }
    }

    /** Plans every page of a snapshot taken at `generation`, from caches that are true of it.
        Only the object and render caches change. */
    method PlanBuild(files: map<Path, string>, skip: bool, generation: nat) returns (ok: bool, plan: WritePlan)
      modifies this`objCache, this`renderCache
      ensures fresh(plan)
      ensures var src := SourcesOf(manifest, files);
              old(True(src.objects)) && RegularPages(x, manifest, defs, src) ==>
                && True(src.objects)
                && ok == PageOutputs(x, manifest, defs, src, skip).Some?
                && (ok ==> Realises(plan.writes, plan.kept, plan.deletes, PageOutputs(x, manifest, defs, src, skip).value,
                                    buildCache.entries))
    {
      ok := false;
      plan := new WritePlan();
      var src := SourcesOf(manifest, files);
      NoOutputs(x, manifest, defs, src, skip);
      hide PageOutputs, RegularPages, Realises, TrueRecords, CoherentCache, TrueScriptCache, SourcesOf;
      if src.objects == map[] || src.pages == map[] {
        return;
      }
      if Relative(files, manifest.buildDir) == {} {
        plan.dirs := plan.dirs + [manifest.buildDir];
      }
      var entries := GetObjectsAt(src.objects, generation);
      if entries.None? {
        return;
      }
      ok := PlanReadable(src, entries.value, skip, plan);
    }

    /* ---- Static files and scripts ---- */

    /** Plans the copy of every static file. */
    method PlanStaticFiles(statics: map<Path, string>, plan: WritePlan)
      requires plan.writes == [] && plan.kept == [] && plan.deletes == []
      modifies plan
      ensures Planned(plan.writes, plan.kept, StaticFiles(manifest, statics), staticCache.entries)
      ensures plan.deletes == []
    {
      var rels := x.walk(statics.Keys);
      assert FilesAt(manifest.buildDir, statics, rels[..0]) == map[];
      for i := 0 to |rels|
        invariant plan.deletes == []
        invariant Planned(plan.writes, plan.kept, FilesAt(manifest.buildDir, statics, rels[..i]), staticCache.entries)
      {
        StaticStep(manifest.buildDir, statics, rels, i);
        var dest := manifest.buildDir + rels[i];
        var content := statics[rels[i]];
        var dir := if dest != [] && Parent(dest) != manifest.buildDir then Some(Parent(dest)) else None;
        RecordPlans(plan.writes, plan.kept, FilesAt(manifest.buildDir, statics, rels[..i]), staticCache.entries, dest, content);
        plan.Record(staticCache, dir, dest, content, HashFile(content));
      }
      AllStatics(manifest, statics, rels);
    }

    /** The last compilation of this source is what the output was last written with. */
    predicate Compiled(dest: Path, source: string)
      reads this`scriptCache, staticCache
    {
      dest in scriptCache && dest in staticCache.entries && scriptCache[dest] == (HashFile(source), staticCache.entries[dest])
    }

    /** Compiles one TypeScript file, unless its last output still stands.  A file that does not
        compile is noted as a failure, and its last output kept. */
    method PlanTypeScript(plan: WritePlan, from: Path, dir: Option<Path>, dest: Path, source: string,
                          ghost target: map<Path, string>)
      modifies this`scriptCache, plan
      ensures plan.deletes == old(plan.deletes)
      ensures old(Compiled(dest, source)) ==>
                scriptCache == old(scriptCache) && plan.writes == old(plan.writes) && plan.failures == old(plan.failures)
                && plan.kept == old(plan.kept) + [(dest, staticCache.entries[dest])]
      ensures !old(Compiled(dest, source)) && x.compile(source).Some? ==>
                var code := x.compile(source).value;
                && scriptCache == old(scriptCache)[dest := (HashFile(source), HashFile(code))] && plan.failures == old(plan.failures)
                && (if dest in staticCache.entries && staticCache.entries[dest] == HashFile(code)
                    then plan.writes == old(plan.writes) && plan.kept == old(plan.kept) + [(dest, HashFile(code))]
                    else plan.writes == old(plan.writes) + [Write(dest, code, HashFile(code))] && plan.kept == old(plan.kept))
      ensures !old(Compiled(dest, source)) && x.compile(source).None? ==>
                scriptCache == old(scriptCache) && plan.writes == old(plan.writes) && plan.failures == old(plan.failures) + [from]
                && plan.kept == old(plan.kept) + if dest in staticCache.entries then [(dest, staticCache.entries[dest])] else []
      ensures old(TrueScripts()) ==> TrueScripts()
      ensures old(TrueScripts()) && x.compile(source).Some? && dest !in target
                && old(Planned(plan.writes, plan.kept, target, staticCache.entries)) ==>
                Planned(plan.writes, plan.kept, target[dest := x.compile(source).value], staticCache.entries)
    {
      hide Planned;
      ghost var good := TrueScripts() && x.compile(source).Some? && dest !in target
                        && Planned(plan.writes, plan.kept, target, staticCache.entries);
      var sourceHash := HashFile(source);
      if dest in scriptCache && dest in staticCache.entries {
        var (cachedSource, cachedOutput) := scriptCache[dest];
        if cachedSource == sourceHash && cachedOutput == staticCache.entries[dest] {
          if good {
            PlannedKeep(plan.writes, plan.kept, target, staticCache.entries, dest, x.compile(source).value);
          }
          plan.RecordReused(dest, staticCache.entries[dest]);
          return;
        }
      }
      match x.compile(source)
      case Some(code) =>
        scriptCache := scriptCache[dest := (sourceHash, HashFile(code))];
        if good {
          RecordPlans(plan.writes, plan.kept, target, staticCache.entries, dest, code);
        }
        plan.Record(staticCache, dir, dest, code, HashFile(code));
      case None =>
        if dest in staticCache.entries {
          plan.RecordReused(dest, staticCache.entries[dest]);
        }
        plan.failures := plan.failures + [from];
    }

    method PlanScript(plan: WritePlan, rel: Path, dest: Path, kind: ScriptKind, source: string,
                      ghost target: map<Path, string>)
      modifies this`scriptCache, plan
      ensures plan.deletes == old(plan.deletes)
      ensures kind.JavaScript? ==> scriptCache == old(scriptCache)
      ensures plan.failures == old(plan.failures)
                + if kind.TypeScript? && !old(Compiled(dest, source)) && x.compile(source).None? then [rel] else []
      ensures old(TrueScripts()) ==> TrueScripts()
      ensures old(TrueScripts()) && ScriptText(x, kind, source).Some? && dest !in target
                && old(Planned(plan.writes, plan.kept, target, staticCache.entries)) ==>
                Planned(plan.writes, plan.kept, target[dest := ScriptText(x, kind, source).value], staticCache.entries)
    {
      var dir := if dest != [] && Parent(dest) != manifest.buildDir then Some(Parent(dest)) else None;
      match kind
      case JavaScript =>
        if Planned(plan.writes, plan.kept, target, staticCache.entries) && dest !in target {
          RecordPlans(plan.writes, plan.kept, target, staticCache.entries, dest, source);
        }
        plan.Record(staticCache, dir, dest, source, HashFile(source));
      case TypeScript =>
        PlanTypeScript(plan, rel, dir, dest, source, target);
    }

    /** Plans the i-th script.  Refuses when a static file builds to the same path. */
    method PlanNextScript(src: Sources, rels: seq<Path>, i: nat, statics: map<Path, string>, plan: WritePlan) returns (ok: bool)
      requires i < |rels| && Lists(rels, src.scripts.Keys)
      requires ScriptFiles(x, manifest, rels[..i], src.scripts, statics).Some?
      modifies this`scriptCache, plan
      ensures plan.deletes == old(plan.deletes)
      ensures old(TrueScripts()) ==> TrueScripts()
      ensures ok == ScriptFiles(x, manifest, rels[..i + 1], src.scripts, statics).Some?
      ensures ok && old(TrueScripts()) && RegularScripts(x, manifest, src)
                && old(ScriptsPlanned(x, manifest, src, rels[..i], statics, plan.writes, plan.kept, staticCache.entries)) ==>
                ScriptsPlanned(x, manifest, src, rels[..i + 1], statics, plan.writes, plan.kept, staticCache.entries)
    {
      assert rels[i] in rels && rels[i] in src.scripts;
      NextScript(x, manifest, rels, i, src.scripts, statics);
      hide ScriptFiles, ScriptDest, ScriptText, Planned, RegularScripts, TrueScriptCache, ScriptsPlanned, Lists;
      var out := ScriptDest(x, manifest, rels[i]);
      if out.None? {
        PassedOver(x, manifest, src, rels, i, statics, plan.writes, plan.kept, staticCache.entries);
        return true;
      }
      var (dest, kind) := out.value;
      if dest in statics {
        return false;
      }
      ghost var target := statics + ScriptFiles(x, manifest, rels[..i], src.scripts, statics).value;
      ghost var good := RegularScripts(x, manifest, src)
                        && ScriptsPlanned(x, manifest, src, rels[..i], statics, plan.writes, plan.kept, staticCache.entries);
      if good {
        BeforeNext(x, manifest, src, rels, i, statics, plan.writes, plan.kept, staticCache.entries);
      }
      PlanScript(plan, rels[i], dest, kind, src.scripts[rels[i]], target);
      if good && TrueScripts() && Planned(plan.writes, plan.kept,
                                          target[dest := ScriptText(x, kind, src.scripts[rels[i]]).value], staticCache.entries) {
        AfterNext(x, manifest, src, rels, i, statics, plan.writes, plan.kept, staticCache.entries);
      }
      ok := true;
    }

    /** Plans every script.  Refuses when a static file and a script build to one path. */
    method PlanScripts(src: Sources, statics: map<Path, string>, plan: WritePlan) returns (ok: bool)
      modifies this`scriptCache, plan
      ensures plan.deletes == old(plan.deletes)
      ensures old(TrueScripts()) ==> TrueScripts()
      ensures var all := ScriptFiles(x, manifest, x.walk(src.scripts.Keys), src.scripts, statics);
              ok == all.Some? &&
              (old(TrueScripts()) && RegularScripts(x, manifest, src) && ok
                && old(Planned(plan.writes, plan.kept, statics, staticCache.entries)) ==>
                Planned(plan.writes, plan.kept, statics + all.value, staticCache.entries))
    {
      ghost var good := TrueScripts() && RegularScripts(x, manifest, src)
                        && Planned(plan.writes, plan.kept, statics, staticCache.entries);
      var rels := x.walk(src.scripts.Keys);
      assert Lists(rels, src.scripts.Keys);
      hide *;
      NoScriptsPlanned(x, manifest, src, statics, plan.writes, plan.kept, staticCache.entries);
      for i := 0 to |rels|
        invariant plan.deletes == old(plan.deletes)
        invariant old(TrueScripts()) ==> TrueScripts()
        invariant ScriptFiles(x, manifest, rels[..i], src.scripts, statics).Some?
        invariant good ==> ScriptsPlanned(x, manifest, src, rels[..i], statics, plan.writes, plan.kept, staticCache.entries)
      {
        ok := PlanNextScript(src, rels, i, statics, plan);
        if !ok {
          CollisionFailsAll(x, manifest, rels, src.scripts, statics, i + 1);
          return;
        }
      }
      assert rels[..|rels|] == rels;
      if good {
        ScriptsPlannedMeans(x, manifest, src, rels, statics, plan.writes, plan.kept, staticCache.entries);
      }
      ok := true;
    }

    /** Plans the static files of a snapshot and then its scripts, against the one cache both
        are recorded in.  Only the script cache changes. */
    method PlanStaticSync(files: map<Path, string>) returns (ok: bool, plan: WritePlan)
      modifies this`scriptCache
      ensures fresh(plan)
      ensures old(TrueScripts()) ==> TrueScripts()
      ensures var src := SourcesOf(manifest, files);
              ok == StaticOutputs(x, manifest, src).Some? &&
              (old(TrueScripts()) && RegularScripts(x, manifest, src) && ok ==>
                Realises(plan.writes, plan.kept, plan.deletes, StaticOutputs(x, manifest, src).value, staticCache.entries))
    {
      plan := new WritePlan();
      var src := SourcesOf(manifest, files);
      if Relative(files, manifest.buildDir) == {} {
        plan.dirs := plan.dirs + [manifest.buildDir];
      }
      PlanStaticFiles(src.statics, plan);
      ok := PlanScripts(src, StaticFiles(manifest, src.statics), plan);
      if !ok {
        return;
      }
      plan.DeleteUnvisited(staticCache);
      assert plan.deletes[0..] == plan.deletes;
      if old(TrueScripts()) && RegularScripts(x, manifest, src) {
        PlannedRealises(plan.writes, plan.kept, plan.deletes, StaticOutputs(x, manifest, src).value, staticCache.entries);
      }
    }
  }

  lemma NoOutputs(x: Externals, m: Manifest, defs: seq<Definition>, src: Sources, skip: bool)
    ensures src.objects == map[] || src.pages == map[] || ReadEntries(x, defs, src.objects).None? ==>
              PageOutputs(x, m, defs, src, skip).None?
  {
  }

  /** The plan so far realises the static files and these scripts. */
  ghost predicate ScriptsPlanned(x: Externals, m: Manifest, src: Sources, rels: seq<Path>, statics: map<Path, string>,
                                 writes: seq<Write>, kept: seq<(Path, Digest)>, cache: map<Path, Digest>) {
    var scripts := ScriptFiles(x, m, rels, src.scripts, statics);
    scripts.Some? && Planned(writes, kept, statics + scripts.value, cache)
  }

  lemma ScriptsPlannedMeans(x: Externals, m: Manifest, src: Sources, rels: seq<Path>, statics: map<Path, string>,
                            writes: seq<Write>, kept: seq<(Path, Digest)>, cache: map<Path, Digest>)
    requires ScriptsPlanned(x, m, src, rels, statics, writes, kept, cache)
    ensures var scripts := ScriptFiles(x, m, rels, src.scripts, statics);
            scripts.Some? && Planned(writes, kept, statics + scripts.value, cache)
  {
    hide ScriptFiles, Planned;
  }

  lemma PassedOver(x: Externals, m: Manifest, src: Sources, rels: seq<Path>, i: nat, statics: map<Path, string>,
                   writes: seq<Write>, kept: seq<(Path, Digest)>, cache: map<Path, Digest>)
    requires i < |rels| && rels[i] in src.scripts && ScriptDest(x, m, rels[i]).None?
    ensures ScriptsPlanned(x, m, src, rels[..i], statics, writes, kept, cache) ==>
              ScriptsPlanned(x, m, src, rels[..i + 1], statics, writes, kept, cache)
  {
    hide ScriptFiles, ScriptDest, Planned;
    if ScriptsPlanned(x, m, src, rels[..i], statics, writes, kept, cache) {
      NextScript(x, m, rels, i, src.scripts, statics);
    }
  }

  lemma BeforeNext(x: Externals, m: Manifest, src: Sources, rels: seq<Path>, i: nat, statics: map<Path, string>,
                   writes: seq<Write>, kept: seq<(Path, Digest)>, cache: map<Path, Digest>)
    requires i < |rels| && Lists(rels, src.scripts.Keys) && RegularScripts(x, m, src) && rels[i] in src.scripts
    requires ScriptDest(x, m, rels[i]).Some? && ScriptDest(x, m, rels[i]).value.0 !in statics
    requires ScriptsPlanned(x, m, src, rels[..i], statics, writes, kept, cache)
    ensures var built := ScriptFiles(x, m, rels[..i], src.scripts, statics);
      var (dest, kind) := ScriptDest(x, m, rels[i]).value;
      && built.Some? && ScriptText(x, kind, src.scripts[rels[i]]).Some? && dest !in statics + built.value
      && Planned(writes, kept, statics + built.value, cache)
  {
    hide ScriptFiles, ScriptDest, ScriptText, Planned, RegularScripts, Lists;
    ScriptIsNew(x, m, src, rels, i, statics);
  }

  lemma AfterNext(x: Externals, m: Manifest, src: Sources, rels: seq<Path>, i: nat, statics: map<Path, string>,
                  writes: seq<Write>, kept: seq<(Path, Digest)>, cache: map<Path, Digest>)
    requires i < |rels| && rels[i] in src.scripts && ScriptFiles(x, m, rels[..i], src.scripts, statics).Some?
    requires ScriptDest(x, m, rels[i]).Some? && ScriptDest(x, m, rels[i]).value.0 !in statics
    requires ScriptText(x, ScriptDest(x, m, rels[i]).value.1, src.scripts[rels[i]]).Some?
    requires var (dest, kind) := ScriptDest(x, m, rels[i]).value;
      Planned(writes, kept, (statics + ScriptFiles(x, m, rels[..i], src.scripts, statics).value)
                              [dest := ScriptText(x, kind, src.scripts[rels[i]]).value], cache)
    ensures ScriptsPlanned(x, m, src, rels[..i + 1], statics, writes, kept, cache)
  {
    hide ScriptFiles, ScriptDest, ScriptText, Planned;
    NextScript(x, m, rels, i, src.scripts, statics);
    var (dest, kind) := ScriptDest(x, m, rels[i]).value;
    var built, text := ScriptFiles(x, m, rels[..i], src.scripts, statics).value, ScriptText(x, kind, src.scripts[rels[i]]).value;
    assert (statics + built)[dest := text] == statics + built[dest := text];
  }

  lemma NoScriptsPlanned(x: Externals, m: Manifest, src: Sources, statics: map<Path, string>,
                         writes: seq<Write>, kept: seq<(Path, Digest)>, cache: map<Path, Digest>)
    ensures ScriptFiles(x, m, [], src.scripts, statics) == Some(map[])
    ensures Planned(writes, kept, statics, cache) ==> ScriptsPlanned(x, m, src, [], statics, writes, kept, cache)
  {
    assert statics + map[] == statics;
  }

  /** What one more script adds. */
  lemma NextScript(x: Externals, m: Manifest, rels: seq<Path>, i: nat, scripts: map<Path, string>, statics: map<Path, string>)
    requires i < |rels| && rels[i] in scripts && ScriptFiles(x, m, rels[..i], scripts, statics).Some?
    ensures var before := ScriptFiles(x, m, rels[..i], scripts, statics);
      var dest := ScriptDest(x, m, rels[i]);
      ScriptFiles(x, m, rels[..i + 1], scripts, statics) ==
        if dest.None? then before
        else if dest.value.0 in statics then None
        else
          var text := ScriptText(x, dest.value.1, scripts[rels[i]]);
          if text.None? then before else Some(before.value[dest.value.0 := text.value])
  {
    hide ScriptDest, ScriptText;
    assert rels[..i + 1][..i] == rels[..i];
  }

  lemma {:induction false} CollisionFailsAll(x: Externals, m: Manifest, rels: seq<Path>, scripts: map<Path, string>,
                                             statics: map<Path, string>, n: nat)
    requires n <= |rels| && ScriptFiles(x, m, rels[..n], scripts, statics).None?
    ensures ScriptFiles(x, m, rels, scripts, statics).None?
    decreases |rels| - n
  {
    if n < |rels| {
      assert rels[..n + 1][..n] == rels[..n];
      CollisionFailsAll(x, m, rels, scripts, statics, n + 1);
    } else {
      assert rels[..n] == rels;
    }
  }

  /** The files of `statics` listed in `rels`, placed under `build`. */
  ghost function FilesAt(build: Path, statics: map<Path, string>, rels: seq<Path>): map<Path, string> {
    map p | p in (set rel | rel in rels && rel in statics :: build + rel) ::
      (assert p[|build|..] in statics; statics[p[|build|..]])
  }

  lemma StaticStep(build: Path, statics: map<Path, string>, rels: seq<Path>, i: nat)
    requires i < |rels| && Lists(rels, statics.Keys)
    ensures rels[i] in statics && build + rels[i] !in FilesAt(build, statics, rels[..i])
    ensures FilesAt(build, statics, rels[..i + 1]) == FilesAt(build, statics, rels[..i])[build + rels[i] := statics[rels[i]]]
  {
    assert rels[i] in rels && rels[i] !in rels[..i] && rels[..i + 1] == rels[..i] + [rels[i]];
    forall rel: Path
      ensures (build + rel)[|build|..] == rel
    {
    }
  }

  lemma AllStatics(m: Manifest, statics: map<Path, string>, rels: seq<Path>)
    requires Lists(rels, statics.Keys)
    ensures FilesAt(m.buildDir, statics, rels[..|rels|]) == StaticFiles(m, statics)
  {
    assert rels[..|rels|] == rels;
  }

  /** Nothing the scripts build lies where none of them is placed. */
  lemma {:induction false} NoScriptAt(x: Externals, m: Manifest, rels: seq<Path>, scripts: map<Path, string>,
                                      statics: map<Path, string>, p: Path)
    requires ScriptFiles(x, m, rels, scripts, statics).Some?
    requires forall rel | rel in rels && ScriptDest(x, m, rel).Some? :: ScriptDest(x, m, rel).value.0 != p
    ensures p !in ScriptFiles(x, m, rels, scripts, statics).value
  {
    if rels != [] {
      assert rels[|rels| - 1] in rels;
      NoScriptAt(x, m, rels[..|rels| - 1], scripts, statics, p);
    }
  }

  lemma ScriptIsNew(x: Externals, m: Manifest, src: Sources, rels: seq<Path>, i: nat, statics: map<Path, string>)
    requires i < |rels| && Lists(rels, src.scripts.Keys) && RegularScripts(x, m, src)
    requires ScriptDest(x, m, rels[i]).Some?
    requires ScriptFiles(x, m, rels[..i], src.scripts, statics).Some?
    ensures ScriptDest(x, m, rels[i]).value.0 !in ScriptFiles(x, m, rels[..i], src.scripts, statics).value
    ensures ScriptText(x, ScriptDest(x, m, rels[i]).value.1, src.scripts[rels[i]]).Some?
  {
    assert rels[i] in rels;
    forall rel | rel in rels[..i] && ScriptDest(x, m, rel).Some?
      ensures ScriptDest(x, m, rel).value.0 != ScriptDest(x, m, rels[i]).value.0
    {
      var j :| 0 <= j < i && rels[j] == rel;
      assert rel in rels && rel != rels[i];
    }
    NoScriptAt(x, m, rels[..i], src.scripts, statics, ScriptDest(x, m, rels[i]).value.0);
  }

  /** Recording an output plans for it, whether or not the cache already holds it. */
  lemma RecordPlans(writes: seq<Write>, kept: seq<(Path, Digest)>, target: map<Path, string>, cache: map<Path, Digest>,
                    path: Path, contents: string)
    requires Planned(writes, kept, target, cache) && path !in target
    ensures if path in cache && cache[path] == HashFile(contents)
            then Planned(writes, kept + [(path, HashFile(contents))], target[path := contents], cache)
            else Planned(writes + [Write(path, contents, HashFile(contents))], kept, target[path := contents], cache)
  {
    if path in cache && cache[path] == HashFile(contents) {
      PlannedKeep(writes, kept, target, cache, path, contents);
    } else {
      PlannedWrite(writes, kept, target, cache, path, contents);
    }
  }


  /** A from-scratch build of readable sources renders all their jobs and adds the sitemap. */
  lemma OutputsOfJobs(x: Externals, m: Manifest, defs: seq<Definition>, src: Sources, entries: Entries, jobs: seq<Job>, skip: bool)
    requires src.objects != map[] && src.pages != map[]
    requires ReadEntries(x, defs, src.objects) == Some(entries)
    requires jobs == AllJobs(x, m, defs, entries, src.pages)
    ensures var all := RenderAll(x, x.partials(src.layout, src.pages), BaseContext(x.pluralize, entries, m.siteUrl), jobs, skip);
            PageOutputs(x, m, defs, src, skip) == if all.None? then None else Some(WithSitemap(x, m, all.value))
  {
  }

  /** The whole draft of a regular site: it fails when a from-scratch build does, and
      otherwise accounts for exactly what that produces. */
  lemma PagesPlanned(s: Setting, m: Manifest, defs: seq<Definition>, src: Sources, entries: Entries,
                     records: map<Path, RenderRecord>, jobs: seq<Job>, skip: bool)
    requires src.objects != map[] && src.pages != map[]
    requires ReadEntries(s.x, defs, src.objects) == Some(entries)
    requires RegularPages(s.x, m, defs, src)
    requires s.partials == s.x.partials(src.layout, src.pages)
    requires s.base == BaseContext(s.x.pluralize, entries, m.siteUrl)
    requires s.signatures == SignaturesOf(s.x.pluralize, entries, m.siteUrl)
    requires TrueRecords(s.x, m.buildDir, defs == [], records)
    requires jobs == AllJobs(s.x, m, defs, entries, src.pages)
    ensures var d := DraftJobs(s, Draft(true, records, [], []), jobs, skip);
            var out := PageOutputs(s.x, m, defs, src, skip);
            && d.ok == out.Some?
            && TrueRecords(s.x, m.buildDir, defs == [], d.records)
            && (d.ok ==> Aims(s, m.buildDir, defs == [], DraftSitemap(s, m, d), out.value))
  {
    OutputsOfJobs(s.x, m, defs, src, entries, jobs, skip);
    JobsAreGoodFor(s, m, defs, src, entries);
    JobsPlanned(s, m, defs == [], records, jobs, skip);
  }

  lemma JobsPlanned(s: Setting, m: Manifest, noTypes: bool, records: map<Path, RenderRecord>, jobs: seq<Job>, skip: bool)
    requires Sound(s, noTypes) && TrueRecords(s.x, m.buildDir, noTypes, records)
    requires DistinctDests(jobs) && forall job | job in jobs :: GoodJob(m.buildDir, s.signatures, job)
    ensures var d := DraftJobs(s, Draft(true, records, [], []), jobs, skip);
            var all := RenderAll(s.x, s.partials, s.base, jobs, skip);
            && d.ok == all.Some?
            && TrueRecords(s.x, m.buildDir, noTypes, d.records)
            && (all.Some? ==> Aims(s, m.buildDir, noTypes, DraftSitemap(s, m, d), WithSitemap(s.x, m, all.value)))
  {
    var d := Draft(true, records, [], []);
    assert VisitedBy(d.writes, d.kept) == {};
    DraftAims(s, m, noTypes, d, jobs, skip);
  }

  lemma JobsAreGoodFor(s: Setting, m: Manifest, defs: seq<Definition>, src: Sources, entries: Entries)
    requires ReadEntries(s.x, defs, src.objects) == Some(entries) && RegularPages(s.x, m, defs, src)
    requires s.base == BaseContext(s.x.pluralize, entries, m.siteUrl)
    requires s.signatures == SignaturesOf(s.x.pluralize, entries, m.siteUrl)
    ensures Sound(s, defs == [])
    ensures var jobs := AllJobs(s.x, m, defs, entries, src.pages);
            DistinctDests(jobs) && forall job | job in jobs :: GoodJob(m.buildDir, s.signatures, job)
  {
    ReadEntriesAreFor(s.x, defs, src.objects);
    JobsAreGood(s.x, m, defs, entries, src.pages, s.signatures);
    SignsIffNoSiteUrlType(s.x.pluralize, entries, m.siteUrl);
    NoEntriesNoObjects(s.x.pluralize, entries, m.siteUrl);
  }

  lemma {:induction false} DraftStays(s: Setting, d: Draft, jobs: seq<Job>, skip: bool, n: nat)
    requires n <= |jobs| && !DraftJobs(s, d, jobs[..n], skip).ok
    ensures DraftJobs(s, d, jobs, skip) == DraftJobs(s, d, jobs[..n], skip)
    decreases |jobs| - n
  {
    if n < |jobs| {
      assert jobs[..n + 1][..n] == jobs[..n];
      DraftStays(s, d, jobs, skip, n + 1);
    } else {
      assert jobs[..n] == jobs;
    }
  }

  lemma NoDefinitions(x: Externals, objects: map<Path, string>)
    ensures ReadEntries(x, [], objects) == Some([])
  {
  }

  lemma NextEntry(x: Externals, defs: seq<Definition>, objects: map<Path, string>, i: nat)
    requires i < |defs| && ReadEntries(x, defs[..i], objects).Some?
    ensures var entry := ReadEntry(x, defs[i].name, objects);
            ReadEntries(x, defs[..i + 1], objects) == if entry.None? then None
              else Some(ReadEntries(x, defs[..i], objects).value + [(defs[i].name, entry.value)])
  {
    hide ReadEntry;
    assert defs[..i + 1][..i] == defs[..i];
  }

  lemma {:induction false} NoEntryFailsAll(x: Externals, defs: seq<Definition>, objects: map<Path, string>, n: nat)
    requires n <= |defs| && ReadEntries(x, defs[..n], objects).None?
    ensures ReadEntries(x, defs, objects).None?
    decreases |defs| - n
  {
    if n < |defs| {
      assert defs[..n + 1][..n] == defs[..n];
      NoEntryFailsAll(x, defs, objects, n + 1);
    } else {
      assert defs[..n] == defs;
    }
  }

  lemma NoEntriesNoObjects(pluralize: Pluralize, entries: Entries, siteUrl: string)
    ensures SignaturesOf(pluralize, entries, siteUrl).objects == map[] <==> entries == []
  {
    if entries != [] {
      var last := entries[|entries| - 1];
      assert last.0 in ByName(entries);
      assert last.0 in SignaturesOf(pluralize, entries, siteUrl).objects;
    }
  }
}
