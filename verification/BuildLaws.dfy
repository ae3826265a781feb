/** What a build reads and what it writes, one file at a time. */
module BuildLaws {
  import opened Wrappers
  import opened Templates
  import opened Context
  import opened WritePlans
  import opened Builds
  import opened Planning
  import TemplateMeanings

  /* ---- Sources ---- */

  /** One kind of source is exactly the files beneath its dir, by their paths from there. */
  ghost predicate AreBeneath(files: map<Path, string>, dir: Path, source: map<Path, string>) {
    && (forall rel :: rel in source <==> rel != [] && dir + rel in files)
    && (forall rel | rel in source :: source[rel] == files[dir + rel])
  }

  /** Each kind of source is read from its own dir. */
  lemma SourcesHold(m: Manifest, files: map<Path, string>)
    ensures var src := SourcesOf(m, files);
            && AreBeneath(files, m.objectsDir, src.objects) && AreBeneath(files, m.pagesDir, src.pages)
            && AreBeneath(files, m.layoutDir, src.layout) && AreBeneath(files, m.staticDir, src.statics)
            && if m.scriptsDir.Some? then AreBeneath(files, m.scriptsDir.value, src.scripts) else src.scripts == map[]
  {
    HoldsBeneath(files, m.objectsDir);
    HoldsBeneath(files, m.pagesDir);
    HoldsBeneath(files, m.layoutDir);
    HoldsBeneath(files, m.staticDir);
    if m.scriptsDir.Some? {
      HoldsBeneath(files, m.scriptsDir.value);
    }
    hide AreBeneath, Beneath;
  }

  lemma HoldsBeneath(files: map<Path, string>, dir: Path)
    ensures AreBeneath(files, dir, Beneath(files, dir))
  {
  }

  /* ---- Objects ---- */

  /** A file that parses as an object of a type. */
  ghost predicate Parses(x: Externals, name: string, rel: Path, objects: map<Path, string>, o: Object) {
    && rel != [] && rel in objects && x.extension(rel[|rel| - 1]) == Some("toml")
    && x.parseObject(name, objects[rel]) == Some((o.order, o.values))
    && o.filename == x.fileStem(rel[|rel| - 1]) && o.objectName == name
  }

  lemma ParsesIff(x: Externals, name: string, rel: Path, objects: map<Path, string>, o: Object)
    ensures ParseObject(x, name, rel, objects) == Some(o) <==> Parses(x, name, rel, objects, o)
  {
  }

  /** The files that parse, in the order they are walked. */
  function Parsed(x: Externals, name: string, rels: seq<Path>, objects: map<Path, string>): seq<Object> {
    if rels == [] then []
    else
      var init := Parsed(x, name, rels[..|rels| - 1], objects);
      match ParseObject(x, name, [name] + rels[|rels| - 1], objects)
      case None => init
      case Some(o) => init + [o]
  }

  /** An order that sorting can rely on. */
  ghost predicate Orders(less: (Object, Object) -> bool) {
    && (forall a, b | less(a, b) :: !less(b, a))
    && (forall a, b, c | !less(a, b) && !less(b, c) :: !less(a, c))
  }

  ghost predicate Sorted(less: (Object, Object) -> bool, s: seq<Object>) {
    forall i, j | 0 <= i < j < |s| :: !less(s[j], s[i])
  }

  /** The objects that are neither before nor after `e`, in the order they stand. */
  ghost function Alike(less: (Object, Object) -> bool, s: seq<Object>, e: Object): seq<Object> {
    if s == [] then []
    else
      var o := s[|s| - 1];
      Alike(less, s[..|s| - 1], e) + if !less(o, e) && !less(e, o) then [o] else []
  }

  lemma {:induction false} AlikeConcat(less: (Object, Object) -> bool, a: seq<Object>, b: seq<Object>, e: Object)
    ensures Alike(less, a + b, e) == Alike(less, a, e) + Alike(less, b, e)
    decreases |b|
  {
    if b == [] {
      assert a + b == a;
    } else {
      var n := |b| - 1;
      assert (a + b)[..|a| + n] == a + b[..n];
      AlikeConcat(less, a, b[..n], e);
    }
  }

  lemma {:induction false} InsertedInOrder(x: Externals, sorted: seq<Object>, o: Object)
    requires Orders(x.less) && Sorted(x.less, sorted)
    ensures |InsertSorted(x, sorted, o)| == |sorted| + 1 && Sorted(x.less, InsertSorted(x, sorted, o))
    decreases |sorted|
  {
    hide Orders;
    if sorted != [] {
      var init, last := sorted[..|sorted| - 1], sorted[|sorted| - 1];
      assert sorted == init + [last];
      if x.less(o, last) {
        InsertedInOrder(x, init, o);
        SortedThen(x.less, InsertSorted(x, init, o), init, o, last);
      } else {
        LastIsBehind(x.less, sorted, o);
      }
    }
  }

  lemma LastIsBehind(less: (Object, Object) -> bool, sorted: seq<Object>, o: Object)
    requires Orders(less) && Sorted(less, sorted) && sorted != [] && !less(o, sorted[|sorted| - 1])
    ensures Sorted(less, sorted + [o])
  {
    var last := sorted[|sorted| - 1];
    forall i | 0 <= i < |sorted|
      ensures !less(o, sorted[i])
    {
      assert !less(last, sorted[i]);
    }
  }

  /** An object goes in behind everything it does not precede. */
  lemma {:induction false} InsertedStably(x: Externals, sorted: seq<Object>, o: Object, e: Object)
    requires Orders(x.less)
    ensures Alike(x.less, InsertSorted(x, sorted, o), e) == Alike(x.less, sorted + [o], e)
    decreases |sorted|
  {
    hide Orders, Alike;
    if sorted == [] {
      assert sorted + [o] == [o];
    } else {
      var init, last := sorted[..|sorted| - 1], sorted[|sorted| - 1];
      assert sorted == init + [last];
      if x.less(o, last) {
        InsertedStably(x, init, o, e);
        AlikeConcat(x.less, InsertSorted(x, init, o), [last], e);
        AlikeConcat(x.less, sorted, [o], e);
        AlikeConcat(x.less, init, [last], e);
        AlikeConcat(x.less, init, [o], e);
        OneAlike(x.less, o, last, e);
      }
    }
  }

  lemma SortedThen(less: (Object, Object) -> bool, front: seq<Object>, init: seq<Object>, o: Object, last: Object)
    requires Orders(less) && Sorted(less, front) && Sorted(less, init + [last]) && less(o, last)
    requires forall a :: a in front <==> a in init || a == o
    ensures Sorted(less, front + [last])
  {
    forall i | 0 <= i < |front|
      ensures !less(last, front[i])
    {
      assert front[i] in front;
      if front[i] in init {
        var k :| 0 <= k < |init| && init[k] == front[i];
        assert (init + [last])[k] == front[i] && (init + [last])[|init|] == last;
      }
    }
  }

  /** Of two objects in order, at most one is like a third. */
  lemma OneAlike(less: (Object, Object) -> bool, o: Object, last: Object, e: Object)
    requires Orders(less) && less(o, last)
    ensures Alike(less, [o], e) == [] || Alike(less, [last], e) == []
  {
    assert [o][..0] == [] && [last][..0] == [];
  }

  /** The objects of a type are a stable sort of the files that parse: in order, and those of one
      order as they were walked. */
  lemma {:induction false} ReadListIsStableSort(x: Externals, name: string, rels: seq<Path>, objects: map<Path, string>, e: Object)
    requires Orders(x.less)
    ensures var r := ReadList(x, name, rels, objects);
            && Sorted(x.less, r) && |r| == |Parsed(x, name, rels, objects)|
            && Alike(x.less, r, e) == Alike(x.less, Parsed(x, name, rels, objects), e)
  {
    if rels != [] {
      var n := |rels| - 1;
      ReadListIsStableSort(x, name, rels[..n], objects, e);
      var init, parsed := ReadList(x, name, rels[..n], objects), Parsed(x, name, rels[..n], objects);
      match ParseObject(x, name, [name] + rels[n], objects)
      case None =>
      case Some(o) =>
        InsertedInOrder(x, init, o);
        InsertedStably(x, init, o, e);
        AlikeConcat(x.less, init, [o], e);
        AlikeConcat(x.less, parsed, [o], e);
    }
  }

  lemma {:induction false} ReadListHolds(x: Externals, name: string, rels: seq<Path>, objects: map<Path, string>, o: Object)
    ensures o in ReadList(x, name, rels, objects) <==> exists rel :: rel in rels && Parses(x, name, [name] + rel, objects, o)
  {
    if rels != [] {
      var n := |rels| - 1;
      ReadListHolds(x, name, rels[..n], objects, o);
      ParsesIff(x, name, [name] + rels[n], objects, o);
      assert rels == rels[..n] + [rels[n]];
    }
  }

  /** Files lie beneath the dir of a type, or at least one file has its name. */
  ghost predicate HasMembers(name: string, objects: map<Path, string>) {
    exists p :: p in objects && |p| > 1 && p[0] == name
  }

  ghost predicate HasRoot(name: string, objects: map<Path, string>) {
    exists p :: p in objects && p != [] && p[0] == name + ".toml"
  }

  lemma MembersIff(name: string, objects: map<Path, string>)
    ensures Beneath(objects, [name]) != map[] <==> HasMembers(name, objects)
    ensures Exists(objects, RootFile(name)) <==> HasRoot(name, objects)
  {
    BeneathIff(name, objects);
    BeneathIff(name + ".toml", objects);
    if RootFile(name) in objects {
      assert RootFile(name)[0] == name + ".toml";
    }
    if p :| p in objects && p != [] && p[0] == name + ".toml" {
      assert |p| == 1 ==> p == RootFile(name);
    }
  }

  lemma BeneathIff(dir: string, objects: map<Path, string>)
    ensures Beneath(objects, [dir]) != map[] <==> exists p :: p in objects && |p| > 1 && p[0] == dir
  {
    var rels := Relative(objects, [dir]);
    assert Beneath(objects, [dir]).Keys == rels;
    if p :| p in objects && |p| > 1 && p[0] == dir {
      assert p == [dir] + p[1..];
      assert p[1..] in rels;
    }
    if rel :| rel in rels {
      assert ([dir] + rel)[0] == dir;
    }
  }

  /** A type with files in its own dir is a list of those that parse; one with a file of its name is
      that single object; with both, or with a single object that does not parse, reading fails. */
  lemma EntryIs(x: Externals, name: string, objects: map<Path, string>)
    ensures var r := ReadEntry(x, name, objects);
            if HasMembers(name, objects) && HasRoot(name, objects) then r.None?
            else if HasMembers(name, objects) then
              r.Some? && r.value.List? && forall o :: o in r.value.objects <==>
                exists rel :: Parses(x, name, [name] + rel, objects, o) && rel != []
            else if HasRoot(name, objects) then
              if r.None? then forall o :: !Parses(x, name, [name + ".toml"], objects, o)
              else r.value.Root? && Parses(x, name, [name + ".toml"], objects, EntryObjects(r.value)[0])
            else r == Some(List([]))
  {
    MembersIff(name, objects);
    if HasMembers(name, objects) && !HasRoot(name, objects) {
      var members := Beneath(objects, [name]);
      var rels := x.walk(members.Keys);
      assert Lists(rels, members.Keys);
      forall o
        ensures o in ReadList(x, name, rels, objects) <==> exists rel :: Parses(x, name, [name] + rel, objects, o) && rel != []
      {
        ReadListHolds(x, name, rels, objects, o);
      }
    } else if HasRoot(name, objects) {
      forall o
        ensures ParseObject(x, name, [name + ".toml"], objects) == Some(o) <==> Parses(x, name, [name + ".toml"], objects, o)
      {
        ParsesIff(x, name, [name + ".toml"], objects, o);
      }
    }
  }

  /* ---- Pages ---- */

  /** What a type of template is built with. */
  ghost predicate BuildsWith(kind: TemplateType, ext: string) {
    || (kind in {Default, Html} && ext == "html")
    || (kind in {Css, Csv} && ext == "css")
    || (kind.Json? && ext == "json")
    || (kind.Rss? && ext == "rss")
    || (kind.Unknown? && ext == kind.ext)
  }

  lemma ExtensionIff(kind: TemplateType, ext: string)
    ensures Extension(kind) == ext <==> BuildsWith(kind, ext)
  {
  }

  function WithLiquid(template: Path): Path {
    if template == [] then [".liquid"] else template[..|template| - 1] + [template[|template| - 1] + ".liquid"]
  }

  /** The page of an object by the template of its type, which is there and can be parsed. */
  ghost predicate ByTemplate(x: Externals, m: Manifest, def: Definition, entry: Entry, pages: map<Path, string>, page: Page) {
    && def.template.Some? && WithLiquid(def.template.value) in pages
    && x.lang.parse(pages[WithLiquid(def.template.value)]).Some?
    && page.of.Some? && page.of.value in EntryObjects(entry)
    && page.source == pages[WithLiquid(def.template.value)] && page.name == page.of.value.filename
    && var file := WithLiquid(def.template.value);
       var parsed := x.parsePageName(file[|file| - 1]);
       exists ext :: BuildsWith(if parsed.None? then Default else parsed.value.1, ext)
         && page.dest == m.buildDir + [page.of.value.objectName, page.of.value.filename + "." + ext]
  }

  /** The page of a file whose name parses, which is no partial and no type's template. */
  ghost predicate ByFile(x: Externals, m: Manifest, defs: seq<Definition>, pages: map<Path, string>, rel: Path, page: Page) {
    && rel in pages && rel != []
    && !x.isPartial(rel[|rel| - 1])
    && (forall d | d in defs :: d.template != Some(rel[..|rel| - 1] + [x.fileStem(rel[|rel| - 1])]))
    && page.of.None? && page.source == pages[rel]
    && exists kind, ext :: x.parsePageName(rel[|rel| - 1]) == Some((page.name, kind)) && BuildsWith(kind, ext)
         && page.dest == m.buildDir + rel[..|rel| - 1] + [page.name + "." + ext]
  }

  ghost predicate IsSitePage(x: Externals, m: Manifest, defs: seq<Definition>, entries: Entries, pages: map<Path, string>, page: Page)
    requires |defs| == |entries|
  {
    || (exists i :: 0 <= i < |defs| && ByTemplate(x, m, defs[i], entries[i].1, pages, page))
    || (exists rel :: ByFile(x, m, defs, pages, rel, page))
  }

  /** A template that is neither a file nor a dir, or that does not parse. */
  ghost predicate BadTemplate(x: Externals, def: Definition, pages: map<Path, string>) {
    && def.template.Some?
    && var file := WithLiquid(def.template.value);
       if file in pages then x.lang.parse(pages[file]).None? else forall p | p in pages :: !(file < p)
  }

  lemma NothingBeneath(pages: map<Path, string>, file: Path)
    ensures Beneath(pages, file) == map[] <==> forall p | p in pages :: !(file < p)
  {
    assert Beneath(pages, file).Keys == Relative(pages, file);
    if p :| p in pages && file < p {
      assert p == file + p[|file|..];
      assert p[|file|..] in Relative(pages, file);
    }
    if rel :| rel in Relative(pages, file) {
      assert file < file + rel;
    }
  }

  lemma ExtensionIs(kind: TemplateType)
    ensures BuildsWith(kind, Extension(kind)) && forall ext | BuildsWith(kind, ext) :: ext == Extension(kind)
  {
    ExtensionIff(kind, Extension(kind));
    forall ext | BuildsWith(kind, ext)
      ensures ext == Extension(kind)
    {
      ExtensionIff(kind, ext);
    }
  }

  lemma TemplatePagesIff(x: Externals, m: Manifest, def: Definition, entry: Entry, pages: map<Path, string>, page: Page)
    requires def.template.Some? && WithLiquid(def.template.value) in pages
    requires x.lang.parse(pages[WithLiquid(def.template.value)]).Some?
    ensures RenderJob(page) in TemplatePages(x, m, def.template.value, EntryObjects(entry), pages[WithLiquid(def.template.value)])
            <==> ByTemplate(x, m, def, entry, pages, page)
  {
    hide Extension, BuildsWith;
    var template, objects := def.template.value, EntryObjects(entry);
    var source := pages[WithLiquid(template)];
    var jobs := TemplatePages(x, m, template, objects, source);
    assert WithLiquid(template) == TemplateFile(template);
    ExtensionIs(TemplateKind(x, template));
    if ByTemplate(x, m, def, entry, pages, page) {
      var k :| 0 <= k < |objects| && objects[k] == page.of.value;
      assert jobs[k] == RenderJob(page);
    }
    if RenderJob(page) in jobs {
      var k :| 0 <= k < |jobs| && jobs[k] == RenderJob(page);
      assert objects[k] in objects;
    }
  }

  lemma JobsForIff(x: Externals, m: Manifest, def: Definition, entry: Entry, pages: map<Path, string>, page: Page)
    ensures RenderJob(page) in JobsFor(x, m, def, entry, pages) <==> ByTemplate(x, m, def, entry, pages, page)
    ensures Broken in JobsFor(x, m, def, entry, pages) <==> BadTemplate(x, def, pages)
  {
    hide TemplatePages, BuildsWith;
    if def.template.Some? {
      var file := WithLiquid(def.template.value);
      assert file == TemplateFile(def.template.value);
      NothingBeneath(pages, file);
      if file in pages && x.lang.parse(pages[file]).Some? {
        TemplatePagesIff(x, m, def, entry, pages, page);
        NoneBroken(x, m, def.template.value, EntryObjects(entry), pages[file]);
      }
    }
  }

  lemma NoneBroken(x: Externals, m: Manifest, template: Path, objects: seq<Object>, source: string)
    ensures Broken !in TemplatePages(x, m, template, objects, source)
  {
  }

  lemma {:induction false} TemplateJobsIff(x: Externals, m: Manifest, defs: seq<Definition>, entries: Entries, pages: map<Path, string>, page: Page)
    requires |defs| == |entries|
    ensures RenderJob(page) in TemplateJobs(x, m, defs, entries, pages) <==>
            exists i :: 0 <= i < |defs| && ByTemplate(x, m, defs[i], entries[i].1, pages, page)
    ensures Broken in TemplateJobs(x, m, defs, entries, pages) <==> exists i :: 0 <= i < |defs| && BadTemplate(x, defs[i], pages)
  {
    hide ByTemplate, BadTemplate, JobsFor;
    if defs != [] {
      var n := |defs| - 1;
      TemplateJobsIff(x, m, defs[..n], entries[..n], pages, page);
      JobsForIff(x, m, defs[n], entries[n].1, pages, page);
      assert forall i | 0 <= i < n :: defs[..n][i] == defs[i] && entries[..n][i] == entries[i];
    }
  }

  lemma FileJobIff(x: Externals, m: Manifest, defs: seq<Definition>, rel: Path, pages: map<Path, string>, page: Page)
    ensures ByFile(x, m, defs, pages, rel, page) <==>
            IsPage(x, defs, rel) && rel in pages && page == FilePage(x, m, rel, pages)
  {
    if rel != [] && x.parsePageName(rel[|rel| - 1]).Some? {
      var (name, kind) := x.parsePageName(rel[|rel| - 1]).value;
      ExtensionIff(kind, Extension(kind));
      forall ext | BuildsWith(kind, ext)
        ensures ext == Extension(kind)
      {
        ExtensionIff(kind, ext);
      }
    }
  }

  lemma {:induction false} FileJobsIff(x: Externals, m: Manifest, defs: seq<Definition>, rels: seq<Path>, pages: map<Path, string>, page: Page)
    ensures RenderJob(page) in FileJobs(x, m, defs, rels, pages) <==> exists rel :: rel in rels && ByFile(x, m, defs, pages, rel, page)
    ensures Broken !in FileJobs(x, m, defs, rels, pages)
  {
    hide ByFile, IsPage, FilePage;
    if rels != [] {
      var n := |rels| - 1;
      FileJobsIff(x, m, defs, rels[..n], pages, page);
      FileJobIff(x, m, defs, rels[n], pages, page);
      assert rels == rels[..n] + [rels[n]];
    }
  }

  lemma JobsIff(x: Externals, m: Manifest, defs: seq<Definition>, entries: Entries, pages: map<Path, string>, page: Page)
    requires |defs| == |entries|
    ensures RenderJob(page) in AllJobs(x, m, defs, entries, pages) <==> IsSitePage(x, m, defs, entries, pages, page)
    ensures Broken in AllJobs(x, m, defs, entries, pages) <==> exists i :: 0 <= i < |defs| && BadTemplate(x, defs[i], pages)
  {
    hide ByTemplate, ByFile, BadTemplate, TemplateJobs, FileJobs;
    TemplateJobsIff(x, m, defs, entries, pages, page);
    FileJobsIff(x, m, defs, x.walk(pages.Keys), pages, page);
    assert Lists(x.walk(pages.Keys), pages.Keys);
    forall rel | ByFile(x, m, defs, pages, rel, page)
      ensures rel in x.walk(pages.Keys)
    {
      FileJobIff(x, m, defs, rel, pages, page);
    }
  }

  /** A job that comes to nothing. */
  ghost predicate Fails(x: Externals, partials: map<string, string>, base: map<string, Value>, job: Job) {
    job.Broken? || RenderPage(x, partials, base, job.page).None?
  }

  ghost predicate BuiltBy(x: Externals, partials: map<string, string>, base: map<string, Value>, page: Page, p: Path, text: string) {
    page.dest == p && RenderPage(x, partials, base, page) == Some(text)
  }

  /** A page renders to its template's text over one map, in which the page's own layer covers what
      the pages share, post-processed; and not at all when the template does not parse or fails. */
  lemma PageTextIs(x: Externals, partials: map<string, string>, base: map<string, Value>, page: Page)
    requires TemplateMeanings.OrdinaryObjects(x.lang)
    ensures var template := x.lang.parse(page.source);
            RenderPage(x, partials, base, page) ==
              if template.None? then None
              else
                match TemplateMeanings.Text(x.lang, partials, template.value, base + Overlay(page), map[], x.includeDepth)
                case Some(text) => Some(x.postProcess(text))
                case None => None
  {
    hide Overlay, Render, TemplateMeanings.Text, TemplateMeanings.OrdinaryObjects;
    var template := x.lang.parse(page.source);
    if template.Some? {
      TemplateMeanings.RendersAsOneMap(x.lang, partials, template.value, Layers(Overlay(page), base), map[], x.includeDepth);
    }
  }

  lemma {:induction false} RenderAllFailsIff(x: Externals, partials: map<string, string>, base: map<string, Value>, jobs: seq<Job>, skip: bool)
    ensures RenderAll(x, partials, base, jobs, skip).None? <==> !skip && exists job :: job in jobs && Fails(x, partials, base, job)
  {
    hide *;
    RenderFailsStep(x, partials, base, jobs, skip);
    if jobs != [] {
      var init, last := jobs[..|jobs| - 1], jobs[|jobs| - 1];
      RenderAllFailsIff(x, partials, base, init, skip);
      assert last in jobs && forall job | job in init :: job in jobs;
      assert forall job | job in jobs :: job in init || job == last by {
        assert jobs == init + [last];
      }
    }
  }

  lemma RenderFailsStep(x: Externals, partials: map<string, string>, base: map<string, Value>, jobs: seq<Job>, skip: bool)
    ensures RenderAll(x, partials, base, jobs, skip).None? <==>
            jobs != [] && (RenderAll(x, partials, base, jobs[..|jobs| - 1], skip).None?
                           || (!skip && Fails(x, partials, base, jobs[|jobs| - 1])))
  {
    hide RenderPage;
  }

  lemma RenderStep(x: Externals, partials: map<string, string>, base: map<string, Value>, jobs: seq<Job>, skip: bool, p: Path)
    requires jobs != [] && RenderAll(x, partials, base, jobs, skip).Some?
    ensures var init, last := jobs[..|jobs| - 1], jobs[|jobs| - 1];
            && RenderAll(x, partials, base, init, skip).Some?
            && var before, built := RenderAll(x, partials, base, init, skip).value, RenderAll(x, partials, base, jobs, skip).value;
               && (p in built ==> (p in before && before[p] == built[p])
                                  || (last.RenderJob? && BuiltBy(x, partials, base, last.page, p, built[p])))
               && (p in before ==> p in built)
               && (forall text | last.RenderJob? && BuiltBy(x, partials, base, last.page, p, text) :: p in built)
  {
    hide RenderPage;
  }

  lemma {:induction false} RenderAllIff(x: Externals, partials: map<string, string>, base: map<string, Value>, jobs: seq<Job>, skip: bool, p: Path)
    requires RenderAll(x, partials, base, jobs, skip).Some?
    ensures var built := RenderAll(x, partials, base, jobs, skip).value;
            && (p in built ==> exists page :: RenderJob(page) in jobs && BuiltBy(x, partials, base, page, p, built[p]))
            && (forall page, text | RenderJob(page) in jobs && BuiltBy(x, partials, base, page, p, text) :: p in built)
  {
    if jobs != [] {
      var init, last := jobs[..|jobs| - 1], jobs[|jobs| - 1];
      var built := RenderAll(x, partials, base, jobs, skip).value;
      RenderStep(x, partials, base, jobs, skip, p);
      hide RenderAll, BuiltBy, RenderPage;
      RenderAllIff(x, partials, base, init, skip, p);
      assert last in jobs && forall job | job in init :: job in jobs;
      assert forall job | job in jobs :: job in init || job == last by {
        assert jobs == init + [last];
      }
      if p in built && last.RenderJob? && BuiltBy(x, partials, base, last.page, p, built[p]) {
        assert RenderJob(last.page) in jobs;
      }
    }
  }

  /** The path and contents of a file that is built by default, where no page is built to it. */
  ghost predicate ByDefault(x: Externals, m: Manifest, rendered: set<Path>, p: Path, text: string) {
    && m.sitemap && m.siteUrl != "" && p !in rendered
    && ((p == m.buildDir + ["sitemap.xml"] && text == x.urlset(m.siteUrl, rendered))
        || (p == m.buildDir + ["robots.txt"] && text == x.robots(m.siteUrl)))
  }

  lemma SitemapIff(x: Externals, m: Manifest, pages: map<Path, string>, p: Path, text: string)
    ensures p in WithSitemap(x, m, pages) && WithSitemap(x, m, pages)[p] == text <==>
            (p in pages && pages[p] == text) || ByDefault(x, m, pages.Keys, p, text)
  {
    assert m.buildDir + ["sitemap.xml"] != m.buildDir + ["robots.txt"] by {
      assert (m.buildDir + ["sitemap.xml"])[|m.buildDir|] == "sitemap.xml";
      assert (m.buildDir + ["robots.txt"])[|m.buildDir|] == "robots.txt";
      assert |"sitemap.xml"| == 11 && |"robots.txt"| == 10;
    }
  }

  /** The paths the pages of a site are built to. */
  ghost predicate IsRendered(x: Externals, m: Manifest, defs: seq<Definition>, src: Sources, p: Path, text: string) {
    var entries := ReadEntries(x, defs, src.objects);
    && entries.Some?
    && var base := BaseContext(x.pluralize, entries.value, m.siteUrl);
       exists page :: IsSitePage(x, m, defs, entries.value, src.pages, page) && BuiltBy(x, x.partials(src.layout, src.pages), base, page, p, text)
  }

  /** A build of the pages fails without objects or pages, when objects cannot be read, or, unless
      failures are skipped, when a template is bad or a page fails to render. */
  ghost predicate PagesFail(x: Externals, m: Manifest, defs: seq<Definition>, src: Sources, skip: bool) {
    var entries := ReadEntries(x, defs, src.objects);
    || src.objects == map[] || src.pages == map[] || entries.None?
    || (!skip
        && var base := BaseContext(x.pluralize, entries.value, m.siteUrl);
           || (exists i :: 0 <= i < |defs| && BadTemplate(x, defs[i], src.pages))
           || (exists page :: IsSitePage(x, m, defs, entries.value, src.pages, page)
                 && RenderPage(x, x.partials(src.layout, src.pages), base, page).None?))
  }

  lemma PageOutputsFailIff(x: Externals, m: Manifest, defs: seq<Definition>, src: Sources, skip: bool)
    ensures PageOutputs(x, m, defs, src, skip).None? <==> PagesFail(x, m, defs, src, skip)
  {
    hide AllJobs, RenderAll, RenderPage, ReadEntries, BadTemplate, IsSitePage, BaseContext, WithSitemap;
    var read := ReadEntries(x, defs, src.objects);
    if src.objects != map[] && src.pages != map[] && read.Some? {
      var entries := read.value;
      var jobs := AllJobs(x, m, defs, entries, src.pages);
      var partials, base := x.partials(src.layout, src.pages), BaseContext(x.pluralize, entries, m.siteUrl);
      RenderAllFailsIff(x, partials, base, jobs, skip);
      AllJobsIff(x, m, defs, entries, src.pages);
      if job :| job in jobs && Fails(x, partials, base, job) {
        assert job.RenderJob? ==> IsSitePage(x, m, defs, entries, src.pages, job.page);
      }
      if page :| IsSitePage(x, m, defs, entries, src.pages, page) && RenderPage(x, partials, base, page).None? {
        assert RenderJob(page) in jobs && Fails(x, partials, base, RenderJob(page));
      }
      if exists i :: 0 <= i < |defs| && BadTemplate(x, defs[i], src.pages) {
        assert Broken in jobs && Fails(x, partials, base, Broken);
      }
    }
  }

  lemma AllJobsIff(x: Externals, m: Manifest, defs: seq<Definition>, entries: Entries, pages: map<Path, string>)
    requires |defs| == |entries|
    ensures forall page :: RenderJob(page) in AllJobs(x, m, defs, entries, pages) <==> IsSitePage(x, m, defs, entries, pages, page)
    ensures Broken in AllJobs(x, m, defs, entries, pages) <==> exists i :: 0 <= i < |defs| && BadTemplate(x, defs[i], pages)
  {
    hide AllJobs, IsSitePage, BadTemplate;
    forall page
      ensures RenderJob(page) in AllJobs(x, m, defs, entries, pages) <==> IsSitePage(x, m, defs, entries, pages, page)
      ensures Broken in AllJobs(x, m, defs, entries, pages) <==> exists i :: 0 <= i < |defs| && BadTemplate(x, defs[i], pages)
    {
      JobsIff(x, m, defs, entries, pages, page);
    }
    var any := Page([], "", None, "");
    JobsIff(x, m, defs, entries, pages, any);
  }

  /** What a build of the pages writes, and nothing else: the rendering of an object's page or of a
      file's at the path it is built to, and the default files where none is.  `rendered` are the
      paths of the former. */
  lemma PageOutputsAre(x: Externals, m: Manifest, defs: seq<Definition>, src: Sources, skip: bool) returns (rendered: set<Path>)
    requires PageOutputs(x, m, defs, src, skip).Some?
    ensures forall p :: p in rendered <==> exists text :: IsRendered(x, m, defs, src, p, text)
    ensures var out := PageOutputs(x, m, defs, src, skip).value;
            && (forall p :: p in out <==> p in rendered || exists text :: ByDefault(x, m, rendered, p, text))
            && (forall p | p in out :: if p in rendered then IsRendered(x, m, defs, src, p, out[p]) else ByDefault(x, m, rendered, p, out[p]))
  {
    hide AllJobs, RenderAll, RenderPage, ReadEntries, IsSitePage, BaseContext, WithSitemap, ByDefault;
    var entries := ReadEntries(x, defs, src.objects).value;
    var jobs := AllJobs(x, m, defs, entries, src.pages);
    var partials, base := x.partials(src.layout, src.pages), BaseContext(x.pluralize, entries, m.siteUrl);
    AllJobsIff(x, m, defs, entries, src.pages);
    var pages := RenderAll(x, partials, base, jobs, skip).value;
    forall p
      ensures p in pages ==> exists page :: RenderJob(page) in jobs && BuiltBy(x, partials, base, page, p, pages[p])
      ensures forall page, text | RenderJob(page) in jobs && BuiltBy(x, partials, base, page, p, text) :: p in pages
    {
      RenderAllIff(x, partials, base, jobs, skip, p);
    }
    var out := PageOutputs(x, m, defs, src, skip).value;
    rendered := pages.Keys;
    forall p, text
      ensures IsRendered(x, m, defs, src, p, text) <==>
              exists page :: RenderJob(page) in jobs && BuiltBy(x, partials, base, page, p, text)
    {
    }
    forall p
      ensures p in rendered <==> exists text :: IsRendered(x, m, defs, src, p, text)
    {
      if p in rendered {
        assert IsRendered(x, m, defs, src, p, pages[p]);
      }
    }
    forall p
      ensures p in out <==> p in rendered || exists text :: ByDefault(x, m, rendered, p, text)
      ensures p in out ==> if p in rendered then IsRendered(x, m, defs, src, p, out[p]) else ByDefault(x, m, rendered, p, out[p])
    {
      DefaultOrPage(x, m, pages, p);
    }
  }

  lemma DefaultOrPage(x: Externals, m: Manifest, pages: map<Path, string>, p: Path)
    ensures var out := WithSitemap(x, m, pages);
            && (p in out <==> p in pages || exists text :: ByDefault(x, m, pages.Keys, p, text))
            && (p in out ==> if p in pages then out[p] == pages[p] else ByDefault(x, m, pages.Keys, p, out[p]))
  {
    var out := WithSitemap(x, m, pages);
    if p in out {
      SitemapIff(x, m, pages, p, out[p]);
    }
    if p in pages {
      SitemapIff(x, m, pages, p, pages[p]);
    } else if text :| ByDefault(x, m, pages.Keys, p, text) {
      SitemapIff(x, m, pages, p, text);
    }
  }

  /** Where destinations are distinct there is one rendering for each path. */
  lemma RenderedOnce(x: Externals, m: Manifest, defs: seq<Definition>, src: Sources, p: Path, text: string, text': string)
    requires RegularPages(x, m, defs, src) && IsRendered(x, m, defs, src, p, text) && IsRendered(x, m, defs, src, p, text')
    ensures text == text'
  {
    hide AllJobs, RenderPage, ReadEntries, IsSitePage, BaseContext, DistinctNames, NoSiteUrlType;
    var entries := ReadEntries(x, defs, src.objects).value;
    var jobs := AllJobs(x, m, defs, entries, src.pages);
    var partials, base := x.partials(src.layout, src.pages), BaseContext(x.pluralize, entries, m.siteUrl);
    AllJobsIff(x, m, defs, entries, src.pages);
    var page :| IsSitePage(x, m, defs, entries, src.pages, page) && BuiltBy(x, partials, base, page, p, text);
    var page' :| IsSitePage(x, m, defs, entries, src.pages, page') && BuiltBy(x, partials, base, page', p, text');
    var i :| 0 <= i < |jobs| && jobs[i] == RenderJob(page);
    var j :| 0 <= j < |jobs| && jobs[j] == RenderJob(page');
    SameJob(jobs, i, j);
  }

  lemma SameJob(jobs: seq<Job>, i: nat, j: nat)
    requires DistinctDests(jobs) && i < |jobs| && j < |jobs| && jobs[i].RenderJob? && jobs[j].RenderJob?
    requires jobs[i].page.dest == jobs[j].page.dest
    ensures i == j
  {
  }

  /** A page renders over its own layer: its name, and its object under the object's type with the
      path and order every object has, and the name of its type. */
  lemma OverlayHolds(page: Page)
    ensures page.of.None? ==> Overlay(page) == map["page" := Scalar(page.name)]
    ensures page.of.Some? ==>
              var o := page.of.value;
              && Overlay(page).Keys == {"page", o.objectName}
              && (o.objectName != "page" ==> Overlay(page)["page"] == Scalar(page.name))
              && Overlay(page)[o.objectName].Obj?
              && var fields := Overlay(page)[o.objectName].fields;
                 && fields.Keys == o.values.Keys + {"object_name", "order", "path"}
                 && fields["path"] == Scalar(o.objectName + "/" + o.filename) && fields["order"] == o.order
                 && fields["object_name"] == Scalar(o.objectName)
                 && forall key | key in o.values && key !in {"object_name", "order", "path"} :: fields[key] == o.values[key]
  {
  }

  /* ---- Static files and scripts ---- */

  ghost predicate ByStatic(m: Manifest, src: Sources, p: Path, text: string) {
    exists rel :: rel in src.statics && p == m.buildDir + rel && text == src.statics[rel]
  }

  /** JavaScript is copied, TypeScript compiled. */
  ghost predicate ByScript(x: Externals, m: Manifest, src: Sources, rel: Path, p: Path, text: string) {
    && rel in src.scripts && x.scriptOutput(rel).Some?
    && p == m.buildDir + m.scriptsBuildDir + x.scriptOutput(rel).value.0
    && match x.scriptOutput(rel).value.1
       case JavaScript => text == src.scripts[rel]
       case TypeScript => x.compile(src.scripts[rel]) == Some(text)
  }

  ghost predicate LandsOnStatic(x: Externals, m: Manifest, src: Sources, rel: Path) {
    x.scriptOutput(rel).Some?
    && exists text :: ByStatic(m, src, m.buildDir + m.scriptsBuildDir + x.scriptOutput(rel).value.0, text)
  }

  lemma StaticIff(m: Manifest, src: Sources, p: Path, text: string)
    ensures p in StaticFiles(m, src.statics) && StaticFiles(m, src.statics)[p] == text <==> ByStatic(m, src, p, text)
  {
    if rel :| rel in src.statics && p == m.buildDir + rel && text == src.statics[rel] {
      assert p[|m.buildDir|..] == rel;
    }
    if p in StaticFiles(m, src.statics) {
      var rel :| rel in src.statics && p == m.buildDir + rel;
      assert p[|m.buildDir|..] == rel;
    }
  }

  /** Where a script builds to, if anywhere, is a static file's place. */
  ghost predicate Collides(x: Externals, m: Manifest, rel: Path, statics: map<Path, string>) {
    x.scriptOutput(rel).Some? && m.buildDir + m.scriptsBuildDir + x.scriptOutput(rel).value.0 in statics
  }

  lemma {:induction false} ScriptFilesFailIff(x: Externals, m: Manifest, rels: seq<Path>, scripts: map<Path, string>, statics: map<Path, string>)
    ensures ScriptFiles(x, m, rels, scripts, statics).None? <==> exists rel :: rel in rels && Collides(x, m, rel, statics)
  {
    if rels != [] {
      var init, last := rels[..|rels| - 1], rels[|rels| - 1];
      ScriptFilesFailIff(x, m, init, scripts, statics);
      assert last in rels && forall rel | rel in init :: rel in rels;
      assert forall rel | rel in rels :: rel in init || rel == last by {
        assert rels == init + [last];
      }
    }
  }

  lemma ScriptStep(x: Externals, m: Manifest, rels: seq<Path>, src: Sources, statics: map<Path, string>, p: Path, text: string)
    requires rels != [] && rels[|rels| - 1] in src.scripts && ScriptFiles(x, m, rels, src.scripts, statics).Some?
    ensures var init, last := rels[..|rels| - 1], rels[|rels| - 1];
            && ScriptFiles(x, m, init, src.scripts, statics).Some?
            && var before, out := ScriptFiles(x, m, init, src.scripts, statics).value, ScriptFiles(x, m, rels, src.scripts, statics).value;
               && (p in out && out[p] == text ==> (p in before && before[p] == text) || ByScript(x, m, src, last, p, text))
               && (p in before || ByScript(x, m, src, last, p, text) ==> p in out)
  {
  }

  lemma {:induction false} ScriptFilesAre(x: Externals, m: Manifest, rels: seq<Path>, src: Sources, statics: map<Path, string>, p: Path)
    requires (forall rel | rel in rels :: rel in src.scripts) && ScriptFiles(x, m, rels, src.scripts, statics).Some?
    ensures var out := ScriptFiles(x, m, rels, src.scripts, statics).value;
            && (p in out ==> exists rel :: rel in rels && ByScript(x, m, src, rel, p, out[p]))
            && (forall rel, text | rel in rels && ByScript(x, m, src, rel, p, text) :: p in out)
  {
    if rels != [] {
      var init, last := rels[..|rels| - 1], rels[|rels| - 1];
      var out := ScriptFiles(x, m, rels, src.scripts, statics).value;
      ScriptStep(x, m, rels, src, statics, p, if p in out then out[p] else "");
      hide ScriptFiles, ByScript;
      assert last in rels && forall rel | rel in init :: rel in rels;
      ScriptFilesAre(x, m, init, src, statics, p);
      forall rel, text | rel in rels && ByScript(x, m, src, rel, p, text)
        ensures p in out
      {
        assert rel in init || rel == last by {
          assert rels == init + [last];
        }
        if rel == last {
          ScriptStep(x, m, rels, src, statics, p, text);
        }
      }
    }
  }

  lemma StaticOutputsFailIff(x: Externals, m: Manifest, src: Sources)
    ensures StaticOutputs(x, m, src).None? <==> exists rel :: rel in src.scripts && LandsOnStatic(x, m, src, rel)
  {
    hide ByStatic, StaticFiles, ScriptFiles;
    var statics, rels := StaticFiles(m, src.statics), x.walk(src.scripts.Keys);
    assert Lists(rels, src.scripts.Keys);
    ScriptFilesFailIff(x, m, rels, src.scripts, statics);
    forall rel | rel in src.scripts
      ensures Collides(x, m, rel, statics) <==> LandsOnStatic(x, m, src, rel)
    {
      if x.scriptOutput(rel).Some? {
        var p := m.buildDir + m.scriptsBuildDir + x.scriptOutput(rel).value.0;
        if p in statics {
          StaticIff(m, src, p, statics[p]);
        }
        if text :| ByStatic(m, src, p, text) {
          StaticIff(m, src, p, text);
        }
      }
    }
  }

  lemma ScriptsHold(x: Externals, m: Manifest, src: Sources, statics: map<Path, string>, p: Path)
    requires ScriptFiles(x, m, x.walk(src.scripts.Keys), src.scripts, statics).Some?
    ensures var out := ScriptFiles(x, m, x.walk(src.scripts.Keys), src.scripts, statics).value;
            && (p in out ==> exists rel :: ByScript(x, m, src, rel, p, out[p]))
            && (forall rel, text | ByScript(x, m, src, rel, p, text) :: p in out)
  {
    hide ScriptFiles;
    var rels := x.walk(src.scripts.Keys);
    assert Lists(rels, src.scripts.Keys);
    ScriptFilesAre(x, m, rels, src, statics, p);
    forall rel, text | ByScript(x, m, src, rel, p, text)
      ensures rel in rels
    {
      assert rel in src.scripts;
    }
  }

  /** What a static sync writes, and nothing else: the static files, and the scripts, none of which
      may land on a static file. */
  lemma StaticOutputsAre(x: Externals, m: Manifest, src: Sources, p: Path)
    requires StaticOutputs(x, m, src).Some?
    ensures var out := StaticOutputs(x, m, src).value;
            && (p in out ==> ByStatic(m, src, p, out[p]) || exists rel :: ByScript(x, m, src, rel, p, out[p]))
            && (forall text | ByStatic(m, src, p, text) :: p in out)
            && (forall rel, text | ByScript(x, m, src, rel, p, text) :: p in out)
  {
    hide ByScript, ByStatic, StaticFiles, ScriptFiles;
    var statics := StaticFiles(m, src.statics);
    ScriptsHold(x, m, src, statics, p);
    if p in statics {
      StaticIff(m, src, p, statics[p]);
    }
    forall text | ByStatic(m, src, p, text)
      ensures p in statics
    {
      StaticIff(m, src, p, text);
    }
  }

  /** No static file lands where a script does, so each keeps its contents. */
  lemma StaticsStay(x: Externals, m: Manifest, src: Sources, p: Path, text: string)
    requires StaticOutputs(x, m, src).Some? && ByStatic(m, src, p, text)
    ensures p in StaticOutputs(x, m, src).value && StaticOutputs(x, m, src).value[p] == text
  {
    hide ByStatic, StaticFiles, ScriptFiles;
    var statics := StaticFiles(m, src.statics);
    StaticIff(m, src, p, text);
    ScriptsHold(x, m, src, statics, p);
    StaticOutputsFailIff(x, m, src);
  }
}
