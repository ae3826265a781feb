/** What a build of a site's sources produces, as functions of those sources.

    These are the outputs a from-scratch build writes.  Nothing here looks at a cache. */
module Builds {
  import opened Wrappers
  import opened Templates
  import opened Context
  import opened WritePlans

  /* ---- Third-party behaviour, as parameters ---- */

  ghost predicate Lists(order: seq<Path>, s: set<Path>) {
    && (forall p :: p in order <==> p in s)
    && (forall i, j | 0 <= i < j < |order| :: order[i] != order[j])
  }

  ghost function AnyOrder(s: set<Path>): (order: seq<Path>)
    ensures Lists(order, s)
    decreases |s|
  {
    if s == {} then []
    else
      var p :| p in s;
      assert s == (s - {p}) + {p};
      AnyOrder(s - {p}) + [p]
  }

  /** The order a filesystem lists files in: any order, as long as it depends only on
      which files there are. */
  type Walk = f: set<Path> -> seq<Path> | forall s :: Lists(f(s), s)
    ghost witness AnyOrder

  type DotFree = w: string | '.' !in w witness "html"

  datatype TemplateType = Default | Html | Css | Csv | Json | Rss | Unknown(ext: DotFree)

  /** The extension a template type is built with.  A `.csv` template builds to `.css`. */
  function Extension(t: TemplateType): (e: string)
    ensures '.' !in e
  {
    match t
    case Default => "html"
    case Html => "html"
    case Css => "css"
    case Csv => "css"
    case Json => "json"
    case Rss => "rss"
    case Unknown(e) => e
  }

  datatype ScriptKind = TypeScript | JavaScript

  datatype Externals = Externals(
    walk: Walk,
    lang: Language,
    pluralize: Pluralize,
    less: (Object, Object) -> bool,
    extension: string -> Option<string>,
    fileStem: string -> string,
    parseObject: (string, string) -> Option<(Value, map<string, Value>)>,
    parsePageName: string -> Option<(string, TemplateType)>,
    isPartial: string -> bool,
    partials: (map<Path, string>, map<Path, string>) -> map<string, string>,
    postProcess: string -> string,
    scriptOutput: Path -> Option<(Path, ScriptKind)>,
    compile: string -> Option<string>,
    urlset: (string, set<Path>) -> string,
    robots: string -> string,
    includeDepth: nat)

  /* ---- Sources ---- */

  datatype Manifest = Manifest(
    objectsDir: Path, pagesDir: Path, layoutDir: Path, staticDir: Path, scriptsDir: Option<Path>,
    buildDir: Path, scriptsBuildDir: Path, siteUrl: string, sitemap: bool)

  datatype Definition = Definition(name: string, template: Option<Path>)

  datatype Sources = Sources(objects: map<Path, string>, pages: map<Path, string>, layout: map<Path, string>,
                             statics: map<Path, string>, scripts: map<Path, string>)

  /** The paths of the files strictly beneath a directory, relative to it. */
  function Relative(files: map<Path, string>, dir: Path): (rels: set<Path>)
    ensures forall rel :: rel in rels <==> rel != [] && dir + rel in files
  {
    var rels := set p | p in files && dir < p :: p[|dir|..];
    assert forall rel | rel in rels :: rel != [] && dir + rel in files by {
      forall rel | rel in rels
        ensures rel != [] && dir + rel in files
      {
        var p :| p in files && dir < p && p[|dir|..] == rel;
        assert p == dir + rel;
      }
    }
    assert forall rel: Path | rel != [] && dir + rel in files :: rel in rels by {
      forall rel: Path | rel != [] && dir + rel in files
        ensures rel in rels
      {
        assert dir < dir + rel && (dir + rel)[|dir|..] == rel;
      }
    }
    rels
  }

  function Beneath(files: map<Path, string>, dir: Path): map<Path, string> {
    map rel | rel in Relative(files, dir) :: files[dir + rel]
  }

  function SourcesOf(m: Manifest, files: map<Path, string>): Sources {
    Sources(Beneath(files, m.objectsDir), Beneath(files, m.pagesDir), Beneath(files, m.layoutDir),
            Beneath(files, m.staticDir), if m.scriptsDir.Some? then Beneath(files, m.scriptsDir.value) else map[])
  }

  function Last(p: Path): string
    requires p != []
  {
    p[|p| - 1]
  }

  function Parent(p: Path): Path
    requires p != []
  {
    p[..|p| - 1]
  }

  /* ---- Objects ---- */

  function ParseObject(x: Externals, name: string, rel: Path, objects: map<Path, string>): Option<Object> {
    if rel == [] || x.extension(Last(rel)) != Some("toml") || rel !in objects then None
    else
      var parsed := x.parseObject(name, objects[rel]);
      if parsed.None? then None
      else Some(Object.Object(x.fileStem(Last(rel)), name, parsed.value.0, parsed.value.1))
  }

  /** Inserts after everything `o` does not precede, as a stable sort does. */
  function InsertSorted(x: Externals, sorted: seq<Object>, o: Object): (r: seq<Object>)
    ensures forall e :: e in r <==> e in sorted || e == o
  {
    if sorted == [] then [o]
    else
      var n := |sorted| - 1;
      if x.less(o, sorted[n]) then InsertSorted(x, sorted[..n], o) + [sorted[n]] else sorted + [o]
  }

  /** The objects of one type, invalid files left out, in their `order`. */
  function ReadList(x: Externals, name: string, rels: seq<Path>, objects: map<Path, string>): (r: seq<Object>)
    ensures forall o | o in r :: o.objectName == name
  {
    if rels == [] then []
    else
      var n := |rels| - 1;
      var init := ReadList(x, name, rels[..n], objects);
      match ParseObject(x, name, [name] + rels[n], objects)
      case None => init
      case Some(o) => InsertSorted(x, init, o)
  }

  function RootFile(name: string): Path {
    [name + ".toml"]
  }

  function Exists(files: map<Path, string>, rel: Path): bool {
    rel in files || Beneath(files, rel) != map[]
  }

  ghost predicate OwnObjects(entry: Entry, name: string) {
    forall o | o in EntryObjects(entry) :: o.objectName == name
  }

  ghost predicate EntriesFor(entries: Entries, defs: seq<Definition>) {
    && |entries| == |defs|
    && forall i | 0 <= i < |defs| :: entries[i].0 == defs[i].name && OwnObjects(entries[i].1, defs[i].name)
  }

  /** A type is a list or a single root object.  None is an error: it is both, or its root
      object does not parse. */
  function ReadEntry(x: Externals, name: string, objects: map<Path, string>): (r: Option<Entry>)
    ensures r.Some? ==> OwnObjects(r.value, name)
  {
    var members := Beneath(objects, [name]);
    if members != map[] then
      if Exists(objects, RootFile(name)) then None
      else Some(List(ReadList(x, name, x.walk(members.Keys), objects)))
    else if Exists(objects, RootFile(name)) then
      var o := ParseObject(x, name, RootFile(name), objects);
      if o.None? then None else Some(Root(o.value))
    else Some(List([]))
  }

  function ReadEntries(x: Externals, defs: seq<Definition>, objects: map<Path, string>): (r: Option<Entries>)
    ensures r.Some? ==> |r.value| == |defs|
  {
    if defs == [] then Some([])
    else
      var n := |defs| - 1;
      var init := ReadEntries(x, defs[..n], objects);
      if init.None? then None
      else
        var entry := ReadEntry(x, defs[n].name, objects);
        if entry.None? then None else Some(init.value + [(defs[n].name, entry.value)])
  }

  lemma OneMoreEntry(init: Entries, entry: Entry, defs: seq<Definition>)
    requires defs != [] && EntriesFor(init, defs[..|defs| - 1]) && OwnObjects(entry, defs[|defs| - 1].name)
    ensures EntriesFor(init + [(defs[|defs| - 1].name, entry)], defs)
  {
    assert forall i | 0 <= i < |defs| - 1 :: defs[..|defs| - 1][i] == defs[i];
  }

  lemma {:induction false} ReadEntriesAreFor(x: Externals, defs: seq<Definition>, objects: map<Path, string>)
    requires ReadEntries(x, defs, objects).Some?
    ensures EntriesFor(ReadEntries(x, defs, objects).value, defs)
  {
    if defs != [] {
      var n := |defs| - 1;
      var entry := ReadEntry(x, defs[n].name, objects);
      ReadEntriesAreFor(x, defs[..n], objects);
      OneMoreEntry(ReadEntries(x, defs[..n], objects).value, entry.value, defs);
    }
  }

  /* ---- Pages ---- */

  datatype Page = Page(dest: Path, name: string, of: Option<Object>, source: string)

  /** A page to render, or something that fails before any page is reached. */
  datatype Job = RenderJob(page: Page) | Broken

  function TemplateFile(template: Path): Path {
    if template == [] then [".liquid"] else Parent(template) + [Last(template) + ".liquid"]
  }

  function TemplateKind(x: Externals, template: Path): TemplateType {
    var parsed := x.parsePageName(Last(TemplateFile(template)));
    if parsed.None? then Default else parsed.value.1
  }

  function TemplatePage(m: Manifest, ext: string, o: Object, source: string): Page {
    Page(m.buildDir + [o.objectName, o.filename + "." + ext], o.filename, Some(o), source)
  }

  function TemplatePages(x: Externals, m: Manifest, template: Path, objects: seq<Object>, source: string): seq<Job> {
    var ext := Extension(TemplateKind(x, template));
    seq(|objects|, i requires 0 <= i < |objects| => RenderJob(TemplatePage(m, ext, objects[i], source)))
  }

  function JobsFor(x: Externals, m: Manifest, def: Definition, entry: Entry, pages: map<Path, string>): seq<Job> {
    if def.template.None? then []
    else
      var file := TemplateFile(def.template.value);
      if !Exists(pages, file) then [Broken]
      else if file !in pages then []
      else if x.lang.parse(pages[file]).None? then [Broken]
      else TemplatePages(x, m, def.template.value, EntryObjects(entry), pages[file])
  }

  function TemplateJobs(x: Externals, m: Manifest, defs: seq<Definition>, entries: Entries, pages: map<Path, string>):
      seq<Job>
    requires |defs| == |entries|
  {
    if defs == [] then []
    else
      var n := |defs| - 1;
      TemplateJobs(x, m, defs[..n], entries[..n], pages) + JobsFor(x, m, defs[n], entries[n].1, pages)
  }

  /** A file in the pages dir is a page unless it is a template or a partial. */
  predicate IsPage(x: Externals, defs: seq<Definition>, rel: Path) {
    && rel != []
    && x.parsePageName(Last(rel)).Some?
    && !(exists d :: d in defs && d.template == Some(Parent(rel) + [x.fileStem(Last(rel))]))
    && !x.isPartial(Last(rel))
  }

  function FilePage(x: Externals, m: Manifest, rel: Path, pages: map<Path, string>): Page
    requires rel != [] && x.parsePageName(Last(rel)).Some? && rel in pages
  {
    var (name, kind) := x.parsePageName(Last(rel)).value;
    Page(m.buildDir + Parent(rel) + [name + "." + Extension(kind)], name, None, pages[rel])
  }

  function FileJobs(x: Externals, m: Manifest, defs: seq<Definition>, rels: seq<Path>, pages: map<Path, string>):
      seq<Job>
  {
    if rels == [] then []
    else
      var n := |rels| - 1;
      var init := FileJobs(x, m, defs, rels[..n], pages);
      if IsPage(x, defs, rels[n]) && rels[n] in pages then init + [RenderJob(FilePage(x, m, rels[n], pages))] else init
  }

  function AllJobs(x: Externals, m: Manifest, defs: seq<Definition>, entries: Entries, pages: map<Path, string>):
      seq<Job>
    requires |defs| == |entries|
  {
    TemplateJobs(x, m, defs, entries, pages) + FileJobs(x, m, defs, x.walk(pages.Keys), pages)
  }

  /** A page's own layer: its name, and its object under its type. */
  function Overlay(page: Page): map<string, Value> {
    var own := map["page" := Scalar(page.name)];
    match page.of
    case None => own
    case Some(o) =>
      own[o.objectName := Obj(LiquidObject(o).fields["object_name" := Scalar(o.objectName)]["order" := o.order]["path" := UrlPath(o)])]
  }

  function RenderOutcome(x: Externals, partials: map<string, string>, base: map<string, Value>, page: Page): Outcome {
    var parsed := x.lang.parse(page.source);
    if parsed.None? then Failed({})
    else Render(x.lang, partials, parsed.value, Layers(Overlay(page), base), map[], x.includeDepth)
  }

  function RenderPage(x: Externals, partials: map<string, string>, base: map<string, Value>, page: Page): Option<string> {
    match RenderOutcome(x, partials, base, page)
    case Rendered(text, _) => Some(x.postProcess(text))
    case Failed(_) => None
  }

  /** Every page a list of jobs renders.  None when one fails and failures are not skipped. */
  function RenderAll(x: Externals, partials: map<string, string>, base: map<string, Value>, jobs: seq<Job>, skip: bool):
      Option<map<Path, string>>
  {
    if jobs == [] then Some(map[])
    else
      var n := |jobs| - 1;
      var init := RenderAll(x, partials, base, jobs[..n], skip);
      if init.None? then None
      else
        var text := if jobs[n].Broken? then None else RenderPage(x, partials, base, jobs[n].page);
        if text.None? then if skip then init else None
        else Some(init.value[jobs[n].page.dest := text.value])
  }

  /** The default sitemap and robots files go where no page is built to the same path. */
  function WithSitemap(x: Externals, m: Manifest, pages: map<Path, string>): map<Path, string> {
    if !m.sitemap || m.siteUrl == "" then pages
    else
      var sitemap := m.buildDir + ["sitemap.xml"];
      var robots := m.buildDir + ["robots.txt"];
      var one := if sitemap in pages then pages else pages[sitemap := x.urlset(m.siteUrl, pages.Keys)];
      if robots in pages then one else one[robots := x.robots(m.siteUrl)]
  }

  function PageJobs(x: Externals, m: Manifest, defs: seq<Definition>, src: Sources): Option<seq<Job>> {
    if src.objects == map[] || src.pages == map[] then None
    else
      var entries := ReadEntries(x, defs, src.objects);
      if entries.None? then None else Some(AllJobs(x, m, defs, entries.value, src.pages))
  }

  /** Every file the pages of a site build to, or None when the build fails. */
  function PageOutputs(x: Externals, m: Manifest, defs: seq<Definition>, src: Sources, skip: bool):
      Option<map<Path, string>>
  {
    var jobs := PageJobs(x, m, defs, src);
    if jobs.None? then None
    else
      var entries := ReadEntries(x, defs, src.objects).value;
      var pages := RenderAll(x, x.partials(src.layout, src.pages), BaseContext(x.pluralize, entries, m.siteUrl), jobs.value, skip);
      if pages.None? then None else Some(WithSitemap(x, m, pages.value))
  }

  /* ---- Static files and scripts ---- */

  function StaticFiles(m: Manifest, statics: map<Path, string>): map<Path, string> {
    var dests := set rel | rel in statics :: m.buildDir + rel;
    map p | p in dests :: (assert p[|m.buildDir|..] in statics; statics[p[|m.buildDir|..]])
  }

  /** Destination and kind; None when the path names no script. */
  function ScriptDest(x: Externals, m: Manifest, rel: Path): Option<(Path, ScriptKind)> {
    var out := x.scriptOutput(rel);
    if out.None? then None else Some((m.buildDir + m.scriptsBuildDir + out.value.0, out.value.1))
  }

  function ScriptText(x: Externals, kind: ScriptKind, source: string): Option<string> {
    if kind.JavaScript? then Some(source) else x.compile(source)
  }

  /** None when a static file and a script build to one path. */
  function ScriptFiles(x: Externals, m: Manifest, rels: seq<Path>, scripts: map<Path, string>, statics: map<Path, string>):
      Option<map<Path, string>>
  {
    if rels == [] then Some(map[])
    else
      var n := |rels| - 1;
      var init := ScriptFiles(x, m, rels[..n], scripts, statics);
      if init.None? then None
      else
        var dest := ScriptDest(x, m, rels[n]);
        if dest.None? then init
        else if dest.value.0 in statics then None
        else if rels[n] !in scripts then init
        else
          var text := ScriptText(x, dest.value.1, scripts[rels[n]]);
          if text.None? then init else Some(init.value[dest.value.0 := text.value])
  }

  function StaticOutputs(x: Externals, m: Manifest, src: Sources): Option<map<Path, string>> {
    var statics := StaticFiles(m, src.statics);
    var scripts := ScriptFiles(x, m, x.walk(src.scripts.Keys), src.scripts, statics);
    if scripts.None? then None else Some(statics + scripts.value)
  }

  /* ---- Where outputs and sources lie ---- */

  /** A build dir that neither contains a source dir nor lies in one. */
  predicate Apart(m: Manifest) {
    && DirApart(m, m.objectsDir) && DirApart(m, m.pagesDir) && DirApart(m, m.layoutDir) && DirApart(m, m.staticDir)
    && (m.scriptsDir.Some? ==> DirApart(m, m.scriptsDir.value))
  }

  predicate DirApart(m: Manifest, dir: Path) {
    !(dir <= m.buildDir) && !(m.buildDir <= dir)
  }

  /** The two filesystems hold the same files outside `dir`. */
  ghost predicate SameOutside(files: map<Path, string>, files': map<Path, string>, dir: Path) {
    forall p | !(dir <= p) :: (p in files <==> p in files') && (p in files ==> files[p] == files'[p])
  }

  lemma PrefixesCompare(a: Path, b: Path, p: Path)
    requires a <= p && b <= p
    ensures a <= b || b <= a
  {
    assert |a| <= |b| ==> a == b[..|a|];
    assert |b| <= |a| ==> b == a[..|b|];
  }

  lemma BeneathUnaffected(files: map<Path, string>, files': map<Path, string>, build: Path, dir: Path)
    requires SameOutside(files, files', build)
    requires !(dir <= build) && !(build <= dir)
    ensures Beneath(files, dir) == Beneath(files', dir)
  {
    forall rel: Path
      ensures dir + rel in files <==> dir + rel in files'
      ensures dir + rel in files ==> files[dir + rel] == files'[dir + rel]
    {
      if build <= dir + rel {
        PrefixesCompare(build, dir, dir + rel);
      }
    }
    assert Relative(files, dir) == Relative(files', dir);
  }

  /** Writing under the build dir changes nothing a planner reads. */
  lemma SourcesUnaffected(m: Manifest, files: map<Path, string>, files': map<Path, string>)
    requires Apart(m) && SameOutside(files, files', m.buildDir)
    ensures SourcesOf(m, files) == SourcesOf(m, files')
  {
    BeneathUnaffected(files, files', m.buildDir, m.objectsDir);
    BeneathUnaffected(files, files', m.buildDir, m.pagesDir);
    BeneathUnaffected(files, files', m.buildDir, m.layoutDir);
    BeneathUnaffected(files, files', m.buildDir, m.staticDir);
    if m.scriptsDir.Some? {
      BeneathUnaffected(files, files', m.buildDir, m.scriptsDir.value);
    }
  }

  lemma {:induction false} RenderedUnderBuildDir(x: Externals, m: Manifest, partials: map<string, string>,
                                                 base: map<string, Value>, jobs: seq<Job>, skip: bool)
    requires RenderAll(x, partials, base, jobs, skip).Some?
    requires forall j | j in jobs && j.RenderJob? :: m.buildDir <= j.page.dest
    ensures forall p | p in RenderAll(x, partials, base, jobs, skip).value :: m.buildDir <= p
  {
    if jobs != [] {
      RenderedUnderBuildDir(x, m, partials, base, jobs[..|jobs| - 1], skip);
      assert jobs[|jobs| - 1] in jobs;
    }
  }

  lemma {:induction false} TemplateJobsUnderBuildDir(x: Externals, m: Manifest, defs: seq<Definition>, entries: Entries,
                                                     pages: map<Path, string>)
    requires |defs| == |entries|
    ensures forall j | j in TemplateJobs(x, m, defs, entries, pages) && j.RenderJob? :: m.buildDir <= j.page.dest
  {
    if defs != [] {
      TemplateJobsUnderBuildDir(x, m, defs[..|defs| - 1], entries[..|defs| - 1], pages);
    }
  }

  lemma {:induction false} FileJobsUnderBuildDir(x: Externals, m: Manifest, defs: seq<Definition>, rels: seq<Path>,
                                                 pages: map<Path, string>)
    ensures forall j | j in FileJobs(x, m, defs, rels, pages) && j.RenderJob? :: m.buildDir <= j.page.dest
  {
    if rels != [] {
      FileJobsUnderBuildDir(x, m, defs, rels[..|rels| - 1], pages);
    }
  }

  lemma {:induction false} ScriptsUnderBuildDir(x: Externals, m: Manifest, rels: seq<Path>, scripts: map<Path, string>,
                                                statics: map<Path, string>)
    requires ScriptFiles(x, m, rels, scripts, statics).Some?
    ensures forall p | p in ScriptFiles(x, m, rels, scripts, statics).value :: m.buildDir <= p
  {
    if rels != [] {
      ScriptsUnderBuildDir(x, m, rels[..|rels| - 1], scripts, statics);
    }
  }

  lemma StaticsUnderBuildDir(x: Externals, m: Manifest, src: Sources)
    requires StaticOutputs(x, m, src).Some?
    ensures forall p | p in StaticOutputs(x, m, src).value :: m.buildDir <= p
  {
    ScriptsUnderBuildDir(x, m, x.walk(src.scripts.Keys), src.scripts, StaticFiles(m, src.statics));
  }

  lemma JobsUnderBuildDir(x: Externals, m: Manifest, defs: seq<Definition>, entries: Entries, pages: map<Path, string>)
    requires |defs| == |entries|
    ensures forall j | j in AllJobs(x, m, defs, entries, pages) && j.RenderJob? :: m.buildDir <= j.page.dest
  {
    TemplateJobsUnderBuildDir(x, m, defs, entries, pages);
    FileJobsUnderBuildDir(x, m, defs, x.walk(pages.Keys), pages);
  }

  lemma SitemapUnderBuildDir(x: Externals, m: Manifest, pages: map<Path, string>)
    requires forall p | p in pages :: m.buildDir <= p
    ensures forall p | p in WithSitemap(x, m, pages) :: m.buildDir <= p
  {
  }

  /** Everything a build writes lies under the build dir. */
  lemma PagesUnderBuildDir(x: Externals, m: Manifest, defs: seq<Definition>, src: Sources, skip: bool)
    requires PageOutputs(x, m, defs, src, skip).Some?
    ensures forall p | p in PageOutputs(x, m, defs, src, skip).value :: m.buildDir <= p
  {
    var entries := ReadEntries(x, defs, src.objects).value;
    var partials, base := x.partials(src.layout, src.pages), BaseContext(x.pluralize, entries, m.siteUrl);
    var jobs := AllJobs(x, m, defs, entries, src.pages);
    JobsUnderBuildDir(x, m, defs, entries, src.pages);
    RenderedUnderBuildDir(x, m, partials, base, jobs, skip);
    SitemapUnderBuildDir(x, m, RenderAll(x, partials, base, jobs, skip).value);
  }
}
