/** Whole runs: edits to a site's sources, and builds that skip, reuse and shadow. */
module Archivals {
  import opened Wrappers
  import opened Context
  import opened WritePlans
  import opened PlanLaws
  import opened Layers
  import opened Builds
  import opened Reuse
  import opened Planning
  import opened Sites

  /** A collision-free build id: zero while nothing has been built. */
  datatype BuildId = NoBuild | Built(entries: map<Path, Digest>, generation: nat)

  datatype BuildResult = Skipped | Done | ScriptsFailed | PlanFailed | ApplyFailed

  /** What building the sources into an empty build dir leaves there: the static files and
      scripts, and every page they do not shadow.  None when that build fails. */
  function FromScratch(x: Externals, m: Manifest, defs: seq<Definition>, src: Sources, skip: bool):
      Option<map<Path, string>>
  {
    var statics := StaticOutputs(x, m, src);
    var pages := PageOutputs(x, m, defs, src, skip);
    if statics.None? || pages.None? then None else Some(pages.value + statics.value)
  }

  /** What a site is, apart from its files and caches. */
  datatype Setup = Setup(x: Externals, m: Manifest, defs: seq<Definition>, skip: bool)
  {
    function Src(files: map<Path, string>): Sources {
      SourcesOf(m, files)
    }

    function Statics(files: map<Path, string>): Option<map<Path, string>> {
      StaticOutputs(x, m, Src(files))
    }

    function Pages(files: map<Path, string>): Option<map<Path, string>> {
      PageOutputs(x, m, defs, Src(files), skip)
    }

    function Scratch(files: map<Path, string>): Option<map<Path, string>> {
      FromScratch(x, m, defs, Src(files), skip)
    }

    /** The sources meet what a build needs of them. */
    ghost predicate Regular(files: map<Path, string>) {
      RegularPages(x, m, defs, Src(files)) && RegularScripts(x, m, Src(files))
    }
  }

  datatype Memory = Memory(objects: map<Path, Object>, scripts: map<Path, (Digest, Digest)>,
                           records: map<Path, RenderRecord>, generation: nat, last: BuildId)

  function IdOf(pages: map<Path, Digest>, generation: nat): BuildId {
    if pages == map[] then NoBuild else Built(pages, generation)
  }

  /** The build dir holds exactly a from-scratch build of the sources, and the caches say so. */
  ghost predicate UpToDate(u: Setup, s: Stack) {
    && u.Scratch(s.files) == Some(Outputs(s.files, u.m.buildDir))
    && s.statics == Hashes(u.Statics(s.files).value)
    && s.pages == Hashes(Unshadowed(u.Pages(s.files).value, u.Statics(s.files).value))
  }

  /** Everything the caches hold in memory is right for the files on disk. */
  ghost predicate Remembers(u: Setup, files: map<Path, string>, k: Memory) {
    && CoherentCache(u.x, u.m.objectsDir, k.objects, Beneath(files, u.m.objectsDir))
    && TrueScriptCache(u.x, k.scripts)
    && TrueRecords(u.x, u.m.buildDir, u.defs == [], k.records)
  }

  /** What every edit and every complete build keeps. */
  ghost predicate Good(u: Setup, s: Stack, k: Memory) {
    && Apart(u.m) && Consistent(s, u.m.buildDir) && s.statics.Keys !! s.pages.Keys
    && Remembers(u, s.files, k)
    && RemembersLast(s, k)
    && (k.last.Built? && k.last == IdOf(s.pages, k.generation) ==> UpToDate(u, s))
  }

  /** The last build's id, while nothing was edited since it, is the id of the pages cached now. */
  ghost predicate RemembersLast(s: Stack, k: Memory) {
    k.last.Built? ==> k.last.generation <= k.generation && (k.last.generation == k.generation ==> k.last == IdOf(s.pages, k.generation))
  }

  /** What every step keeps, builds that failed halfway or lost a page included. */
  ghost predicate Recovering(u: Setup, s: Stack, k: Memory) {
    Apart(u.m) && Recoverable(s, u.m.buildDir) && Remembers(u, s.files, k) && RemembersLast(s, k)
  }

  /** Every page a build would now keep unwritten, and no static file of it shadows, is there and
      is no static file's output. */
  ghost predicate Stands(u: Setup, s: Stack) {
    forall p | u.Pages(s.files).Some? && u.Statics(s.files).Some? && p in u.Pages(s.files).value && p !in u.Statics(s.files).value
               && p in s.pages && s.pages[p] == HashFile(u.Pages(s.files).value[p]) :: p !in s.statics && p in s.files
  }

  lemma GoodIsRecovering(u: Setup, s: Stack, k: Memory)
    requires Good(u, s, k)
    ensures Recovering(u, s, k) && Stands(u, s)
  {
    hide UpToDate, Remembers, StaticOutputs, PageOutputs, Apart;
    ConsistentIsRecoverable(s, u.m.buildDir);
  }

  /** After one failed build, the next one loses a page just where both caches hold a path whose
      page is unchanged and whose static file is gone. */
  lemma StandsIff(u: Setup, s: Stack)
    requires Consistent(s, u.m.buildDir) && u.Pages(s.files).Some? && u.Statics(s.files).Some?
    ensures Stands(u, s) <==>
            !exists p :: p in s.statics && p !in u.Statics(s.files).value && p in u.Pages(s.files).value
                         && p in s.pages && s.pages[p] == HashFile(u.Pages(s.files).value[p])
  {
    hide StaticOutputs, PageOutputs, SourcesOf;
  }

  /** An edit outside the build dir that invalidates what it touched keeps everything. */
  lemma EditKeepsGood(u: Setup, s: Stack, k: Memory, files': map<Path, string>, edited: set<Path>, generation': nat)
    requires Recovering(u, s, k) && generation' > k.generation
    requires forall p | p in edited :: !(u.m.buildDir <= p)
    requires forall p | p !in edited :: (p in s.files <==> p in files') && (p in files' ==> s.files[p] == files'[p])
    ensures Recovering(u, s.(files := files'), k.(objects := k.objects - edited, generation := generation'))
    ensures Good(u, s, k) ==> Good(u, s.(files := files'), k.(objects := k.objects - edited, generation := generation'))
  {
    hide UpToDate, CoherentCache, TrueScriptCache, TrueRecords, Apart, Beneath, Recoverable;
    CoherentAfterEdit(u.x, u.m.objectsDir, k.objects, s.files, files', edited);
    EditKeepsRecoverable(s, u.m.buildDir, files', edited);
    if Good(u, s, k) {
      EditKeepsConsistent(s, u.m.buildDir, files', edited);
    }
    hide Consistent;
  }

  lemma EditKeepsRecoverable(s: Stack, dir: Path, files': map<Path, string>, edited: set<Path>)
    requires Recoverable(s, dir)
    requires forall p | p in edited :: !(dir <= p)
    requires forall p | p !in edited :: (p in s.files <==> p in files') && (p in files' ==> s.files[p] == files'[p])
    ensures Recoverable(s.(files := files'), dir)
  {
  }

  lemma EditKeepsConsistent(s: Stack, dir: Path, files': map<Path, string>, edited: set<Path>)
    requires Consistent(s, dir)
    requires forall p | p in edited :: !(dir <= p)
    requires forall p | p !in edited :: (p in s.files <==> p in files') && (p in files' ==> s.files[p] == files'[p])
    ensures Consistent(s.(files := files'), dir)
  {
  }

  /** Planning reads and fills the caches, but changes no file. */
  lemma PlanningKeepsGood(u: Setup, s: Stack, k: Memory, k': Memory)
    requires Recovering(u, s, k) && Remembers(u, s.files, k')
    requires k'.generation == k.generation && k'.last == k.last
    ensures Recovering(u, s, k') && (Good(u, s, k) ==> Good(u, s, k'))
  {
    hide UpToDate, Remembers;
  }

  /** The id of the last build still stands only while nothing was edited since. */
  lemma SkipIsSound(u: Setup, s: Stack, k: Memory)
    requires Good(u, s, k) && k.last.Built? && k.last == IdOf(s.pages, k.generation)
    ensures UpToDate(u, s)
  {
    hide UpToDate, Remembers, Consistent;
  }

  /** Both plans of one build, aimed at what a from-scratch build of these files produces. */
  ghost predicate Planned2(u: Setup, s: Stack, statics: Aim, pages: Aim) {
    && u.Statics(s.files) == Some(statics.target) && u.Pages(s.files) == Some(pages.target)
    && statics.From(s.statics) && pages.From(s.pages)
  }

  lemma ScratchOf(u: Setup, files: map<Path, string>, statics: map<Path, string>, pages: map<Path, string>)
    requires u.Statics(files) == Some(statics) && u.Pages(files) == Some(pages)
    ensures u.Scratch(files) == Some(pages + statics)
    ensures forall p | p in statics || p in pages :: u.m.buildDir <= p
  {
    StaticsUnderBuildDir(u.x, u.m, u.Src(files));
    PagesUnderBuildDir(u.x, u.m, u.defs, u.Src(files), u.skip);
  }

  /** The build dir does not feed back into the outputs. */
  lemma SameOutputs(u: Setup, files: map<Path, string>, files': map<Path, string>)
    requires Apart(u.m) && SameOutside(files, files', u.m.buildDir)
    ensures u.Src(files) == u.Src(files')
  {
    SourcesUnaffected(u.m, files, files');
  }

  lemma KeptStandsIff(u: Setup, s: Stack, statics: Aim, pages: Aim)
    requires Planned2(u, s, statics, pages)
    ensures KeptStands(s, statics, pages) <==> Stands(u, s)
  {
    hide StaticOutputs, PageOutputs, SourcesOf;
    forall p | p in pages.target
      ensures p in s.pages && s.pages[p] == HashFile(pages.target[p]) <==> (p, HashFile(pages.target[p])) in pages.kept
    {
    }
  }

  /** A build from any state leaves exactly a from-scratch build of its sources, however many of
      its pages were reused, if and only if the pages it keeps stand; and then everything is as
      good as if no build had ever failed. */
  lemma FinishedBuildIff(u: Setup, s: Stack, k: Memory, statics: Aim, pages: Aim)
    requires Recovering(u, s, k) && Planned2(u, s, statics, pages)
    ensures var s2 := ApplyPages(ApplyStatics(s, statics), pages);
            && (UpToDate(u, s2) <==> Stands(u, s)) && SameOutside(s.files, s2.files, u.m.buildDir)
            && Recoverable(s2, u.m.buildDir) && Remembers(u, s2.files, k)
            && Recovering(u, s2, k.(last := IdOf(s2.pages, k.generation)))
            && (Stands(u, s) ==> Good(u, s2, k.(last := IdOf(s2.pages, k.generation))))
            && (Stands(u, s) && RemembersLast(s2, k) ==> Good(u, s2, k))
  {
    hide Realises, Remembers, Consistent, Recoverable, ApplyPages, ApplyStatics, KeptStands, Stands, Outputs, Hashes, Unshadowed;
    hide FromScratch, StaticOutputs, PageOutputs, Apart, SourcesOf, StoppedAt;
    var s2 := ApplyPages(ApplyStatics(s, statics), pages);
    ScratchOf(u, s.files, statics.target, pages.target);
    KeptStandsIff(u, s, statics, pages);
    CompleteBuildIff(s, statics, pages, u.m.buildDir);
    FinishedIsStoppedAtEnd(s, statics, pages);
    StoppedBuildIsRecoverable(s, statics, pages, u.m.buildDir, |statics.Steps()|, |pages.Steps()|);
    SameOutputs(u, s.files, s2.files);
    var k2 := k.(last := IdOf(s2.pages, k.generation));
    SameBuild(u, s.files, s2.files, k);
    SameBuild(u, s.files, s2.files, k2);
    RemembersTheSame(u, s.files, k, k2);
    if Stands(u, s) {
      CompleteBuildKeepsConsistent(s, statics, pages, u.m.buildDir);
    }
  }

  lemma FinishedIsStoppedAtEnd(s: Stack, statics: Aim, pages: Aim)
    ensures ApplyPages(ApplyStatics(s, statics), pages) == StoppedAt(s, statics, pages, |statics.Steps()|, |pages.Steps()|)
  {
    assert statics.Steps()[..|statics.Steps()|] == statics.Steps();
    assert pages.Steps()[..|pages.Steps()|] == pages.Steps();
  }

  /** While no build has failed halfway, a finished build leaves exactly a from-scratch build of
      its sources, and everything later builds rely on. */
  lemma FinishedBuildIsUpToDate(u: Setup, s: Stack, k: Memory, statics: Aim, pages: Aim)
    requires Good(u, s, k) && Planned2(u, s, statics, pages)
    ensures var s2 := ApplyPages(ApplyStatics(s, statics), pages);
            && UpToDate(u, s2) && SameOutside(s.files, s2.files, u.m.buildDir)
            && Good(u, s2, k.(last := IdOf(s2.pages, k.generation)))
  {
    hide Good, Recovering, UpToDate, Stands, Recoverable, ApplyPages, ApplyStatics;
    GoodIsRecovering(u, s, k);
    FinishedBuildIff(u, s, k, statics, pages);
  }

  /** A build whose applying stopped halfway changes no source, keeps what can be recovered from,
      and leaves caches that described the disk describing it. */
  lemma StoppedBuildIsHarmless(u: Setup, s: Stack, k: Memory, statics: Aim, pages: Aim, s': Stack)
    requires Recovering(u, s, k) && Planned2(u, s, statics, pages) && StoppedSomewhere(s, statics, pages, s')
    ensures SameOutside(s.files, s'.files, u.m.buildDir)
    ensures Recoverable(s', u.m.buildDir) && Remembers(u, s'.files, k)
    ensures Good(u, s, k) ==> Consistent(s', u.m.buildDir)
  {
    hide Realises, Remembers, Consistent, Recoverable, UpToDate, StoppedAt, Apart;
    hide FromScratch, StaticOutputs, PageOutputs, SourcesOf;
    ScratchOf(u, s.files, statics.target, pages.target);
    var i: nat, j: nat :| i <= |statics.Steps()| && j <= |pages.Steps()| && s' == StoppedAt(s, statics, pages, i, j);
    StoppedBuildIsRecoverable(s, statics, pages, u.m.buildDir, i, j);
    if Good(u, s, k) {
      StoppedBuildIsConsistent(s, statics, pages, u.m.buildDir, i, j);
    }
    SameOutputs(u, s.files, s'.files);
    SameBuild(u, s.files, s'.files, k);
  }

  lemma RemembersTheSame(u: Setup, files: map<Path, string>, k: Memory, k': Memory)
    requires Remembers(u, files, k)
    requires k'.objects == k.objects && k'.scripts == k.scripts && k'.records == k.records
    ensures Remembers(u, files, k')
  {
  }

  lemma SameBuild(u: Setup, files: map<Path, string>, files': map<Path, string>, k: Memory)
    requires u.Src(files) == u.Src(files')
    ensures u.Scratch(files) == u.Scratch(files') && u.Statics(files) == u.Statics(files') && u.Pages(files) == u.Pages(files')
    ensures Remembers(u, files, k) == Remembers(u, files', k)
  {
    hide FromScratch, StaticOutputs, PageOutputs, CoherentCache, TrueScriptCache, TrueRecords;
  }

  ghost function AimOf(plan: WritePlan, target: map<Path, string>): Aim
    reads plan
  {
    Aim(plan.writes, plan.kept, plan.deletes, target)
  }

  /** The disk with its caches, and what is held in memory beside them. */
  datatype Moment = Moment(stack: Stack, memory: Memory)
  {
    ghost predicate Recovers(u: Setup) {
      Recovering(u, stack, memory)
    }

    ghost predicate IsGood(u: Setup) {
      Good(u, stack, memory)
    }
  }

  /** The id of the last build no longer stands. */
  predicate Forgotten(k: Memory) {
    k.last.Built? ==> k.last.generation < k.generation
  }

  /** What one step, an edit or a build, makes of a moment that can be recovered from. */
  ghost predicate Law(u: Setup, a: Moment, r: Option<BuildResult>, b: Moment) {
    && b.Recovers(u)
    && (a.IsGood(u) && r != Some(ApplyFailed) ==> b.IsGood(u))
    && (r.Some? ==> b.memory.generation == a.memory.generation)
    && (r != Some(Done) ==> b.memory.last == a.memory.last)
    && (r.Some? && !r.value.Skipped? ==> Forgotten(a.memory))
    && (r == Some(Done) ==> b.memory.last == IdOf(b.stack.pages, b.memory.generation))
    && match r
       case None => a.memory.generation < b.memory.generation || (b.stack == a.stack && b.memory.generation == a.memory.generation)
       case Some(Skipped) => b == a && a.memory.last.Built? && a.memory.last == IdOf(a.stack.pages, a.memory.generation)
       case Some(PlanFailed) => b.stack == a.stack && u.Scratch(a.stack.files).None?
       case Some(ApplyFailed) => SameOutside(a.stack.files, b.stack.files, u.m.buildDir) && (a.IsGood(u) ==> Consistent(b.stack, u.m.buildDir))
       case Some(_) =>
         && SameOutside(a.stack.files, b.stack.files, u.m.buildDir)
         && (UpToDate(u, b.stack) <==> Stands(u, a.stack)) && (Stands(u, a.stack) ==> b.IsGood(u))
  }

  /** How a build may end. */
  ghost predicate Outcome(u: Setup, s: Stack, s': Stack, r: BuildResult) {
    match r
    case Skipped => UpToDate(u, s') && s'.files == s.files
    case Done => UpToDate(u, s') && SameOutside(s.files, s'.files, u.m.buildDir)
    case ScriptsFailed => UpToDate(u, s') && SameOutside(s.files, s'.files, u.m.buildDir)
    case PlanFailed => u.Scratch(s.files).None? && s'.files == s.files
    case ApplyFailed => Consistent(s', u.m.buildDir) && SameOutside(s.files, s'.files, u.m.buildDir)
  }

  /** What a build that did not fail on the disk leaves behind. */
  ghost predicate Reached(u: Setup, s: Stack, r: BuildResult) {
    !r.ApplyFailed? && if r.PlanFailed? then u.Scratch(s.files).None? else UpToDate(u, s)
  }

  /** From a good moment a build that was allowed to finish reaches its outputs. */
  lemma LawReaches(u: Setup, a: Moment, r: BuildResult, b: Moment)
    requires a.IsGood(u) && Law(u, a, Some(r), b)
    ensures Outcome(u, a.stack, b.stack, r) && (!r.ApplyFailed? ==> Reached(u, b.stack, r) && b.IsGood(u))
  {
    hide UpToDate, Remembers, Consistent, Recoverable, Stands, SameOutside, Setup.Scratch;
    GoodIsRecovering(u, a.stack, a.memory);
  }

  lemma FinishedLaw(u: Setup, a: Moment, statics: Aim, pages: Aim, r: BuildResult)
    requires a.Recovers(u) && Planned2(u, a.stack, statics, pages) && Forgotten(a.memory) && (r.Done? || r.ScriptsFailed?)
    ensures var s2 := ApplyPages(ApplyStatics(a.stack, statics), pages);
            Law(u, a, Some(r), Moment(s2, if r.Done? then a.memory.(last := IdOf(s2.pages, a.memory.generation)) else a.memory))
  {
    hide UpToDate, Remembers, Consistent, Recoverable, Stands, SameOutside, Setup.Scratch, ApplyPages, ApplyStatics, Planned2, Apart;
    FinishedBuildIff(u, a.stack, a.memory, statics, pages);
    if a.IsGood(u) {
      GoodIsRecovering(u, a.stack, a.memory);
    }
  }

  lemma StoppedLaw(u: Setup, a: Moment, statics: Aim, pages: Aim, s': Stack)
    requires a.Recovers(u) && Planned2(u, a.stack, statics, pages) && Forgotten(a.memory)
    requires StoppedSomewhere(a.stack, statics, pages, s')
    ensures Law(u, a, Some(ApplyFailed), Moment(s', a.memory))
  {
    hide UpToDate, Remembers, Consistent, Recoverable, Stands, SameOutside, Setup.Scratch, Planned2, StoppedSomewhere, Apart;
    StoppedBuildIsHarmless(u, a.stack, a.memory, statics, pages, s');
  }

  /** An edit that failed changed nothing; one that did not invalidated what it touched. */
  lemma AfterEdit(u: Setup, a: Moment, b: Moment, edited: set<Path>)
    requires forall p | p in edited :: !(u.m.buildDir <= p)
    requires b == a || (&& b.memory.generation > a.memory.generation && b.stack == a.stack.(files := b.stack.files)
                        && b.memory == a.memory.(objects := a.memory.objects - edited, generation := b.memory.generation))
    requires forall p | p !in edited :: (p in a.stack.files <==> p in b.stack.files)
                                        && (p in b.stack.files ==> a.stack.files[p] == b.stack.files[p])
    ensures a.Recovers(u) ==> Law(u, a, None, b)
    ensures a.IsGood(u) ==> b.IsGood(u)
  {
    hide Good, Recovering;
    if a.IsGood(u) {
      GoodIsRecovering(u, a.stack, a.memory);
    }
    if a.Recovers(u) && b != a {
      EditLaw(u, a, b.stack.files, edited, b.memory.generation);
    }
  }

  lemma EditLaw(u: Setup, a: Moment, files': map<Path, string>, edited: set<Path>, generation': nat)
    requires a.Recovers(u) && generation' > a.memory.generation
    requires forall p | p in edited :: !(u.m.buildDir <= p)
    requires forall p | p !in edited :: (p in a.stack.files <==> p in files') && (p in files' ==> a.stack.files[p] == files'[p])
    ensures Law(u, a, None, Moment(a.stack.(files := files'), a.memory.(objects := a.memory.objects - edited, generation := generation')))
  {
    hide Good, Recovering;
    EditKeepsGood(u, a.stack, a.memory, files', edited, generation');
  }

  /** Planning the outputs already on disk asks for nothing the disk would see. */
  lemma UpToDateIsIdle(u: Setup, s: Stack, statics: Aim, pages: Aim)
    requires UpToDate(u, s) && Planned2(u, s, statics, pages)
    ensures statics.writes == [] && statics.deletes == [] && pages.deletes == []
    ensures forall w | w in pages.writes :: w.path in s.statics
    ensures forall v | v in statics.kept :: v.0 in s.statics
  {
    hide FromScratch, StaticOutputs, PageOutputs;
    RepeatedBuildIsIdle(s, statics, pages);
  }

  lemma SkippedLaw(u: Setup, a: Moment)
    requires a.Recovers(u) && a.memory.last.Built? && a.memory.last == IdOf(a.stack.pages, a.memory.generation)
    ensures Law(u, a, Some(Skipped), a)
  {
    hide Recovering, Good;
  }

  /** A build that is not skipped has forgotten the last one; its planning changes only memory. */
  lemma PlannedLaw(u: Setup, a: Moment, k: Memory)
    requires a.Recovers(u) && Remembers(u, a.stack.files, k) && k.generation == a.memory.generation && k.last == a.memory.last
    requires IdOf(a.stack.pages, k.generation) == NoBuild || k.last != IdOf(a.stack.pages, k.generation)
    ensures Recovering(u, a.stack, k) && Forgotten(k) && (a.IsGood(u) ==> Good(u, a.stack, k))
    ensures u.Scratch(a.stack.files).None? ==> Law(u, a, Some(PlanFailed), Moment(a.stack, k))
  {
    hide Remembers, UpToDate, Recoverable, Consistent, Apart, Setup.Scratch;
    PlanningKeepsGood(u, a.stack, a.memory, k);
  }

  lemma LawFromPlanned(u: Setup, a: Moment, planned: Moment, r: BuildResult, b: Moment)
    requires Law(u, planned, Some(r), b) && !r.Skipped? && planned.stack == a.stack && (a.IsGood(u) ==> planned.IsGood(u))
    requires planned.memory.generation == a.memory.generation && planned.memory.last == a.memory.last
    ensures Law(u, a, Some(r), b)
  {
    hide Good, Recovering, UpToDate, Stands, Consistent, SameOutside, Setup.Scratch;
  }

  /* ---- Runs ---- */

  /** Each step from one moment to the next obeys the law, as long as the sources every build
      saw meet what it needs of them. */
  ghost predicate IsRun(u: Setup, results: seq<Option<BuildResult>>, moments: seq<Moment>) {
    && |moments| == |results| + 1
    && forall i | 0 <= i < |results| && moments[i].Recovers(u) && (results[i].Some? ==> u.Regular(moments[i].stack.files)) ::
         Law(u, moments[i], results[i], moments[i + 1])
  }

  lemma RunGrows(u: Setup, results: seq<Option<BuildResult>>, moments: seq<Moment>, r: Option<BuildResult>, b: Moment)
    requires IsRun(u, results, moments)
    requires var a := moments[|results|]; a.Recovers(u) && (r.Some? ==> u.Regular(a.stack.files)) ==> Law(u, a, r, b)
    ensures IsRun(u, results + [r], moments + [b])
  {
    hide Law, Setup.Regular, Recovering;
  }

  /** Nothing but regular sources was built. */
  ghost predicate RegularRun(u: Setup, results: seq<Option<BuildResult>>, moments: seq<Moment>) {
    |moments| == |results| + 1 && forall i | 0 <= i < |results| && results[i].Some? :: u.Regular(moments[i].stack.files)
  }

  /** However many builds fail halfway, what the next ones need is kept. */
  lemma {:induction false} RunRecovers(u: Setup, results: seq<Option<BuildResult>>, moments: seq<Moment>, i: nat)
    requires IsRun(u, results, moments) && RegularRun(u, results, moments) && moments[0].Recovers(u) && i <= |results|
    ensures moments[i].Recovers(u)
    decreases i
  {
    hide Recovering, Good, UpToDate, Setup.Regular, Stands;
    if i > 0 {
      RunRecovers(u, results, moments, i - 1);
    }
  }

  /** From any good moment, everything stays good until a build fails halfway. */
  lemma {:induction false} RunKeepsGood(u: Setup, results: seq<Option<BuildResult>>, moments: seq<Moment>, i: nat, j: nat)
    requires IsRun(u, results, moments) && RegularRun(u, results, moments)
    requires i <= j <= |results| && moments[i].IsGood(u) && forall k | i <= k < j :: results[k] != Some(ApplyFailed)
    ensures moments[j].IsGood(u)
    decreases j
  {
    hide Recovering, Good, UpToDate, Setup.Regular, Stands;
    if i < j {
      RunKeepsGood(u, results, moments, i, j - 1);
      GoodIsRecovering(u, moments[j - 1].stack, moments[j - 1].memory);
    }
  }

  /** In every run, failed builds included, a finished build is up to date if and only if the
      pages it kept stood. */
  lemma FinishedBuildsIff(u: Setup, results: seq<Option<BuildResult>>, moments: seq<Moment>, i: nat)
    requires IsRun(u, results, moments) && RegularRun(u, results, moments) && moments[0].Recovers(u)
    requires i < |results| && (results[i] == Some(Done) || results[i] == Some(ScriptsFailed))
    ensures UpToDate(u, moments[i + 1].stack) <==> Stands(u, moments[i].stack)
    ensures Stands(u, moments[i].stack) ==> moments[i + 1].IsGood(u)
  {
    hide Recovering, Good, UpToDate, Setup.Regular, Stands;
    RunRecovers(u, results, moments, i);
  }

  /** From a good moment on, every build reaches its outputs until one fails halfway. */
  lemma GoodRunReaches(u: Setup, results: seq<Option<BuildResult>>, moments: seq<Moment>, i: nat, j: nat)
    requires IsRun(u, results, moments) && RegularRun(u, results, moments)
    requires i <= j < |results| && moments[i].IsGood(u) && forall k | i <= k <= j :: results[k] != Some(ApplyFailed)
    ensures moments[j + 1].IsGood(u) && (results[j].Some? ==> Reached(u, moments[j + 1].stack, results[j].value))
  {
    hide Recovering, Good, UpToDate, Setup.Regular, Stands, Reached;
    RunKeepsGood(u, results, moments, i, j);
    GoodIsRecovering(u, moments[j].stack, moments[j].memory);
    assert Law(u, moments[j], results[j], moments[j + 1]);
    if results[j].Some? {
      LawReaches(u, moments[j], results[j].value, moments[j + 1]);
    }
  }

  /** What a skipped build leaves alone is exactly what the last build that was done left. */
  lemma {:induction false} SkippedSinceDone(u: Setup, results: seq<Option<BuildResult>>, moments: seq<Moment>, i: nat)
    requires IsRun(u, results, moments) && RegularRun(u, results, moments) && moments[0].Recovers(u)
    requires moments[0].memory.last == NoBuild && i <= |results|
    ensures moments[i].memory.last.Built? && moments[i].memory.last.generation == moments[i].memory.generation ==>
              exists j :: 0 <= j < i && results[j] == Some(Done) && moments[j + 1].stack == moments[i].stack
    decreases i
  {
    hide Good, UpToDate, Setup.Regular, Stands, Remembers, Recoverable, Consistent, SameOutside, Setup.Scratch, Apart;
    if i > 0 {
      RunRecovers(u, results, moments, i - 1);
      SkippedSinceDone(u, results, moments, i - 1);
      var j, a, b := i - 1, moments[i - 1], moments[i];
      assert Law(u, a, results[j], b);
      if b.memory.last.Built? && b.memory.last.generation == b.memory.generation {
        if results[j] != Some(Done) {
          assert a.stack == b.stack;
          j :| 0 <= j < i - 1 && results[j] == Some(Done) && moments[j + 1].stack == a.stack;
        }
        assert moments[j + 1].stack == b.stack;
      }
    }
  }

  /** A build right after one that was done, with pages built, is skipped. */
  lemma UnchangedIsSkipped(u: Setup, results: seq<Option<BuildResult>>, moments: seq<Moment>, i: nat)
    requires IsRun(u, results, moments) && RegularRun(u, results, moments) && moments[0].Recovers(u)
    requires i + 1 < |results| && results[i] == Some(Done) && results[i + 1].Some? && moments[i + 1].stack.pages != map[]
    ensures results[i + 1] == Some(Skipped) && moments[i + 2] == moments[i + 1]
  {
    hide Good, Recovering, UpToDate, Setup.Regular, Stands;
    RunRecovers(u, results, moments, i);
    RunRecovers(u, results, moments, i + 1);
    assert Law(u, moments[i], results[i], moments[i + 1]) && Law(u, moments[i + 1], results[i + 1], moments[i + 2]);
  }

  /** A skipped build is up to date if and only if the kept pages of the last build that was done
      stood. */
  lemma SkippedBuildsIff(u: Setup, results: seq<Option<BuildResult>>, moments: seq<Moment>, i: nat) returns (j: nat)
    requires IsRun(u, results, moments) && RegularRun(u, results, moments) && moments[0].Recovers(u)
    requires moments[0].memory.last == NoBuild && i < |results| && results[i] == Some(Skipped)
    ensures j < i && results[j] == Some(Done) && moments[i + 1].stack == moments[j + 1].stack
    ensures UpToDate(u, moments[i + 1].stack) <==> Stands(u, moments[j].stack)
  {
    hide Good, Recovering, UpToDate, Setup.Regular, Stands;
    RunRecovers(u, results, moments, i);
    assert Law(u, moments[i], results[i], moments[i + 1]);
    SkippedSinceDone(u, results, moments, i);
    j :| 0 <= j < i && results[j] == Some(Done) && moments[j + 1].stack == moments[i].stack;
    FinishedBuildsIff(u, results, moments, j);
  }

  class Archival {
    const site: Site
    const disk: Disk
    const skipFailures: bool
    var lastBuildId: BuildId

    constructor (site: Site, disk: Disk, skipFailures: bool)
      ensures this.site == site && this.disk == disk && this.skipFailures == skipFailures && lastBuildId == NoBuild
    {
      this.site, this.disk, this.skipFailures, lastBuildId := site, disk, skipFailures, NoBuild;
    }

    ghost function Here(): Setup
      reads site`manifest
    {
      Setup(site.x, site.manifest, site.defs, skipFailures)
    }

    ghost function Now(): Stack
      reads disk, site.staticCache, site.buildCache
    {
      Stack(disk.files, site.staticCache.entries, site.buildCache.entries)
    }

    ghost function Held(): Memory
      reads this, site
    {
      Memory(site.objCache, site.scriptCache, site.renderCache, site.generation, lastBuildId)
    }

    ghost function At(): Moment
      reads this, disk, site, site.staticCache, site.buildCache
    {
      Moment(Now(), Held())
    }

    ghost predicate Valid()
      reads this, disk, site, site.staticCache, site.buildCache
    {
      site.staticCache != site.buildCache && Good(Here(), Now(), Held())
    }

    /* ---- Edits ---- */

    method WriteFile(path: Path, contents: string) returns (ok: bool)
      requires !(site.manifest.buildDir <= path)
      modifies disk, site`objCache, site`generation
      ensures old(Valid()) ==> Valid()
      ensures old(At().Recovers(Here())) ==> Law(Here(), old(At()), None, At())
      ensures disk.files == if ok then old(disk.files)[path := contents] else old(disk.files)
    {
      hide Good, Recovering, Law;
      ghost var u, a := Here(), At();
      ok := disk.Write(path, contents);
      if ok {
        site.InvalidateFile(path);
      }
      AfterEdit(u, a, At(), {path});
    }

    method DeleteFile(path: Path) returns (ok: bool)
      requires !(site.manifest.buildDir <= path)
      modifies disk, site`objCache, site`generation
      ensures old(Valid()) ==> Valid()
      ensures old(At().Recovers(Here())) ==> Law(Here(), old(At()), None, At())
      ensures disk.files == if ok then old(disk.files) - {path} else old(disk.files)
    {
      hide Good, Recovering, Law;
      ghost var u, a := Here(), At();
      var r := disk.Delete(path);
      ok := !r.Refused?;
      assert ok ==> disk.files == old(disk.files) - {path};
      if ok {
        site.InvalidateFile(path);
      }
      AfterEdit(u, a, At(), {path});
    }

    method RenameFile(from: Path, to: Path) returns (ok: bool)
      requires !(site.manifest.buildDir <= from) && !(site.manifest.buildDir <= to)
      modifies disk, site`objCache, site`generation
      ensures old(Valid()) ==> Valid()
      ensures old(At().Recovers(Here())) ==> Law(Here(), old(At()), None, At())
      ensures ok ==> from in old(disk.files) && to in disk.files && disk.files[to] == old(disk.files)[from]
      ensures !ok ==> disk.files == old(disk.files)
    {
      hide Good, Recovering, Law;
      ghost var u, a := Here(), At();
      ok := disk.Rename(from, to);
      if ok {
        site.InvalidateFile(from);
        site.InvalidateFile(to);
        assert site.objCache == a.memory.objects - {from, to};
      }
      AfterEdit(u, a, At(), {from, to});
    }

    /* ---- Builds ---- */

    /** Applies the static plan, then the pages beneath it. */
    method ApplyBoth(statics: WritePlan, pages: WritePlan, ghost a: Aim, ghost b: Aim) returns (ok: bool)
      requires site.staticCache != site.buildCache
      requires a == AimOf(statics, a.target) && b == AimOf(pages, b.target)
      modifies disk, site.staticCache, site.buildCache
      ensures ok ==> Now() == ApplyPages(ApplyStatics(old(Now()), a), b)
      ensures !ok ==> StoppedSomewhere(old(Now()), a, b, Now())
      ensures statics.writes == [] && statics.deletes == [] && pages.deletes == []
                && (forall w | w in pages.writes :: w.path in old(site.staticCache.entries))
                && (forall u | u in statics.kept :: u.0 in old(site.staticCache.entries)) ==>
                disk.mutations == old(disk.mutations)
    {
      ghost var done;
      ghost var s := Now();
      ok, done := statics.Apply(disk, site.staticCache);
      if !ok {
        assert b.Steps()[..0] == [];
        assert Now() == StoppedAt(s, a, b, done, 0);
        return;
      }
      assert statics.Steps()[..done] == statics.Steps();
      if statics.writes == [] && statics.deletes == [] {
        KeptStaysCached(State(old(disk.files), old(site.staticCache.entries)), statics.kept);
      }
      assert a.Steps()[..|a.Steps()|] == a.Steps();
      ok, done := pages.ApplyBeneath(disk, site.buildCache, site.staticCache);
      assert Now() == StoppedAt(s, a, b, |a.Steps()|, done);
      assert ok ==> pages.Steps()[..done] == pages.Steps();
    }

    /** Both plans against one snapshot.  Only the caches in memory change. */
    method PlanBoth(snapshot: map<Path, string>) returns (ok: bool, statics: WritePlan, pages: WritePlan)
      requires snapshot == disk.files
      modifies site`objCache, site`renderCache, site`scriptCache
      ensures fresh(statics) && fresh(pages)
      ensures Here().Regular(snapshot) && old(Remembers(Here(), snapshot, Held())) ==>
        && Remembers(Here(), snapshot, Held())
        && ok == Here().Scratch(snapshot).Some?
        && (ok ==> Here().Statics(snapshot).Some? && Here().Pages(snapshot).Some?)
        && (ok ==> Planned2(Here(), Now(), AimOf(statics, Here().Statics(snapshot).value),
                            AimOf(pages, Here().Pages(snapshot).value)))
    {
      hide StaticOutputs, PageOutputs, RegularPages, RegularScripts, Realises, CoherentCache, TrueScriptCache, TrueRecords;
      pages := new WritePlan();
      ok, statics := site.PlanStaticSync(snapshot);
      if ok {
        ok, pages := site.PlanBuild(snapshot, skipFailures, site.generation);
      }
    }

    /** Applies both plans and, unless scripts failed, remembers the build. */
    method Finish(statics: WritePlan, pages: WritePlan, ghost a: Aim, ghost b: Aim) returns (r: BuildResult)
      requires site.staticCache != site.buildCache
      requires a == AimOf(statics, a.target) && b == AimOf(pages, b.target)
      modifies this`lastBuildId, disk, site.staticCache, site.buildCache
      ensures !r.Skipped? && !r.PlanFailed?
      ensures r.ScriptsFailed? ==> !skipFailures && old(statics.failures) != []
      ensures r.Done? ==> skipFailures || old(statics.failures) == []
      ensures old(At().Recovers(Here()) && Planned2(Here(), Now(), a, b) && Forgotten(Held())) ==>
        Law(Here(), old(At()), Some(r), At())
      ensures old(UpToDate(Here(), Now()) && Planned2(Here(), Now(), a, b)) ==> disk.mutations == old(disk.mutations)
    {
      ghost var u, m := Here(), At();
      ghost var lawful := m.Recovers(u) && Planned2(u, m.stack, a, b) && Forgotten(m.memory);
      hide Recovering, Good, Law, UpToDate, Planned2, ApplyPages, ApplyStatics, SameOutside, Setup.Scratch, StoppedSomewhere;
      if Planned2(u, m.stack, a, b) && UpToDate(u, m.stack) {
        UpToDateIsIdle(u, m.stack, a, b);
      }
      var applied := ApplyBoth(statics, pages, a, b);
      if !applied {
        if lawful {
          StoppedLaw(u, m, a, b, Now());
        }
        return ApplyFailed;
      }
      if lawful {
        FinishedLaw(u, m, a, b, if !skipFailures && statics.failures != [] then ScriptsFailed else Done);
      }
      if !skipFailures && statics.failures != [] {
        return ScriptsFailed;
      }
      lastBuildId := if site.buildCache.entries == map[] then NoBuild else Built(site.buildCache.entries, site.generation);
      r := Done;
    }

    /** One build.  Each result it can have says what became of the disk and the caches. */
    method Build() returns (r: BuildResult)
      requires site.staticCache != site.buildCache
      modifies this`lastBuildId, disk, site`objCache, site`renderCache, site`scriptCache, site.staticCache, site.buildCache
      ensures r.Skipped? <==> old(lastBuildId != NoBuild && lastBuildId == IdOf(site.buildCache.entries, site.generation))
      ensures old(At().Recovers(Here()) && Here().Regular(disk.files)) ==> Law(Here(), old(At()), Some(r), At())
      ensures old(Valid() && Here().Regular(disk.files)) ==>
        Outcome(Here(), old(Now()), Now(), r) && (r.ApplyFailed? || Valid())
      ensures old(Valid() && Here().Regular(disk.files) && UpToDate(Here(), Now())) ==> disk.mutations == old(disk.mutations)
    {
      ghost var u, m := Here(), At();
      hide Good, Recovering, Law, UpToDate, Setup.Regular, Remembers, Outcome, Reached, Setup.Scratch;
      ghost var good, recovering := m.IsGood(u), m.Recovers(u);
      if good {
        GoodIsRecovering(u, m.stack, m.memory);
      }
      r := BuildFrom();
      if good && u.Regular(m.stack.files) {
        LawReaches(u, m, r, At());
      }
    }

    method BuildFrom() returns (r: BuildResult)
      requires site.staticCache != site.buildCache
      modifies this`lastBuildId, disk, site`objCache, site`renderCache, site`scriptCache, site.staticCache, site.buildCache
      ensures r.Skipped? <==> old(lastBuildId != NoBuild && lastBuildId == IdOf(site.buildCache.entries, site.generation))
      ensures old(At().Recovers(Here()) && Here().Regular(disk.files)) ==> Law(Here(), old(At()), Some(r), At())
      ensures old(At().Recovers(Here()) && Here().Regular(disk.files) && UpToDate(Here(), Now())) ==> disk.mutations == old(disk.mutations)
    {
      ghost var u, m := Here(), At();
      ghost var recovering := m.Recovers(u) && u.Regular(disk.files);
      assert recovering ==> Remembers(u, disk.files, m.memory);
      hide Good, Recovering, Law, UpToDate, Setup.Regular, Remembers, Planned2, Setup.Statics, Setup.Pages, Setup.Scratch, SameOutside;
      var id := if site.buildCache.entries == map[] then NoBuild else Built(site.buildCache.entries, site.generation);
      if id != NoBuild && lastBuildId == id {
        if recovering {
          SkippedLaw(u, m);
        }
        return Skipped;
      }
      var snapshot := disk.files;
      var ok, statics, pages := PlanBoth(snapshot);
      ghost var a, b := AimOf(statics, map[]), AimOf(pages, map[]);
      if recovering {
        PlannedLaw(u, m, At().memory);
        if ok {
          a, b := AimOf(statics, u.Statics(snapshot).value), AimOf(pages, u.Pages(snapshot).value);
        }
      }
      if !ok {
        return PlanFailed;
      }
      ghost var planned := At();
      r := Finish(statics, pages, a, b);
      if recovering {
        LawFromPlanned(u, m, planned, r, At());
      }
    }

    method Step(e: Event) returns (r: Option<BuildResult>)
      requires site.staticCache != site.buildCache && EditsSources(site.manifest, e)
      modifies this`lastBuildId, disk, site`objCache, site`generation, site`renderCache, site`scriptCache,
               site.staticCache, site.buildCache
      ensures e.BuildEvent? <==> r.Some?
      ensures old(At().Recovers(Here()) && (e.BuildEvent? ==> Here().Regular(disk.files))) ==> Law(Here(), old(At()), r, At())
    {
      hide Good, Recovering, Law, UpToDate, Setup.Regular;
      r := None;
      match e {
        case WriteEvent(path, contents) => var _ := WriteFile(path, contents);
        case DeleteEvent(path) => var _ := DeleteFile(path);
        case RenameEvent(from, to) => var _ := RenameFile(from, to);
        case BuildEvent =>
          var result := Build();
          r := Some(result);
      }
    }

    /** Any run of edits and builds, going on whatever fails: the moments it goes through, each
        step of which obeys the law. */
    method Run(events: seq<Event>) returns (results: seq<Option<BuildResult>>, ghost moments: seq<Moment>)
      requires site.staticCache != site.buildCache
      requires forall e | e in events :: EditsSources(site.manifest, e)
      modifies this`lastBuildId, disk, site`objCache, site`generation, site`renderCache, site`scriptCache,
               site.staticCache, site.buildCache
      ensures |results| == |events| && forall i | 0 <= i < |events| :: events[i].BuildEvent? <==> results[i].Some?
      ensures |moments| == |events| + 1 && moments[0] == old(At()) && moments[|events|] == At()
      ensures IsRun(Here(), results, moments)
    {
      hide Law, Setup.Regular, EditsSources, Recovering;
      assert IsRun(Here(), [], [At()]);
      hide IsRun;
      results, moments := [], [At()];
      for i := 0 to |events|
        invariant |results| == i && forall j | 0 <= j < i :: events[j].BuildEvent? <==> results[j].Some?
        invariant |moments| == i + 1 && moments[0] == old(At()) && moments[i] == At()
        invariant IsRun(Here(), results, moments)
      {
        assert events[i] in events;
        var r := Step(events[i]);
        RunGrows(Here(), results, moments, r, At());
        results, moments := results + [r], moments + [At()];
      }
    }
  }

  /** Steps that only keep paths leave every cached path cached. */
  lemma {:induction false} KeptStaysCached(s: State, kept: seq<(Path, Digest)>)
    ensures forall p | p in s.cache :: p in StateAfter(s, {}, PlanSteps([], kept, [])).cache
  {
    var steps := PlanSteps([], kept, []);
    assert steps == KeepSteps(kept);
    if kept != [] {
      var n := |kept| - 1;
      assert KeepSteps(kept)[..n] == KeepSteps(kept[..n]);
      assert PlanSteps([], kept[..n], []) == KeepSteps(kept[..n]);
      KeptStaysCached(s, kept[..n]);
    }
  }

  datatype Event =
    | WriteEvent(path: Path, contents: string)
    | DeleteEvent(path: Path)
    | RenameEvent(from: Path, to: Path)
    | BuildEvent

  /** Nobody but a build writes under the build dir. */
  predicate EditsSources(m: Manifest, e: Event) {
    match e
    case WriteEvent(path, _) => !(m.buildDir <= path)
    case DeleteEvent(path) => !(m.buildDir <= path)
    case RenameEvent(from, to) => !(m.buildDir <= from) && !(m.buildDir <= to)
    case BuildEvent => true
  }

  /** Empty caches are right about an empty build dir. */
  lemma EmptyCachesAreGood(u: Setup, files: map<Path, string>)
    requires Apart(u.m) && forall p | p in files :: !(u.m.buildDir <= p)
    ensures Good(u, Stack(files, map[], map[]), Memory(map[], map[], map[], 0, NoBuild))
  {
    hide UpToDate;
  }

  /** The whole story: from an empty build dir, after any run of edits and builds that ends
      with a build and in which none failed halfway, the build dir holds exactly what building
      the current sources from scratch would write there, or that build fails too.  With builds
      that did fail, a last build that finishes leaves it so if and only if its kept pages stood. */
  method WholeRun(x: Externals, defs: seq<Definition>, m: Manifest, files: map<Path, string>, skip: bool, events: seq<Event>)
    returns (archival: Archival, results: seq<Option<BuildResult>>, ghost moments: seq<Moment>)
    requires Apart(m) && forall p | p in files :: !(m.buildDir <= p)
    requires forall e | e in events :: EditsSources(m, e)
    ensures fresh(archival) && archival.Here() == Setup(x, m, defs, skip)
    ensures |results| == |events| && |moments| == |events| + 1
    ensures RegularRun(Setup(x, m, defs, skip), results, moments)
              && events != [] && events[|events| - 1].BuildEvent? && (forall i | 0 <= i < |results| :: results[i] != Some(ApplyFailed)) ==>
      results[|events| - 1].Some? &&
      match results[|events| - 1].value
      case PlanFailed => FromScratch(x, m, defs, SourcesOf(m, archival.disk.files), skip).None?
      case _ => FromScratch(x, m, defs, SourcesOf(m, archival.disk.files), skip)
                  == Some(Outputs(archival.disk.files, m.buildDir))
    ensures RegularRun(Setup(x, m, defs, skip), results, moments)
              && events != [] && (results[|events| - 1] == Some(Done) || results[|events| - 1] == Some(ScriptsFailed)) ==>
      (UpToDate(Setup(x, m, defs, skip), archival.Now()) <==> Stands(Setup(x, m, defs, skip), moments[|events| - 1].stack))
  {
    hide FromScratch, Setup.Regular, Setup.Scratch, IsRun, RegularRun, Law, Stands, Recovering, Good, EditsSources, Apart, Reached, UpToDate;
    archival := StartEmpty(x, defs, m, files, skip);
    ghost var u := Setup(x, m, defs, skip);
    results, moments := archival.Run(events);
    if RegularRun(u, results, moments) && events != [] && events[|events| - 1].BuildEvent? {
      WholeRunEnds(u, results, moments);
      if forall i | 0 <= i < |results| :: results[i] != Some(ApplyFailed) {
        ReachedMeans(x, defs, m, skip, archival.Now(), results[|events| - 1].value);
      }
    }
  }

  method StartEmpty(x: Externals, defs: seq<Definition>, m: Manifest, files: map<Path, string>, skip: bool) returns (archival: Archival)
    requires Apart(m) && forall p | p in files :: !(m.buildDir <= p)
    ensures fresh(archival) && fresh(archival.disk) && fresh(archival.site)
    ensures fresh(archival.site.staticCache) && fresh(archival.site.buildCache) && archival.site.staticCache != archival.site.buildCache
    ensures archival.site.manifest == m && archival.Here() == Setup(x, m, defs, skip)
    ensures archival.At().IsGood(archival.Here())
  {
    var site := new Site(x, defs, m);
    var disk := new Disk(files);
    archival := new Archival(site, disk, skip);
    EmptyCachesAreGood(Setup(x, m, defs, skip), files);
    hide Good;
  }

  lemma ReachedMeans(x: Externals, defs: seq<Definition>, m: Manifest, skip: bool, s: Stack, r: BuildResult)
    requires Reached(Setup(x, m, defs, skip), s, r)
    ensures match r
            case PlanFailed => FromScratch(x, m, defs, SourcesOf(m, s.files), skip).None?
            case _ => FromScratch(x, m, defs, SourcesOf(m, s.files), skip) == Some(Outputs(s.files, m.buildDir))
  {
    hide FromScratch;
  }

  lemma WholeRunEnds(u: Setup, results: seq<Option<BuildResult>>, moments: seq<Moment>)
    requires IsRun(u, results, moments) && RegularRun(u, results, moments) && moments[0].IsGood(u)
    requires results != [] && results[|results| - 1].Some?
    ensures (forall i | 0 <= i < |results| :: results[i] != Some(ApplyFailed)) ==>
              Reached(u, moments[|results|].stack, results[|results| - 1].value)
    ensures results[|results| - 1] == Some(Done) || results[|results| - 1] == Some(ScriptsFailed) ==>
              (UpToDate(u, moments[|results|].stack) <==> Stands(u, moments[|results| - 1].stack))
  {
    hide Recovering, Good, UpToDate, Setup.Regular, Stands, Reached, Law;
    var n := |results| - 1;
    GoodIsRecovering(u, moments[0].stack, moments[0].memory);
    if forall i | 0 <= i < |results| :: results[i] != Some(ApplyFailed) {
      GoodRunReaches(u, results, moments, 0, n);
    }
    if results[n] == Some(Done) || results[n] == Some(ScriptsFailed) {
      FinishedBuildsIff(u, results, moments, n);
    }
  }
}
