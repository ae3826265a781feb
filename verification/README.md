# Verification of the archival site builder

archival builds a static site from a directory of TOML objects, liquid pages, layouts, static
files and scripts. This project models the parts of it whose correctness is a matter of state
and order rather than of formatting, in Dafny, and proves what they are for.

- **The incremental build.** A build plans its writes and deletes against a snapshot and then
  applies them, statics first and pages beneath them. Pages whose recorded reads still sign the
  same are not rendered again. `Templates.dfy`, `Context.dfy` and `Reuse.dfy` show that reuse is
  sound; `WritePlan.dfy`, `PlanLaws.dfy` and `Layers.dfy` what plans keep and reach, finished or
  stopped; `Builds.dfy`, `Planning.dfy`, `Drafts.dfy` and `Site.dfy` that planning through every
  cache aims at exactly what a build from scratch would write; `BuildLaws.dfy` and `PageNames.dfy`
  which files those are and what is in them, one at a time, and `TemplateMeaning.dfy` that the
  layers and the recording leave what a template means as it is; `Archival.dfy` that any run of
  edits and builds ends with exactly those files, and exactly when it still does after builds
  that failed halfway; `Manifest.dfy` that accepted manifests keep
  the build dir apart from what is read; `ObjectCache.dfy` that the object cache is never stale
  under any interleaving of writers, readers and planners.
- **The liquid rewriter.** `LiquidText.dfy`, `LiquidScanner.dfy`, `LiquidRewrite.dfy` and
  `LiquidRewriter.dfy` prove the scanners and the rewriting loop against specifications over
  text; `LiquidAnchors.dfy`, `LiquidLaws.dfy`, `LiquidGrowth.dfy` and `LiquidBoundary.dfy` the
  source map;
  `LiquidTemplates.dfy` and `LiquidReading.dfy` that a scanner which only sees bytes performs
  the transformation of the template's structure; `LiquidSettled.dfy` and `LiquidUnsettled.dfy`
  when doing it twice changes nothing; `LiquidLines.dfy` what each kind of line, tag and output
  becomes, character for character.
- **The filesystem mutex.** `FileSystemMutex.dfy`: a relaxed atomic, a lock, poisoning and a
  drop guard, as interleaved steps where a load may return any write not older than the last
  one its thread saw.
- **The in-memory filesystem.** `MemoryPaths.dfy`, `FileGraph.dfy` and `MemoryFileSystem.dfy`: a
  flat map of files and a graph of directories that must agree.
- **Values.** `ValuePath.dfy` and `PathText.dfy`: edits directed by paths, and paths as text.
  `FieldValues.dfy` and `FieldReading.dfy`: validation and the TOML form. `Markdown.dfy`: liquid in
  markdown code. `TypescriptDefs.dfy`: fresh names for nested definitions.

Libraries the code calls (the pluraliser, the object parser, the script compiler, markdown and
post-processing, the order of directory walks) are function-valued parameters, so the theorems
hold for all of them. A hash or signature is the content it stands for. Text in the rewriter has
one character per byte of the UTF-8 source. `dafny verify dfyconfig.toml` checks everything.

## Findings

For each of these a lemma shows the failure, on one input or on a whole family of them, and
another says exactly when the code does what it promises; for rewriting twice, only when it
surely does.

- An object type that pluralises to `site_url` takes the signature of the global of that name
  (`Context.SiteUrlTypeHidesTheGlobal`, `Context.SignsIffNoSiteUrlType`).
- Anchors are cut to 32 bits, and the rewritten text can pass 2^32 bytes when the source does
  not (`LiquidGrowth.ShortSourceOverflows`). Sources of up to 976,128,933 bytes never do, and of
  every greater length some source does (`LiquidGrowth.LengthIsSafeIff`).
- An offset in inserted text can resolve into the middle of a character
  (`LiquidBoundary.InsertedLandsInsideCharacter`), which the tests in
  src/liquid_rewrite.rs:716-745 rule out for their samples; `LiquidBoundary.EveryOffsetLandsIff`
  says for which sources none does.
- Rewriting is not idempotent on every template (`LiquidUnsettled.CommentJoinsBraces`,
  `LiquidUnsettled.CloseInsideOutput`, `LiquidSettled.RewritingTwice`).
- A build dir may lead into a source dir through `..` or `.`
  (`Manifests.ClimbingBuildDirIsAccepted`, `Manifests.DottedBuildDirIsAccepted`,
  `Manifests.BuildDirIsSafeIff`).
- Renaming an object onto a cached name leaves a stale object
  (`ObjectCaches.RenameOntoUsedNameIsStale`, `ObjectCaches.RenameKeepsInvIff`,
  `ObjectCaches.RenameAmongPlannersIff`).
- In the in-memory filesystem, deleting an absent path beneath a file, removing a directory next
  to one whose name it is a prefix of, and renaming a file to itself or to a path beneath itself
  all go wrong (`FileGraphs.DeleteKeepsExactIff`, `FileGraphs.RemoveKeepsExactIff`,
  `MemoryFileSystems.MemoryFileSystem.Rename`).
- A page kept where a static file is deleted is lost until it changes. It takes a build that
  failed halfway to get there (`Layers.LostPageIsReachable`); `Archivals.StandsIff` and
  `Archivals.FinishedBuildsIff` say when later builds lose nothing.
- A chain of editor types that runs into a cycle is followed for ever
  (`FieldValues.CyclicAliasNeverEnds`, `FieldValues.NeverEndsIff`).
- A set of a field below a root key that is missing or holds no children changes nothing and
  reports success (`ValuePaths.UnsettableIsIgnored`, `ValuePaths.SetDoneIff`).
- A key that a child lacks makes the rest of a path read at the root
  (`ValuePaths.MissingKeyReadsTheNext`, `ValuePaths.ReadsTheLastReached`).
- A `.csv` page builds to `.css` (`PageNames.ExtensionIsKeptIff`), and `a.liquid.orig` is a page
  (`PageNames.IsPageIff`).
- Listing a directory, but not walking it, shows what lies in a directory beside it whose name
  goes on after its own (`MemoryFileSystems.MemoryFileSystem.ListDir`).
- An unknown display type panics (`FieldValues.UnknownDisplayTypePanics`,
  `FieldValues.ReadPanicsIff`), and so does setting a child as though it were a field
  (`ValuePaths.SettingAChildPanics`, `ValuePaths.SetPanicsIff`).

## Model

| member | source | states |
|---|---|---|
| Templates.EverythingPinsContext | src/page.rs:133-166 | Two contexts whose whole-context signatures agree are the same context, and every other signature of them agrees too. |
| Templates.GetAgrees | src/page.rs:468-526 | A layered lookup of a key finds the same thing in two contexts that sign alike on what it noted, and notes the same reads. |
| Templates.IndexAllAgrees | src/page.rs:311-392 | Following a path into a looked-up value, through the recorded `objects` map or not, agrees under the same condition. |
| Templates.LookupAgrees | src/page.rs:404-526 | Reading a dotted variable, from loop locals or from the layered context, agrees under the same condition. |
| Templates.RenderAgrees | src/page.rs:296-526 | Two contexts whose signatures agree on every read a template noted drive it to the same output and the same reads, failures included, through branches, loops, includes and enumerations. |
| Templates.RenderEachAgrees | src/page.rs:296-526 | The same for the body of a loop over a looked-up list. |
| Templates.EmptinessAgrees | src/page.rs:397-425 | The same for the enumeration of the merged context. |
| TemplateMeanings.GetIsOverlayThenBase | src/page.rs:468-526 | A layered lookup finds what the page's own layer holds, and otherwise what the shared context holds. |
| TemplateMeanings.LookupIsRead | src/page.rs:404-526 | Following a dotted name through loop variables, layers and the recorded `objects` view reaches what following it in one plain map does. |
| TemplateMeanings.RendersAsOneMap | src/page.rs:296-526 | Where objects count as true, and as empty just when they have no members, a render of any template over the layers has the text, or the failure, of a plain interpreter over the one map in which the page's layer covers the shared one. |
| TemplateMeanings.NotesOnlyReads | src/page.rs:296-392 | A render notes only keys and types its template or a partial it can reach names, and the whole context only where one of them enumerates it. |
| Context.SignsIffNoSiteUrlType | src/page.rs:205-270 | The signatures built beside a context sign it truly if and only if no object type pluralises to `site_url`. |
| Context.SiteUrlTypeHidesTheGlobal | src/page.rs:244-250 | A concrete site with such a type where two different `site_url` values sign the same and render differently. |
| Context.PerObjectFinds | src/page.rs:223-242 | The per-object signature of a type and filename signs exactly that object's value. |
| Context.SignMembers | src/page.rs:223-242 | The inner loop over one type's members adds exactly their signatures. |
| Context.BuildContext | src/page.rs:210-268 | The loops over objects produce exactly the base context and its signatures. |
| TemplateMeanings.ContextHolds | src/page.rs:205-270 | A template reads the site's url, each type in `objects` under its name, and the same value under its plural, or singular for a single object, where no later type takes that name. |
| TemplateMeanings.ObjectHolds | src/page.rs:666-702 | An object reads as its own values, with its path and order over them. |
| WritePlans.WritePlan.Record | src/site.rs:184-200 | An output the cache already holds is kept without bytes or directory; any other is written, with its directory if it has one. |
| WritePlans.WritePlan.DeleteUnvisited | src/site.rs:209-219 | Exactly the cached paths the plan did not visit are added to the deletes, once each. |
| WritePlans.WritePlan.ApplyBeneath | src/site.rs:235-271 | Disk and cache end as after a prefix of the plan's steps, the whole of it on success, whatever fails; a plan whose writes are all shadowed and that deletes nothing does not touch the disk. |
| WritePlans.StateAfterConcat | src/site.rs:241-270 | Applying steps in two stretches is applying them in one. |
| PlanLaws.EveryStepDescribes | src/site.rs:221-271 | After every step, also where a failed write or delete stopped the plan, each cached path the layer above does not hold has on disk the content its hash names. |
| PlanLaws.EveryStepIsNeverWrong | src/site.rs:221-271 | The weaker promise that survives a lost file: after every step a cached path the layer above does not hold never has other contents on disk than its hash names. |
| PlanLaws.PlannedTwiceMisdescribes | src/site.rs:184-206 | A path planned twice, written and kept, ends with a hash the disk does not have: destinations have to be distinct. |
| PlanLaws.EveryStepAccounts | src/site.rs:235-271 | No step leaves a file under the build dir that neither cache knows. |
| PlanLaws.FilesOutsideAreKept | src/site.rs:235-271 | A plan changes no file and no cache entry outside the directory its paths lie in. |
| PlanLaws.RealisesIsHonest | src/site.rs:184-219 | A plan that realises its outputs keeps no path it also writes or deletes. |
| PlanLaws.FinishedPlanSettles | src/site.rs:235-271 | Where one path ends after a finished plan: as targeted, left to the layer above, or untouched. |
| PlanLaws.FinishedPlanReachesTarget | src/site.rs:235-271 | A finished plan leaves exactly its outputs on disk and in the cache, and nothing in the cache that the layer above holds. |
| Layers.UncoveredPageIsLost | src/site.rs:812-850 | A page planned as unchanged, whose file is gone or is a static file's that is going, is missing from the finished build. |
| Layers.LostPageIsReachable | src/lib.rs:256-291 | Three builds, the second stopped halfway, that end without a page: the concrete stack the loss needs. |
| Layers.CompleteBuildIff | src/lib.rs:256-291 | From whatever earlier failures left, applying statics and then pages leaves exactly the static outputs over the pages if and only if every kept page stands; where the caches describe the disk that means none is uncovered, and from disjoint caches none is. |
| Layers.CompleteBuildKeepsConsistent | src/lib.rs:256-291 | A complete build that loses nothing leaves the caches disjoint, true and equal to its targets, and touches nothing outside the build dir. |
| Layers.StoppedBuildIsRecoverable | src/lib.rs:256-291 | Wherever applying stops, also after earlier failures and losses, the static cache describes the disk, the page cache names no file with other contents, every output is in one of them, and nothing outside the build dir changed. |
| Layers.StoppedBuildIsConsistent | src/lib.rs:256-291 | Wherever applying the two plans stops, both caches still describe the disk, every output is in one of them, and nothing outside the build dir changed. |
| Layers.RepeatedBuildIsIdle | src/site.rs:184-219 | Planning outputs that are already there asks for no write and no delete but writes to shadowed pages, which applying skips. |
| Builds.SourcesUnaffected | src/manifest.rs:594-614 | When the build dir shares nothing with a source dir, what a build writes changes nothing a planner reads. |
| Builds.PagesUnderBuildDir | src/site.rs:976-1187 | Every page, sitemap and robots destination lies under the build dir. |
| Builds.StaticsUnderBuildDir | src/site.rs:812-900 | Every static and script destination lies under the build dir. |
| Builds.ReadEntriesAreFor | src/site.rs:685-754 | Reading objects yields one entry per definition, in order, each holding objects of that type only. |
| BuildLaws.SourcesHold | src/site.rs:569-579 | Objects, pages, layouts, static files and scripts are exactly the files beneath their own dirs, by their paths from there. |
| BuildLaws.ReadListIsStableSort | src/site.rs:719-754 | Where the order is one, the objects of a type are a stable sort of the files that parse: in order, and those alike as they were walked. |
| BuildLaws.EntryIs | src/site.rs:685-754 | A type with files in its own dir is the list of those `.toml` files that parse; one with a file of its name is that object; with both, or a single file that does not parse, reading fails. |
| BuildLaws.PageOutputsAre | src/site.rs:969-1221 | Every path the pages build to, and its contents: the rendering of an object's page by a readable template of its type; the rendering of a file whose name parses and is neither a partial nor a type's template, at its directory under its name and extension; or a default sitemap or robots file where neither is built. |
| BuildLaws.PageOutputsFailIff | src/site.rs:969-1187 | The pages fail to build if and only if there is no object or no page file, an entry cannot be read, or, failures not being skipped, a template is missing or does not parse or some page does not render. |
| BuildLaws.RenderedOnce | src/site.rs:1009-1187 | With distinct destinations no path has two renderings, so what it holds is determined. |
| BuildLaws.OverlayHolds | src/page.rs:666-702 | A page's own layer is its name and, under the name of its type, its object with path, order and type name. |
| BuildLaws.PageTextIs | src/site.rs:1297-1371 | A page's rendering is its template's text over that one map, post-processed; there is none when the template does not parse or fails. |
| BuildLaws.StaticOutputsAre | src/site.rs:805-961 | Every path a static sync builds to, and its contents: a static file's, or a script's, JavaScript as it is and TypeScript compiled. |
| BuildLaws.StaticOutputsFailIff | src/site.rs:853-900 | A static sync fails to plan if and only if a script lands on a static file's path. |
| BuildLaws.StaticsStay | src/site.rs:805-900 | Where it does not fail, every static file is copied with its own contents. |
| BuildLaws.ExtensionIff | src/page.rs:73-83 | A template builds with its type's extension: html by default, css for css and csv, and its own for any other. |
| PageNames.NamesAreRead | src/page.rs:34-71 | A file written as a name, an extension and `.liquid` is read as that name and type, and one without an extension as a default page. |
| PageNames.IsPageIff | src/page.rs:34-71 | A file name is read as a page's if and only if `.liquid` stands anywhere in it after its first character. |
| PageNames.PartialIff | src/liquid_parser.rs:20 | A partial's name starts with an underscore and has `.liquid` somewhere after another character. |
| PageNames.ExtensionIsKeptIff | src/page.rs:49-84 | Reading an extension and building with its type gives the extension back if and only if it is neither `csv` nor empty. |
| Reuse.NameFromDest | src/page.rs:74-84 | A page's name can be read back from its destination, whatever extension it was built with. |
| Reuse.OverlayFromSignature | src/page.rs:666-702 | Pages with the same destination and overlay signature render over the same overlay. |
| Reuse.DepsAgree | src/site.rs:128-157 | Recorded reads that still sign the same are reads on which then and now agree. |
| Reuse.ReuseIsSound | src/site.rs:112-157 | If `reusable` accepts a record of any age, rendering the page now would yield the recorded output. |
| Reuse.NewRecordIsTrue | src/site.rs:1297-1371 | The record stored after a render is true of that render, unless some read cannot be signed, when none is stored. |
| Planning.PlannedRealises | src/site.rs:184-219 | Recording every output and then deleting the unvisited realises the targeted outputs. |
| Planning.OneTypePerPath | src/site.rs:665-674 | An object path belongs to one object type only. |
| Planning.JobsAreGood | src/site.rs:1009-1187 | Every page to render lies where its destination says and carries the object signature of its own overlay. |
| Drafts.DraftPageAims | src/site.rs:1297-1371 | Reused or rendered, a page enters the plan with exactly its fresh rendering, and every stored record stays true. |
| Drafts.RenderedIsReusedIff | src/site.rs:112-157 | The record of a fresh render is accepted again if and only if what it is compared with, the partials, the source, the object and each noted read, still signs the same and its output is still the one written. |
| Drafts.ReusedIsKept | src/site.rs:1297-1371 | A page whose record is accepted is kept with the recorded output, and nothing is rendered or recorded. |
| Drafts.DraftJobsAim | src/site.rs:1009-1187 | Planning all pages accounts for exactly what rendering all of them from scratch produces, and fails exactly when that fails. |
| Drafts.DraftSitemapAims | src/site.rs:1189-1221 | The default sitemap and robots are added exactly where no page was built to them, over the pages alone. |
| Sites.CoherentAfterEdit | src/site.rs:608-619 | An object cache that is right stays right after an edit, once the edited paths are dropped from it. |
| Sites.Site.InvalidateFile | src/site.rs:608-619 | Drops exactly one path from the object cache and bumps the generation. |
| Sites.Site.ObjectForPath | src/site.rs:756-796 | Against a snapshot the cache is right for, returns the snapshot's parse and keeps the cache right; a new parse enters the cache if and only if the snapshot's generation is still current. |
| Sites.Site.GetObjectsAt | src/site.rs:569-579 | Reads every object through the cache as though there were none; nothing cached is lost or changed, and nothing enters for an old generation. |
| Sites.Site.PlanPage | src/site.rs:1297-1371 | One page is planned as specified: reused, rendered or failed, with the record it leaves. |
| Sites.Site.PlanSitemap | src/site.rs:1189-1221 | Sitemap and robots are recorded as specified. |
| Sites.Site.PlanBuild | src/site.rs:969-1187 | Whatever the caches hold, if they are true the plan realises exactly the outputs `BuildLaws.PageOutputsAre` spells out, fails exactly when they do, and leaves the caches true. |
| Sites.Site.PlanStaticSync | src/site.rs:805-850 | The plan realises exactly the outputs `BuildLaws.StaticOutputsAre` spells out, and fails exactly when they do. |
| Sites.Site.PlanTypeScript | src/site.rs:918-961 | A script is kept without compiling if and only if both its source and its last output stand; otherwise it is compiled and written if its output changed, or noted as failed with its last output kept. |
| Sites.Site.PlanScripts | src/site.rs:853-900 | Every script is planned to its own destination, over the statics already planned. |
| Archivals.EditKeepsGood | src/lib.rs:763-777 | An edit outside the build dir that invalidates what it touched keeps everything later builds rely on, and keeps what can be recovered from. |
| Archivals.SkipIsSound | src/lib.rs:238-248 | If the last build's id still stands, the build dir already is a from-scratch build of the sources. |
| Archivals.UnchangedIsSkipped | src/lib.rs:238-248 | In every run, a build right after one that was done and has pages, with no edit between, is skipped and changes nothing. |
| Archivals.FinishedBuildIff | src/lib.rs:250-296 | After any history of failed builds, a finished build leaves exactly a from-scratch build of its sources if and only if every page it keeps unwritten is still there and is no static file's output; and then all is as if none had failed. |
| Archivals.StandsIff | src/lib.rs:256-291 | After one failed build the next loses a page exactly where both caches hold a path whose page is unchanged and whose static file is gone. |
| Archivals.FinishedBuildIsUpToDate | src/lib.rs:250-296 | While no build failed halfway, a finished build leaves exactly a from-scratch build of its sources, however many pages were reused, and everything later builds rely on. |
| Archivals.StoppedBuildIsHarmless | src/lib.rs:256-291 | A build whose applying failed halfway changed no source, kept what the next can recover from, and left caches that described the disk describing it. |
| Archivals.UpToDateIsIdle | src/lib.rs:250-291 | With no edits in between, the plans of a second build ask for nothing the disk would see. |
| Archivals.RunRecovers | src/lib.rs:227-296 | However many builds of a run fail halfway, what the next ones need is kept. |
| Archivals.RunKeepsGood | src/lib.rs:227-296 | From any good moment of a run everything stays good until a build fails halfway. |
| Archivals.FinishedBuildsIff | src/lib.rs:227-296 | In every run, failed builds included, a finished build is up to date if and only if its kept pages stood; and then the run is good again. |
| Archivals.GoodRunReaches | src/lib.rs:227-296 | From a good moment on, each build of a run reaches its outputs, or fails because a from-scratch build does, until one fails halfway. |
| Archivals.SkippedBuildsIff | src/lib.rs:238-248 | In every run, failed builds included, a skipped build leaves what the last build that was done left, and is up to date if and only if that one's kept pages stood. |
| Archivals.Archival.WriteFile | src/lib_fs.rs:49-55 | Writing a source file and invalidating it keeps the invariant, also after failed builds. |
| Archivals.Archival.DeleteFile | src/lib_fs.rs:63-69 | Deleting a source file and invalidating it keeps the invariant, also after failed builds. |
| Archivals.Archival.RenameFile | src/lib_fs.rs:70-80 | Renaming a source file and invalidating both paths keeps the invariant, also after failed builds. |
| Archivals.Archival.Build | src/lib.rs:227-296 | A build skips, finishes with the build dir equal to a from-scratch build, or fails changing no source; when already up to date it makes no write and no delete. After failed builds it obeys the law each step of a run does. |
| Archivals.Archival.Run | src/lib.rs:227-296 | Any run of edits and builds, going on whatever fails, passes from moment to moment by steps that obey that law. |
| Archivals.WholeRun | src/lib.rs:203-296 | From empty caches and an empty build dir, any run of source edits and builds that ends in a build leaves under the build dir exactly the files a from-scratch build of the current sources would write, if no build failed halfway; if some did, a finished last build does so if and only if its kept pages stood. |
| Manifests.ValidateBuildDir | src/manifest.rs:594-614 | Reports the first source dir that the build dir lies in or that lies in it, in the order they are checked. |
| Manifests.AcceptedIffNothingShared | src/manifest.rs:594-614 | A manifest is accepted if and only if no list of components extends both the build dir and a source dir. |
| Manifests.ScriptsStayInside | src/manifest.rs:618-632 | Where scripts build to, if anywhere, lies under the build dir. |
| Manifests.PlainAcceptedIffApart | src/manifest.rs:594-614 | With directories of plain names, a manifest is accepted if and only if no resolved path lies under both the build dir and a source dir. |
| Manifests.ClimbingBuildDirIsAccepted | src/manifest.rs:605 | A build dir that climbs out with `..` and back into a source dir is accepted all the same. |
| Manifests.DottedBuildDirIsAccepted | src/manifest.rs:605 | So is `./objects` beside `objects`. |
| Manifests.BuildDirIsSafeIff | src/manifest.rs:594-614 | A build dir is apart from every plain source dir it does not overlap as written if and only if it is plain itself or leads to a place neither above nor beneath the dir that paths are read from. |
| Manifests.AcceptedManifestIsApart | src/manifest.rs:594-632 | For dirs of names and `.`, joined onto any root, the disjointness the builds rest on holds exactly when the names alone are accepted; such a manifest is never refused, and without `.` the check decides it. |
| ObjectCaches.StepKeepsInv | src/site.rs:608-619 | Every step of mutators, which read as well as write, of live readers and of planners keeps cached objects equal to live parses, but at a path between its write and its invalidation. |
| ObjectCaches.RunKeepsInv | src/site.rs:754-796 | The same after any number of steps of any interleaving. |
| ObjectCaches.ReadersAreNeverStale | src/site.rs:643-662 | In every run, whoever reads inside `with_fs` gets the parse of the live file, a mutator at every path it is not in the middle of writing. |
| ObjectCaches.CurrentPlannersReadTheirSnapshot | src/site.rs:756-796 | A planner that is still current reads its own snapshot through the cache. |
| ObjectCaches.ReadStaysCached | src/site.rs:756-796 | What a reader cached stays cached, whatever runs, until its own path is invalidated. |
| ObjectCaches.LiveIsLastWritten | src/lib_fs.rs:49-80 | A live file is what was last written at its path, and gone if its path was last deleted. |
| ObjectCaches.PlannersCacheWhileCurrent | src/site.rs:756-796 | What a planner parses enters the cache while its generation is current, and nothing does once it is not. |
| ObjectCaches.RenameKeepsInvIff | src/lib.rs:595-618 | A whole rename that invalidates only its old path keeps the invariant if and only if the new path was not cached, or was cached with exactly the parse of the moved contents. |
| ObjectCaches.RenameAmongPlannersIff | src/lib.rs:595-618 | However planners' parses fall among the rename's steps, it keeps the invariant if and only if the new path was neither cached nor open to a current planner, or held nothing that parses, or parses the same before and after. |
| ObjectCaches.RenameOntoUsedNameIsStale | src/lib.rs:612-614 | A run that renames onto a cached name ends with a reader getting the object that is gone. |
| FileSystemMutexes.OwnKeyIffInside | src/file_system_mutex.rs:74-78 | A relaxed load of the owner, however stale, returns the thread's own key if and only if the thread is already inside. |
| FileSystemMutexes.StepKeepsInv | src/file_system_mutex.rs:74-87 | Every step of every interleaving keeps the protocol's invariant. |
| FileSystemMutexes.RunKeepsInv | src/file_system_mutex.rs:55-87 | The invariant holds in every state of every run. |
| FileSystemMutexes.NestingIsWhatIsRefused | src/file_system_mutex.rs:69-78 | In every run nesting is always refused and never waits, and contention is never refused as nesting. |
| FileSystemMutexes.AtMostOneInside | src/file_system_mutex.rs:66-87 | In every run at most one thread is inside the closure. |
| FileSystemMutexes.NothingRunsAfterAPanic | src/file_system_mutex.rs:79-86 | In every run, once a closure panicked no thread is ever inside again. |
| FileSystemMutexes.PoisonedIffPanicked | src/file_system_mutex.rs:79-87 | In every run the mutex is poisoned if and only if a closure has panicked and its call has let go of the lock. |
| FileSystemMutexes.WithoutPanicNobodyIsTurnedAway | src/file_system_mutex.rs:66-87 | In a run where no closure panics no call fails as poisoned, and a waiting thread can take the lock whenever it is free. |
| FileSystemMutexes.CallGoesThrough | src/file_system_mutex.rs:66-87 | On a free mutex that is not poisoned an outer call is never blocked: it checks, locks, runs and lets go, leaves every other thread where it was, and poisons if and only if its closure panicked. |
| FileSystemMutexes.PoisonedCallFails | src/file_system_mutex.rs:79-83 | On a poisoned mutex the same call is turned away, and changes nothing but what its thread has seen. |
| FileSystemMutexes.WaitersCanAdvance | src/file_system_mutex.rs:81-83 | When the lock is free a waiting thread can take it, or is refused if it is poisoned; when it is held its holder has a step to take. |
| MemoryPaths.AboveParent | src/file_system_memory.rs:277-294 | What lies above a path is its parent and what lies above that. |
| MemoryPaths.StripUndoesJoin | src/file_system_memory.rs:252-264 | Stripping a directory off a path undoes joining it on, and succeeds on nothing that merely extends its name. |
| FileGraphs.NodeIffFileBeneath | src/file_system_memory.rs:164-169 | In an exact graph a directory node exists if and only if some file lies beneath it. |
| FileGraphs.LinkMakesExact | src/file_system_memory.rs:277-294 | Walking up from a new file makes the graph exact. |
| FileGraphs.UnlinkMakesExact | src/file_system_memory.rs:352-372 | Walking up from a removed path makes the graph exact although it stops at the first node that keeps an entry. |
| FileGraphs.WriteKeepsExact | src/file_system_memory.rs:267-294 | A write to a path that is no directory and lies beneath no file keeps the graph exact. |
| FileGraphs.DeleteKeepsExactIff | src/file_system_memory.rs:340-382 | Deleting a path that is no directory keeps the graph exact if and only if no file lies above the path. |
| FileGraphs.RemoveKeepsExactIff | src/file_system_memory.rs:340-373 | Removing a path as a directory keeps the graph exact if and only if no outside file extends its name as a string, or it is absent with no file above. |
| MemoryFileSystems.MemoryFileSystem.WriteToGraph | src/file_system_memory.rs:277-294 | The loop over ancestors links the path and every directory above it. |
| MemoryFileSystems.MemoryFileSystem.UnlinkUpward | src/file_system_memory.rs:352-372 | The loop over ancestors unlinks the path and stops where it may. |
| MemoryFileSystems.MemoryFileSystem.Write | src/file_system_memory.rs:194-202 | Fails exactly on a directory, otherwise sets one file; both maps still agree if and only if no file lies above the path. |
| MemoryFileSystems.MemoryFileSystem.Delete | src/file_system_memory.rs:186-193 | Fails exactly on a directory, otherwise removes one file; both maps still agree if and only if no file lies above the path. |
| MemoryFileSystems.MemoryFileSystem.RemoveDirAll | src/file_system_memory.rs:170-173 | Removes every file whose path extends the directory's as a string; both maps still agree if and only if those are the files beneath it. |
| MemoryFileSystems.MemoryFileSystem.Rename | src/file_system_memory.rs:206-216 | Moves one file's contents, and both maps still agree if and only if no file lay above the new path; onto itself it loses the file, and onto a path beneath itself it fails with the new file written. |
| MemoryFileSystems.MemoryFileSystem.AllChildren | src/file_system_memory.rs:310-338 | Lists each directory and file key that passes the filter, once: those that extend the path as a string, of any depth or just one further. |
| MemoryFileSystems.MemoryFileSystem.ListDir | src/file_system_memory.rs:225-238 | Lists each entry of the directory once; it lists nothing else if and only if no directory beside it has a name that its own is a proper prefix of. |
| MemoryFileSystems.MemoryFileSystem.WalkDir | src/file_system_memory.rs:231-266 | Lists each file strictly beneath the directory exactly once as a relative path and nothing else, and each directory too if asked. |
| MemoryFileSystems.VisitedListAll | src/file_system_memory.rs:239-264 | Over an exact graph, what the visited nodes list relative to the directory is what lies beneath it. |
| LiquidText.ScanFindsFirst | src/liquid_rewrite.rs:293-322 | The scan finds the first delimiter outside every string literal, and fails just when there is none. |
| LiquidText.TrimmedSuffix | src/liquid_rewrite.rs:361-364 | A suffix of a statement whose end is trimmed has a trimmed end. |
| LiquidScanners.TagEndIsFirst | src/liquid_rewrite.rs:417-419 | A comment ends at its first `%}`, quoted or not. |
| LiquidScanners.ScanToAt | src/liquid_rewrite.rs:297-322 | The nested loops over bytes find what the quote automaton finds, in range, and end. |
| LiquidScanners.ReadTagName | src/liquid_rewrite.rs:423-452 | The name read at an offset depends only on the text from there, a trailing hyphen included. |
| LiquidScanners.FindTagEndAt | src/liquid_rewrite.rs:417-419 | The search for a comment's close finds its first one from an offset. |
| LiquidScanners.FindLiquidTagEnd | src/liquid_rewrite.rs:380-413 | The line-by-line loops find what a character automaton with comment lines and literals finds. |
| LiquidScanners.SkipRawBlock | src/liquid_rewrite.rs:457-477 | Skipping ends after the first `endraw` tag the tag-by-tag reading meets, or at the end of the text. |
| LiquidAnchors.AnchorsLawful | src/liquid_rewrite.rs:80-109 | Anchors of pieces copied in order ascend in both components and stay inside both texts. |
| LiquidAnchors.ToSourceIsMonotone | src/liquid_rewrite.rs:117-137 | A later offset never resolves earlier, and none past the source's end. |
| LiquidAnchors.ExactOnCopied | src/liquid_rewrite.rs:117-137 | On every copied byte the way back is exact. |
| LiquidRewrites.BodyInRange | src/liquid_rewrite.rs:175-203 | A hyphen before a close is never the tag name's, so a body does not end before it starts. |
| LiquidRewrites.EchoIsSuffix | src/liquid_rewrite.rs:342-364 | An echo's expression is the end of its statement, so it is anchored where it stands. |
| LiquidRewrites.StatementSpelled | src/liquid_rewrite.rs:337-358 | The pieces of one statement are copied from its own line and read as its tag. |
| LiquidRewrites.ScanSpells | src/liquid_rewrite.rs:149-266 | The pieces of a rewriting are copied from the source in order and spell the rewritten text. |
| LiquidRewriters.NothingToRewrite | src/liquid_rewrite.rs:150-153 | A source without an opening delimiter is left as it is. |
| LiquidRewriters.ExpandStatements | src/liquid_rewrite.rs:328-334 | The loop over lines appends each statement's tag, as `LiquidLines` spells it out, and its anchors, narrowed to 32 bits. |
| LiquidRewriters.ReadStep | src/liquid_rewrite.rs:162-253 | At every offset the branches over bytes decide as the specification does, every index and slice in range. |
| LiquidRewriters.RewriteTemplateMapped | src/liquid_rewrite.rs:149-266 | For every source the loop ends with the specified text and anchors, and with no anchors when nothing was rewritten; `LiquidLines` and `LiquidReadings.ScannerIsTransform` say what that text is. |
| LiquidLaws.NarrowedAscendsIff | src/liquid_rewrite.rs:105-109 | Kept in 32 bits, anchors never 2^32 apart stay in order if and only if none overflows. |
| LiquidLaws.RecordedIff | src/liquid_rewrite.rs:98-109 | For every source under 2^32 bytes, the anchors recorded are the ones meant if and only if the rewritten text fits 32 bits up to the last of them. |
| LiquidLaws.AnchorsAscendIff | src/liquid_rewrite.rs:98-109 | A rewriting's recorded anchors ascend if and only if the rewritten text fits 32 bits up to the last of them, for every source at least 14 bytes short of 2^32. |
| LiquidGrowth.AnchorsComeRound | src/liquid_rewrite.rs:105-109 | At each of the 13 lengths that leaves, a source whose anchor wraps all the way round: they ascend although the text does not fit. |
| LiquidLaws.MappingIsExact | src/liquid_rewrite.rs:98-137 | For every source that fits, every copied byte resolves to the byte it was copied from. |
| LiquidLaws.ResolvesInOrder | src/liquid_rewrite.rs:98-137 | For every source that fits, resolving is monotone and stays inside the source. |
| LiquidGrowth.RewrittenGrows | src/liquid_rewrite.rs:149-266 | Rewriting makes at most twenty-two bytes of every five, whatever the source. |
| LiquidGrowth.ShortSourcesFit | src/liquid_rewrite.rs:98-109 | Every source of at most 976,128,933 bytes has a rewritten text, and so anchors, that fit 32 bits. |
| LiquidGrowth.LengthIsSafeIff | src/liquid_rewrite.rs:98-109 | Below 2^32, all sources of one length keep their anchors in order if and only if that length is at most 976,128,933. |
| LiquidGrowth.ShortSourceOverflows | src/liquid_rewrite.rs:105-109 | A source of a billion bytes, well under 2^32, whose recorded anchors do not ascend. |
| LiquidBoundary.CopiedLandsOnBoundaryIff | src/liquid_rewrite.rs:716-745 | In copied text an offset resolves to a character boundary if and only if it stands on one. |
| LiquidBoundary.ContinuesIff | src/liquid_rewrite.rs:716-745 | A byte continues a character if and only if it lies between 128 and 191. |
| LiquidBoundary.BetweenAnchors | src/liquid_rewrite.rs:117-137 | An offset between two anchors counts on from the first and stops at the second. |
| LiquidBoundary.EveryOffsetLandsIff | src/liquid_rewrite.rs:716-745 | Every offset on a character boundary of the rewritten text resolves to one of the source if and only if no character of the source goes on at a byte reached by the text inserted between two copied stretches. |
| LiquidBoundary.InsertedLandsInsideCharacter | src/liquid_rewrite.rs:716-745 | A concrete `liquid` tag where an offset between two statements resolves into the middle of a character, against what the tests expect of every offset. |
| LiquidReadings.ReadsTag | src/liquid_rewrite.rs:213-215 | A well-formed tag is copied whole. |
| LiquidReadings.ReadsOutput | src/liquid_rewrite.rs:217-251 | A well-formed output statement is read as its text and whitespace control. |
| LiquidReadings.ReadsRaw | src/liquid_rewrite.rs:167-168 | A well-formed raw block is copied whole. |
| LiquidReadings.ReadsSpecial | src/liquid_rewrite.rs:169-212 | A well-formed comment, `liquid` or `echo` tag is read as its body, with the trimming its hyphens ask for. |
| LiquidReadings.ScannerIsTransform | src/liquid_rewrite.rs:149-266 | On every well-formed template the scanner's text is the structured transformation. |
| LiquidLines.EchoedStatement | src/liquid_rewrite.rs:337-364 | A line whose statement is `echo`, ASCII white space and a trimmed expression becomes `{% __archival_out `, the expression and ` %}`. |
| LiquidLines.EchoedRest | src/liquid_rewrite.rs:342-364 | A longer statement that starts with `echo` and a break always has something to echo, and echoes it trimmed. |
| LiquidLines.SilentStatement | src/liquid_rewrite.rs:337-364 | A blank line, a `#` line and a bare `echo` become nothing. |
| LiquidLines.OtherStatement | src/liquid_rewrite.rs:337-350 | Every other statement becomes itself between `{% ` and ` %}`. |
| LiquidLines.LinesBecome | src/liquid_rewrite.rs:328-334 | The text of several lines becomes what each becomes, in order. |
| LiquidLines.LiquidTagBecomes | src/liquid_rewrite.rs:169-212 | In a source, a well-formed `liquid` tag becomes the tags of its lines, with the white space its hyphens name trimmed on either side, and what follows is rewritten on its own. |
| LiquidLines.EchoTagBecomes | src/liquid_rewrite.rs:169-212 | In a source, a well-formed `echo` tag becomes an output tag of its trimmed body, or nothing for a blank one. |
| LiquidLines.CommentBecomes | src/liquid_rewrite.rs:169-212 | In a source, an inline comment becomes nothing, and its hyphens still trim. |
| LiquidLines.OutputBecomes | src/liquid_rewrite.rs:217-251 | In a source, a well-formed output becomes an output tag of its trimmed text with the same hyphens, and nothing around it is trimmed. |
| LiquidLines.UnclosedTagIsKept | src/liquid_rewrite.rs:183-215 | A tag that is never closed keeps its delimiter, and what follows is rewritten as though it were text. |
| LiquidLines.UnclosedOutputIsLast | src/liquid_rewrite.rs:217-226 | An output that is never closed leaves all the rest as it is. |
| LiquidLines.BlankOutputIsKept | src/liquid_rewrite.rs:231-238 | An output with nothing but white space in it is kept, and what follows is rewritten. |
| LiquidLines.UnclosedRawIsLast | src/liquid_rewrite.rs:457-477 | A raw tag with no `endraw` after it leaves all the rest as it is. |
| LiquidLines.LiteralHides | src/liquid_rewrite.rs:293-322 | A string literal in either quote hides the delimiters it holds. |
| LiquidLines.LiteralIsSkipped | src/liquid_rewrite.rs:380-413 | In a `liquid` tag a literal hides what it holds, newlines included. |
| LiquidLines.CommentIsSkipped | src/liquid_rewrite.rs:380-413 | In a `liquid` tag a comment line is read to its newline, and its quotes open nothing. |
| LiquidLines.MarkOpens | src/liquid_rewrite.rs:380-413 | In a `liquid` tag a line is a comment if its first mark is `#`, and else a statement. |
| LiquidLines.ClosesUnlessQuoted | src/liquid_rewrite.rs:380-413 | In a `liquid` tag `%}` closes on any line, everywhere but in a literal. |
| LiquidLines.NameOf | src/liquid_rewrite.rs:423-452 | A tag's name is its leading letters, digits, `_` and `-`, by their character codes. |
| LiquidLines.SpaceIsUnicode | src/liquid_rewrite.rs:337-364 | What trimming takes is exactly the UTF-8 of the characters Unicode calls white space. |
| LiquidSettled.LoweredPrints | src/liquid_rewrite.rs:149-266 | A rewritten template is itself the print of a template of text, tags and raw blocks. |
| LiquidSettled.RewritingTwice | src/liquid_rewrite.rs:652-663 | Rewriting twice is rewriting once on well-formed templates where no `%}` stands bare in an output, no statement expands again and no braces join. |
| LiquidUnsettled.CommentJoinsBraces | src/liquid_rewrite.rs:652-663 | A template where removing a comment joins two braces, and a second rewriting changes it. |
| LiquidUnsettled.CloseInsideOutput | src/liquid_rewrite.rs:652-663 | A template with a `%}` inside an output statement, where a second rewriting changes it. |
| ValuePaths.GetIsResolveIff | src/value_path.rs:313-345 | A read returns what a field path names if and only if no plain value and no index past the end blocks the way; otherwise it returns the last value reached. |
| ValuePaths.ReadsTheLastReached | src/value_path.rs:313-345 | A read ends at the last value its path names, unless the rest goes on to a key of a child that value has. |
| ValuePaths.MissingKeyReadsTheNext | src/value_path.rs:319-345 | A key its object lacks, at the root or at any depth, makes the rest of the path read at the root. |
| ValuePaths.SetThenGet | src/value_path.rs:557-628 | After a successful set the path resolves to the value, or to nothing on removal, and the list it goes through has grown to hold the index and no further. |
| ValuePaths.SetKeepsApart | src/value_path.rs:557-628 | A set, successful or not, leaves every path apart from it resolving as before. |
| ValuePaths.FailedSetOnlyGrows | src/value_path.rs:609-621 | A set that fails has grown the list and changed nothing else. |
| ValuePaths.SetDoneIff | src/value_path.rs:557-628 | Below a list at the root a set succeeds if and only if it is in a child of that list, which grows, or in one that a nested list holds. |
| ValuePaths.UnsettableIsIgnored | src/value_path.rs:584-607 | A set of a field below a root key that is missing or holds no children changes nothing, and still reports success. |
| ValuePaths.FieldPathsDoNotPanic | src/value_path.rs:557-628 | No field path makes a set panic. |
| ValuePaths.SetPanicsIff | src/value_path.rs:557-628 | Over every object and path, setting panics if and only if the path, from its first known key on, ends in the index of a child: any index into a root list, which grows, or one that a nested list holds. |
| ValuePaths.SettingAChildPanics | src/value_path.rs:562-563 | Setting a child rather than a field of it panics, at the root and below. |
| ValuePaths.AddThenRemove | src/value_path.rs:462-507 | Removing the child just added, at any depth and index, restores the whole object. |
| ValuePaths.AddedIsThere | src/value_path.rs:462-487 | An add succeeds exactly on a list that reaches its index, and puts the child there among the others in order. |
| ValuePaths.RemovedIsGone | src/value_path.rs:489-507 | A removal succeeds if and only if its path ends in an index, the list before it is there and holds that index; it takes out that child alone, and otherwise names what was wrong. |
| ValuePaths.AddFailsOtherwise | src/value_path.rs:462-487 | An add without a list, or past the end of one, fails with the error that says so. |
| ValuePaths.KnownKeyIsFirst | src/value_path.rs:508-554 | An edit passes over keys the root lacks and starts at the first one it has. |
| ValuePaths.ListIsResolved | src/value_path.rs:508-554 | The list an edit finds is the list its path resolves to. |
| ValuePaths.EditsKeepApart | src/value_path.rs:462-507 | Adding or removing a child leaves every path apart from its list resolving as before. |
| ValuePaths.Object.GetInObject | src/value_path.rs:313-345 | The loop reads as specified. |
| ValuePaths.Object.SetInObject | src/value_path.rs:584-628 | The loops set, grow and fail as specified. |
| ValuePaths.Object.FindChildren | src/value_path.rs:508-554 | The walk finds the list an edit works on. |
| ValuePaths.Object.AddChild | src/value_path.rs:462-487 | Adds one child, which removing undoes; on failure the object is unchanged. |
| ValuePaths.Object.RemoveChild | src/value_path.rs:489-507 | Succeeds and fails exactly as `ValuePaths.RemovedIsGone` spells out, removing one child or leaving the object unchanged. |
| PathTexts.PrintThenParseIff | src/value_path.rs:99-169 | Printing then parsing is the identity, on paths whose keys have no dot and are no numerals, if and only if the path is not the single empty key. |
| PathTexts.ParsePrintParse | src/value_path.rs:99-169 | Parsing, printing and parsing again is parsing, for every text. |
| PathTexts.SplitJoined | src/value_path.rs:102-110 | Splitting joined parts gives the parts back. |
| PathTexts.DecimalParses | src/value_path.rs:156-163 | An index's decimal form parses as that index if and only if it is less than 18,446,744,073,709,551,616. |
| PathTexts.IndexIsRead | src/value_path.rs:156-163 | Digits, leading zeros included, parse as the number they spell if it is below that limit, and as a key if not. |
| PathTexts.SignIsDropped | src/value_path.rs:160-163 | One leading plus does not keep digits from being an index. |
| PathTexts.OthersAreKeys | src/value_path.rs:160-163 | A part with any other character, or without a digit, is a key. |
| PathTexts.FromString | src/value_path.rs:156-168 | The loop pushes the parsed components in order. |
| FieldValues.SecretThroughAliases | src/fields/field_type.rs:131-150 | A type is secret if and only if its base type is. |
| FieldValues.BaseType | src/fields/field_type.rs:144-150 | The loop ends at the built-in type behind every alias. |
| FieldValues.FoundBase | src/fields/field_type.rs:151-186 | A type name is read if and only if its chain of editor types ends in a built-in, which is then its base. |
| FieldValues.NeverEndsIff | src/fields/field_type.rs:157-186 | Reading a type name never ends if and only if following its chain for as many steps as there are editor types still stands on an alias. |
| FieldValues.CyclicAliasNeverEnds | src/fields/field_type.rs:172-179 | A name on a cycle of any length is never read, however deep the recursion goes. |
| FieldValues.FileReadsBack | src/fields/file.rs:188-242 | A file reads back unchanged from its TOML table, as any upload type. |
| FieldValues.FillAllIsFilled | src/fields/file.rs:188-235 | Filling succeeds exactly when every known key can be read, and the last entry of each key is then what its field holds. |
| FieldValues.FillPanicsIff | src/fields/file.rs:188-235 | Filling panics if and only if the first entry that cannot be read is a `display_type` with a text that names none. |
| FieldValues.ReadPanicsIff | src/fields/field_value.rs:1025-1204 | Reading a value of any type panics if and only if it comes, through aliases and unions, to an upload whose table does. |
| FieldValues.RoundTripIff | src/fields/field_value.rs:466-1204 | Every value the type rules accept, through any alias chain, reads back unchanged from its TOML form if and only if it holds no null; what else reads, `FieldReadings` says. |
| FieldReadings.BuiltInIsWritten | src/fields/field_type.rs:113-170 | A name is built in if and only if it is how some type is written, and it reads as that type. |
| FieldReadings.ScalarReadsIff | src/fields/field_value.rs:1025-1204 | Through any aliases, a text, number, boolean or enumeration type reads exactly the values it accepts, from exactly what they are written as, and a number from an integer too. |
| FieldReadings.IntegerReadsAsNumber | src/fields/field_value.rs:1079-1082 | Through any aliases, a number field reads an integer as that number, just as it reads the equal float. |
| FieldReadings.ScalarErrors | src/fields/field_value.rs:1025-1204 | What such a type cannot read is a mismatch, or for an unlisted text of an enumeration its own error. |
| FieldReadings.ForeignReads | src/fields/field_value.rs:1025-1204 | Dates come from a datetime or a text that converts, meta values from a table. |
| FieldReadings.EmptyTableReads | src/fields/field_value.rs:1025-1204 | An empty table reads as an empty file of the field's own type and its media type, which validates. |
| FieldReadings.TableReads | src/fields/file.rs:188-235 | A table that can be read fills in that empty file. |
| FieldReadings.OneofReadsIff | src/fields/field_value.rs:1025-1204 | A union reads exactly a table whose `type` names an option, with the value the first option of that name reads, or none if there is none. |
| FieldReadings.AcceptedIsReadBack | src/fields/field_value.rs:405-661 | A plain type accepts a plain value if and only if it reads back what the value is written as. |
| FieldReadings.ValidateOkIff | src/fields/field_value.rs:405-661 | A value is valid if and only if the outermost alias's validators approve it and the built-in type accepts it; for a union's value, its option's validators and built-in too. |
| FieldReadings.ValidatorsComeFirst | src/fields/field_value.rs:405-661 | What a validator turns away is reported as its failure, whatever else is wrong. |
| FieldValues.UnknownDisplayTypePanics | src/fields/file.rs:52-61 | The same two entries panic in one order and fail with an error in the other. |
| FieldValues.FillFromTomlMap | src/fields/file.rs:188-200 | The loop fills entry by entry in the table's order, and stops at the first that fails. |
| Markdown.NeutralizeLiquid | src/fields/field_value.rs:298-317 | Replaces exactly the braces that open a delimiter, and leaves none, or reports that there was none. |
| Markdown.NothingElseChanges | src/fields/field_value.rs:298-317 | Turning the sentinels back gives the code as it was written. |
| Markdown.EscapedInPlace | src/fields/field_value.rs:285-296 | Each sentinel comes out as the numeric character reference of a brace, and every other character as itself. |
| Markdown.EscapedCodeIsLeftAlone | src/fields/field_value.rs:273-317 | Neutralised and escaped code comes through the liquid rewriter as it is. |
| Markdown.MarkdownCache.Html | src/fields/field_value.rs:319-330 | Cached or not, the html is the source's own, and the cache stays bounded. |
| TypescriptDefs.PascalCase | src/typescript_defs.rs:73-97 | A base name is never empty, starts with a letter and is alphanumeric. |
| TypescriptDefs.WordIsCapitalised | src/typescript_defs.rs:73-97 | Each word of a name comes out with its first letter raised and the rest as it was, and separators do not come out. |
| TypescriptDefs.CandidatesDiffer | src/typescript_defs.rs:118-127 | The names tried for one base differ from each other. |
| TypescriptDefs.Emitter.Take | src/typescript_defs.rs:118-127 | Takes the first candidate nobody uses, found within one more try than there are used names. |
| TypescriptDefs.UnusedIsTaken | src/typescript_defs.rs:118-127 | A name nobody uses is taken as it is, the base with `Object` after it. |
| TypescriptDefs.Emitter.EmitObject | src/typescript_defs.rs:184-252 | Emits a definition before its children, at any depth, each with a name of its own, every child list naming its own child's interface. |
| TypescriptDefs.GenerateTypescriptDefs | src/typescript_defs.rs:282-334 | All interface names of a site are pairwise distinct and differ from the preamble's, and every root member names its own definition's interface. |

## Left out

- Distinct destinations: a plan does not check for them, two templates or a `.ts` and a `.js` may
  build to one path; `Planning.RegularPages` and `Planning.RegularScripts` assume they do not, and
  `PlanLaws.PlannedTwiceMisdescribes` shows what happens otherwise.
- Scripts that fail to compile: the last output is kept on purpose, so the build theorems assume
  they compile.
- Object types that pluralise to `site_url`: assumed away in the build theorems, after
  `Context.SignsIffNoSiteUrlType`.
- Includes nest to a bounded depth in the template interpreter; what lies deeper fails to render,
  where the source would go on, and on a cycle of includes for ever.
- `LayeredContext::to_value` is not recorded by the source and is not in the interpreter.
- Sequential runs only for the skip check: an edit that lands while a build plans is absorbed
  into the build id; `modify_manifest`, which does not invalidate, and options that differ
  between builds of one run are not among the events of a run.
- Every failure of the disk is all or nothing: a write or delete that fails has changed nothing.
- Filesystems that cannot make a snapshot, where the build holds the lock throughout.
- The parser and template caches, rendered object formats, `skip_static` and schema dumps.
- LiquidLaws.AnchorsAscendIff: leaves out the last 13 lengths below 2^32, at each of which it is
  false (`LiquidGrowth.AnchorsComeRound`).
- LiquidSettled.RewritingTwice: one direction only, because a template may fail one of its
  conditions and still happen to be left alone the second time.
- LiquidRewriters.RewriteTemplateMapped: borrowing the source when nothing was rewritten is the
  same text and no anchors; the saved copy is not modelled.
- Paths in the in-memory filesystem are lower case, relative and without empty components, as
  `normalize` and its callers leave them; entries that differ in case only are not modelled.
- The order in which `walk_dir` and `list_dir` list.
- What a page's name says and where a script builds to are parameters of the build model;
  `PageNames.dfy` has the former on its own, for any notion of a word character.
- ValuePaths.Object.SetInObject: nested maps and lists are values, so the mutable references the
  walk holds into them are not modelled; each edit rebuilds what it changed.
- `Objects` values in the TOML form, dates and meta values: nested objects are edited by value
  paths, and dates and meta values depend on code outside this model.
- FieldValues.ReadPanicsIff: panics inside the conversion of a meta value's dates are not among
  those it counts.
- Numbers are reals, so a not-a-number float is not among them.
- The texts of interfaces: member types, comments and quoting in the TypeScript output.
- Thread keys do not wrap around, and a debug build's panic in place of a refusal is not modelled.
- Liquid parsing and rendering, markdown, hashing, serialisation, the command line, servers,
  watching, uploads and native files.
