/** Two plans, one over the other: static files first, then pages beneath them. */
module Layers {
  import opened WritePlans
  import opened PlanLaws

  /** One plan's lists of steps, and the outputs they aim at. */
  datatype Aim = Aim(writes: seq<Write>, kept: seq<(Path, Digest)>, deletes: seq<Path>, target: map<Path, string>)
  {
    function Steps(): seq<Step> {
      PlanSteps(writes, kept, deletes)
    }

    ghost predicate From(cache: map<Path, Digest>) {
      Realises(writes, kept, deletes, target, cache)
    }
  }

  function Hashes(target: map<Path, string>): map<Path, Digest> {
    map p | p in target :: HashFile(target[p])
  }

  function Outputs(files: map<Path, string>, dir: Path): map<Path, string> {
    map p | p in files && dir <= p :: files[p]
  }

  function Unshadowed(pages: map<Path, string>, statics: map<Path, string>): map<Path, string> {
    map p | p in pages && p !in statics :: pages[p]
  }

  /** The disk and both caches, between builds or after part of one. */
  datatype Stack = Stack(files: map<Path, string>, statics: map<Path, Digest>, pages: map<Path, Digest>)

  /** Both caches describe the disk, and every output is in one of them. */
  ghost predicate Consistent(s: Stack, dir: Path) {
    && Describes(State(s.files, s.statics), {})
    && Describes(State(s.files, s.pages), s.statics.Keys)
    && (forall p | p in s.files && dir <= p :: p in s.statics || p in s.pages)
    && (forall p | p in s.statics || p in s.pages :: dir <= p)
  }

  function ApplyStatics(s: Stack, statics: Aim): Stack {
    var t := StateAfter(State(s.files, s.statics), {}, statics.Steps());
    Stack(t.files, t.cache, s.pages)
  }

  function ApplyPages(s: Stack, pages: Aim): Stack {
    var t := StateAfter(State(s.files, s.pages), s.statics.Keys, pages.Steps());
    Stack(t.files, s.statics, t.cache)
  }

  /** What is left of consistency whatever happened before, builds that failed halfway and
      builds that lost a page included: the page cache may name files that are gone. */
  ghost predicate Recoverable(s: Stack, dir: Path) {
    && Describes(State(s.files, s.statics), {})
    && NeverWrong(State(s.files, s.pages), s.statics.Keys)
    && (forall p | p in s.files && dir <= p :: p in s.statics || p in s.pages)
    && (forall p | p in s.statics || p in s.pages :: dir <= p)
  }

  lemma ConsistentIsRecoverable(s: Stack, dir: Path)
    ensures Consistent(s, dir) <==> Recoverable(s, dir) && forall p | p in s.pages && p !in s.statics :: p in s.files
  {
  }

  /** A page planned to be kept, and not to be shadowed, is there and is no static file's output. */
  ghost predicate KeptStands(s: Stack, statics: Aim, pages: Aim) {
    forall u | u in pages.kept && u.0 !in statics.target :: u.0 !in s.statics && u.0 in s.files
  }

  lemma StaticsReached(s: Stack, statics: Aim, dir: Path)
    requires Recoverable(s, dir) && statics.From(s.statics)
    ensures var s1 := ApplyStatics(s, statics);
            && s1.statics == Hashes(statics.target)
            && (forall p :: p in s1.files <==> (if p in s.statics then p in statics.target
                                                else p in statics.target || p in s.files))
            && (forall p | p in s1.files :: s1.files[p] == if p in statics.target then statics.target[p] else s.files[p])
  {
    FinishedPlanReachesTarget(State(s.files, s.statics), {}, statics.writes, statics.kept, statics.deletes, statics.target);
  }

  /** A page kept where a static file was deleted, or where its file is gone already, is missing
      from the finished build. */
  lemma UncoveredPageIsLost(s: Stack, statics: Aim, pages: Aim, dir: Path, u: (Path, Digest))
    requires Recoverable(s, dir) && statics.From(s.statics) && pages.From(s.pages)
    requires u in pages.kept && u.0 !in statics.target && (u.0 in s.statics || u.0 !in s.files)
    ensures u.0 in pages.target && u.0 !in ApplyPages(ApplyStatics(s, statics), pages).files
  {
    StaticsReached(s, statics, dir);
    var s1 := ApplyStatics(s, statics);
    RealisesSteps(pages.writes, pages.kept, pages.deletes, pages.target, s.pages);
    var steps := pages.Steps();
    KeepingLeavesFile(State(s1.files, s.pages), s1.statics.Keys, steps, u.0);
  }

  /** Where a path ends after both plans. */
  lemma PathReached(s: Stack, statics: Aim, pages: Aim, dir: Path, p: Path)
    requires Recoverable(s, dir) && statics.From(s.statics) && pages.From(s.pages)
    requires KeptStands(s, statics, pages)
    ensures var s2 := ApplyPages(ApplyStatics(s, statics), pages);
            && s2.statics == Hashes(statics.target)
            && (p in s2.pages <==> p in pages.target && p !in statics.target)
            && (p in s2.pages ==> s2.pages[p] == HashFile(pages.target[p]))
            && (p in s2.files <==> p in pages.target || p in statics.target
                                   || (p in s.files && p !in s.statics && p !in s.pages))
            && (p in s2.files ==>
                  s2.files[p] == if p in statics.target then statics.target[p]
                                 else if p in pages.target then pages.target[p]
                                 else s.files[p])
  {
    StaticsReached(s, statics, dir);
    var s1 := ApplyStatics(s, statics);
    forall u | u in pages.kept && u.0 == p && p !in s1.statics
      ensures p in s1.files && s1.files[p] == pages.target[p]
    {
      assert s.pages[p] == HashFile(s.files[p]);
    }
    FinishedPlanSettles(State(s1.files, s.pages), s1.statics.Keys, pages.writes, pages.kept, pages.deletes, pages.target, p);
  }

  lemma PagesReached(s: Stack, statics: Aim, pages: Aim, dir: Path)
    requires Recoverable(s, dir) && statics.From(s.statics) && pages.From(s.pages)
    requires KeptStands(s, statics, pages)
    requires forall p | p in statics.target || p in pages.target :: dir <= p
    ensures var s2 := ApplyPages(ApplyStatics(s, statics), pages);
            && Outputs(s2.files, dir) == pages.target + statics.target
            && s2.pages == Hashes(Unshadowed(pages.target, statics.target))
  {
    hide ApplyStatics, ApplyPages, KeptStands, Aim.From;
    PathReached(s, statics, pages, dir, dir);
    var s2 := ApplyPages(ApplyStatics(s, statics), pages);
    forall p
      ensures EndsAs(s2, statics, pages, dir, p)
    {
      PathReached(s, statics, pages, dir, p);
    }
    AllEnd(s2, statics, pages, dir);
  }

  /** One path at the end of a complete build. */
  ghost predicate EndsAs(s2: Stack, statics: Aim, pages: Aim, dir: Path, p: Path) {
    && (p in s2.pages <==> p in pages.target && p !in statics.target)
    && (p in s2.pages ==> s2.pages[p] == HashFile(pages.target[p]))
    && (dir <= p ==> (p in s2.files <==> p in pages.target || p in statics.target))
    && (p in statics.target ==> p in s2.files && s2.files[p] == statics.target[p])
    && (p in pages.target && p !in statics.target ==> p in s2.files && s2.files[p] == pages.target[p])
  }

  lemma AllEnd(s2: Stack, statics: Aim, pages: Aim, dir: Path)
    requires forall p | p in statics.target || p in pages.target :: dir <= p
    requires forall p :: EndsAs(s2, statics, pages, dir, p)
    ensures Outputs(s2.files, dir) == pages.target + statics.target
    ensures s2.pages == Hashes(Unshadowed(pages.target, statics.target))
  {
    var outputs, all := Outputs(s2.files, dir), pages.target + statics.target;
    forall p
      ensures p in outputs <==> p in all
      ensures p in all ==> outputs[p] == all[p]
    {
      assert EndsAs(s2, statics, pages, dir, p);
    }
    var cached := Hashes(Unshadowed(pages.target, statics.target));
    forall p
      ensures p in s2.pages <==> p in cached
      ensures p in cached ==> s2.pages[p] == cached[p]
    {
      assert EndsAs(s2, statics, pages, dir, p);
    }
  }

  /** A complete build leaves under `dir` exactly the static outputs and the unshadowed pages,
      if and only if every page it keeps stands.  Where both caches describe the disk that means
      none lies where the static plan deletes, and from disjoint caches none does. */
  lemma CompleteBuildIff(s: Stack, statics: Aim, pages: Aim, dir: Path)
    requires Recoverable(s, dir) && statics.From(s.statics) && pages.From(s.pages)
    requires forall p | p in statics.target || p in pages.target :: dir <= p
    ensures var s2 := ApplyPages(ApplyStatics(s, statics), pages);
            Outputs(s2.files, dir) == pages.target + statics.target <==> KeptStands(s, statics, pages)
    ensures Consistent(s, dir) ==> (KeptStands(s, statics, pages) <==> forall u | u in pages.kept :: u.0 !in statics.deletes)
    ensures Consistent(s, dir) && s.statics.Keys !! s.pages.Keys ==> KeptStands(s, statics, pages)
  {
    if KeptStands(s, statics, pages) {
      PagesReached(s, statics, pages, dir);
    } else {
      var u :| u in pages.kept && u.0 !in statics.target && (u.0 in s.statics || u.0 !in s.files);
      UncoveredPageIsLost(s, statics, pages, dir, u);
      assert u.0 in pages.target + statics.target;
    }
  }

  /** A complete build that loses nothing leaves the caches disjoint and describing the disk,
      and touches nothing outside `dir`. */
  lemma CompleteBuildKeepsConsistent(s: Stack, statics: Aim, pages: Aim, dir: Path)
    requires Recoverable(s, dir) && statics.From(s.statics) && pages.From(s.pages)
    requires forall p | p in statics.target || p in pages.target :: dir <= p
    requires KeptStands(s, statics, pages)
    ensures var s2 := ApplyPages(ApplyStatics(s, statics), pages);
            && Consistent(s2, dir) && s2.statics.Keys !! s2.pages.Keys
            && s2.statics == Hashes(statics.target) && s2.pages == Hashes(Unshadowed(pages.target, statics.target))
            && (forall p | !(dir <= p) :: (p in s.files <==> p in s2.files) && (p in s.files ==> s.files[p] == s2.files[p]))
  {
    hide ApplyStatics, ApplyPages, KeptStands, Aim.From;
    PagesReached(s, statics, pages, dir);
    PathReached(s, statics, pages, dir, dir);
    var s2 := ApplyPages(ApplyStatics(s, statics), pages);
    forall p
      ensures PathSettled(s, s2, dir, p)
    {
      PathIsSettled(s, statics, pages, dir, p);
    }
    AllSettled(s, s2, dir);
  }

  lemma AllSettled(s: Stack, s2: Stack, dir: Path)
    requires forall p :: PathSettled(s, s2, dir, p)
    ensures Consistent(s2, dir) && s2.statics.Keys !! s2.pages.Keys
    ensures forall p | !(dir <= p) :: (p in s.files <==> p in s2.files) && (p in s.files ==> s.files[p] == s2.files[p])
  {
    forall p
      ensures p in s2.statics ==> p in s2.files && s2.statics[p] == HashFile(s2.files[p]) && dir <= p
      ensures p in s2.pages ==> p in s2.files && s2.pages[p] == HashFile(s2.files[p]) && dir <= p && p !in s2.statics
      ensures p in s2.files && dir <= p ==> p in s2.statics || p in s2.pages
      ensures !(dir <= p) ==> (p in s.files <==> p in s2.files) && (p in s.files ==> s.files[p] == s2.files[p])
    {
      assert PathSettled(s, s2, dir, p);
    }
  }

  /** At one path both caches tell the truth, and outside `dir` nothing changed. */
  ghost predicate PathSettled(s: Stack, s2: Stack, dir: Path, p: Path) {
    && (p in s2.statics ==> p in s2.files && s2.statics[p] == HashFile(s2.files[p]))
    && (p in s2.pages ==> p in s2.files && s2.pages[p] == HashFile(s2.files[p]) && dir <= p && p !in s2.statics)
    && (p in s2.files && dir <= p ==> p in s2.statics || p in s2.pages)
    && (p in s2.statics ==> dir <= p)
    && (!(dir <= p) ==> (p in s.files <==> p in s2.files) && (p in s.files ==> s.files[p] == s2.files[p]))
  }

  lemma PathIsSettled(s: Stack, statics: Aim, pages: Aim, dir: Path, p: Path)
    requires Recoverable(s, dir) && statics.From(s.statics) && pages.From(s.pages)
    requires forall q | q in statics.target || q in pages.target :: dir <= q
    requires KeptStands(s, statics, pages)
    ensures PathSettled(s, ApplyPages(ApplyStatics(s, statics), pages), dir, p)
  {
    hide ApplyStatics, ApplyPages, KeptStands, Aim.From;
    PathReached(s, statics, pages, dir, p);
  }

  /* ---- Builds that stop halfway ---- */

  /** The first `i` steps of the static plan, then the first `j` of the pages'. */
  function StoppedAt(s: Stack, statics: Aim, pages: Aim, i: nat, j: nat): Stack
    requires i <= |statics.Steps()| && j <= |pages.Steps()|
  {
    var t := StateAfter(State(s.files, s.statics), {}, statics.Steps()[..i]);
    var u := StateAfter(State(t.files, s.pages), t.cache.Keys, pages.Steps()[..j]);
    Stack(u.files, t.cache, u.cache)
  }

  ghost predicate StoppedSomewhere(s: Stack, statics: Aim, pages: Aim, s': Stack) {
    exists i: nat, j: nat :: i <= |statics.Steps()| && j <= |pages.Steps()| && s' == StoppedAt(s, statics, pages, i, j)
  }

  /** Static steps leave what the page cache says true: they touch only paths they hold, or
      take over paths that are then shadowed. */
  lemma {:induction false} StaticStepsKeepPages(s: Stack, steps: seq<Step>, i: nat)
    requires s.statics.Keys !! s.pages.Keys && Describes(State(s.files, s.pages), s.statics.Keys) && i <= |steps|
    requires forall k | 0 <= k < |steps| && steps[k].DeleteStep? :: steps[k].path in s.statics
    requires forall k | 0 <= k < |steps| && steps[k].KeepStep? :: steps[k].path in s.statics
    ensures var t := StateAfter(State(s.files, s.statics), {}, steps[..i]);
            forall p | p in s.pages && p !in t.cache :: p in t.files && s.pages[p] == HashFile(t.files[p])
    decreases i
  {
    if i > 0 {
      StaticStepsKeepPages(s, steps, i - 1);
      StateAfterOneMore(State(s.files, s.statics), {}, steps, i - 1);
    }
  }

  lemma StaticStepsAccount(s: Stack, statics: Aim, dir: Path, i: nat)
    requires Recoverable(s, dir) && i <= |statics.Steps()|
    ensures var t := StateAfter(State(s.files, s.statics), {}, statics.Steps()[..i]);
            Accounted(State(t.files, s.pages), t.cache.Keys, dir)
  {
    AccountedUnder(State(s.files, s.statics), s.pages.Keys, statics.Steps(), i, dir);
  }

  lemma {:induction false} AccountedUnder(s: State, below: set<Path>, steps: seq<Step>, i: nat, dir: Path)
    requires (forall p | p in s.files && dir <= p :: p in s.cache || p in below) && i <= |steps|
    ensures var t := StateAfter(s, {}, steps[..i]); forall p | p in t.files && dir <= p :: p in t.cache || p in below
    decreases i
  {
    if i > 0 {
      AccountedUnder(s, below, steps, i - 1, dir);
      StateAfterOneMore(s, {}, steps, i - 1);
    }
  }

  /** Steps beneath `dir` leave the rest of the disk alone, and cache nothing outside it. */
  lemma StopsInside(s: State, above: set<Path>, steps: seq<Step>, done: nat, dir: Path)
    requires done <= |steps| && (forall p | Mentions(steps, p) :: dir <= p) && (forall p | p in s.cache :: dir <= p)
    ensures forall p | !(dir <= p) :: SameAt(s, StateAfter(s, above, steps[..done]), p)
    ensures forall p | p in StateAfter(s, above, steps[..done]).cache :: dir <= p
  {
    forall k | 0 <= k < |steps|
      ensures dir <= steps[k].path
    {
      assert Mentions(steps, steps[k].path);
    }
    FilesOutsideAreKept(s, above, steps, done, dir);
    forall p | p in StateAfter(s, above, steps[..done]).cache
      ensures dir <= p
    {
      assert dir <= p || SameAt(s, StateAfter(s, above, steps[..done]), p);
    }
  }

  /** Wherever applying stops, and when it does not, what could be recovered from before still
      can be, and nothing outside `dir` changed. */
  lemma StoppedBuildIsRecoverable(s: Stack, statics: Aim, pages: Aim, dir: Path, i: nat, j: nat)
    requires Recoverable(s, dir) && statics.From(s.statics) && pages.From(s.pages)
    requires forall p | p in statics.target || p in pages.target :: dir <= p
    requires i <= |statics.Steps()| && j <= |pages.Steps()|
    ensures Recoverable(StoppedAt(s, statics, pages, i, j), dir)
    ensures forall p | !(dir <= p) :: p in s.files <==> p in StoppedAt(s, statics, pages, i, j).files
    ensures forall p | !(dir <= p) && p in s.files :: StoppedAt(s, statics, pages, i, j).files[p] == s.files[p]
  {
    hide Realises, PlanSteps, StateAfter;
    RealisesIsHonest(statics.writes, statics.kept, statics.deletes, statics.target, s.statics);
    RealisesSteps(statics.writes, statics.kept, statics.deletes, statics.target, s.statics);
    RealisesIsHonest(pages.writes, pages.kept, pages.deletes, pages.target, s.pages);
    RealisesSteps(pages.writes, pages.kept, pages.deletes, pages.target, s.pages);
    var a, b := State(s.files, s.statics), statics.Steps();
    EveryStepDescribes(a, {}, b, i);
    UncachedIsUntouched(a, b[..i]);
    StaticStepsAccount(s, statics, dir, i);
    var t := StateAfter(a, {}, b[..i]);
    var c := State(t.files, s.pages);
    EveryStepIsNeverWrong(c, t.cache.Keys, pages.Steps(), j);
    EveryStepAccounts(c, t.cache.Keys, pages.Steps(), j, dir);
    StopsInside(a, {}, b, i, dir);
    StopsInside(c, t.cache.Keys, pages.Steps(), j, dir);
    forall p | p in t.cache
      ensures var u := StateAfter(c, t.cache.Keys, pages.Steps()[..j]); p in u.files && t.cache[p] == HashFile(u.files[p])
    {
      FilesAboveAreKept(c, t.cache.Keys, pages.Steps()[..j], p);
    }
    forall p | !(dir <= p)
      ensures p in s.files <==> p in StoppedAt(s, statics, pages, i, j).files
      ensures p in s.files ==> StoppedAt(s, statics, pages, i, j).files[p] == s.files[p]
    {
      assert SameAt(a, t, p);
      assert SameAt(c, StateAfter(c, t.cache.Keys, pages.Steps()[..j]), p);
    }
  }

  /** Wherever applying stops, both caches still describe the disk, every output is still in
      one of them, and nothing outside `dir` changed. */
  lemma StoppedBuildIsConsistent(s: Stack, statics: Aim, pages: Aim, dir: Path, i: nat, j: nat)
    requires Consistent(s, dir) && s.statics.Keys !! s.pages.Keys && statics.From(s.statics) && pages.From(s.pages)
    requires forall p | p in statics.target || p in pages.target :: dir <= p
    requires i <= |statics.Steps()| && j <= |pages.Steps()|
    ensures Consistent(StoppedAt(s, statics, pages, i, j), dir)
    ensures forall p | !(dir <= p) :: p in s.files <==> p in StoppedAt(s, statics, pages, i, j).files
    ensures forall p | !(dir <= p) && p in s.files :: StoppedAt(s, statics, pages, i, j).files[p] == s.files[p]
  {
    hide Realises, PlanSteps, StateAfter;
    ConsistentIsRecoverable(s, dir);
    StoppedBuildIsRecoverable(s, statics, pages, dir, i, j);
    RealisesSteps(statics.writes, statics.kept, statics.deletes, statics.target, s.statics);
    RealisesIsHonest(pages.writes, pages.kept, pages.deletes, pages.target, s.pages);
    StaticStepsKeepPages(s, statics.Steps(), i);
    var t := StateAfter(State(s.files, s.statics), {}, statics.Steps()[..i]);
    EveryStepDescribes(State(t.files, s.pages), t.cache.Keys, pages.Steps(), j);
    ConsistentIsRecoverable(StoppedAt(s, statics, pages, i, j), dir);
  }

  /* ---- A page that is lost ---- */

  /** The static plan when a static file first lands on `p`, and when it is gone again; and the
      plan of two pages, `p` built before and `q` not. */
  function Covering(p: Path, file: string): Aim {
    Aim([Write(p, file, HashFile(file))], [], [], map[p := file])
  }

  function Uncovering(p: Path): Aim {
    Aim([], [], [p], map[])
  }

  function BothPages(p: Path, page: string, q: Path, other: string): Aim {
    Aim([Write(q, other, HashFile(other))], [(p, HashFile(page))], [], map[p := page, q := other])
  }

  lemma CoveringStops(p: Path, file: string, page: string, q: Path, other: string)
    requires p != q
    ensures |Covering(p, file).Steps()| == 1
    ensures StoppedAt(Stack(map[p := page], map[], map[p := HashFile(page)]), Covering(p, file), BothPages(p, page, q, other), 1, 0)
            == Stack(map[p := file], map[p := HashFile(file)], map[p := HashFile(page)])
  {
    var steps := Covering(p, file).Steps();
    assert steps == [WriteStep(p, file, HashFile(file))];
    assert steps[..1] == steps && steps[..0] == [];
    assert BothPages(p, page, q, other).Steps()[..0] == [];
    StateAfterOneMore(State(map[p := page], map[]), {}, steps, 0);
  }

  lemma CoveringAims(p: Path, file: string, page: string, q: Path, other: string)
    requires p != q
    ensures Covering(p, file).From(map[]) && Uncovering(p).From(map[p := HashFile(file)])
    ensures BothPages(p, page, q, other).From(map[p := HashFile(page)])
  {
    assert Covering(p, file).writes[0].path == p && Uncovering(p).deletes[0] == p;
    assert BothPages(p, page, q, other).kept[0].0 == p && BothPages(p, page, q, other).writes[0].path == q;
  }

  /** Three builds lose a page.  The first wrote it at `p`.  In the second a new static file
      shadows it, the statics are applied, and the pages' first write, of another page, fails, so
      both caches hold `p`.  In the third the static file is gone: it is deleted, and the page is
      kept unwritten. */
  lemma LostPageIsReachable(dir: Path, p: Path, file: string, page: string, q: Path, other: string)
    requires dir <= p && dir <= q && p != q
    ensures var first := Stack(map[p := page], map[], map[p := HashFile(page)]);
            && Consistent(first, dir) && first.statics.Keys !! first.pages.Keys
            && Covering(p, file).From(first.statics) && BothPages(p, page, q, other).From(first.pages)
            && |Covering(p, file).Steps()| == 1
            && var second := StoppedAt(first, Covering(p, file), BothPages(p, page, q, other), 1, 0);
            && Consistent(second, dir) && p in second.statics && p in second.pages
            && Uncovering(p).From(second.statics) && BothPages(p, page, q, other).From(second.pages)
            && p !in ApplyPages(ApplyStatics(second, Uncovering(p)), BothPages(p, page, q, other)).files
    ensures p in BothPages(p, page, q, other).target && p !in Uncovering(p).target
  {
    hide StoppedAt, Aim.From, ApplyPages, ApplyStatics, Aim.Steps;
    var pages := BothPages(p, page, q, other);
    CoveringStops(p, file, page, q, other);
    CoveringAims(p, file, page, q, other);
    var second := Stack(map[p := file], map[p := HashFile(file)], map[p := HashFile(page)]);
    ConsistentIsRecoverable(second, dir);
    assert pages.kept[0] == (p, HashFile(page));
    UncoveredPageIsLost(second, Uncovering(p), pages, dir, pages.kept[0]);
  }

  lemma NoMembers<T>(s: seq<T>)
    ensures (forall x :: x !in s) ==> s == []
  {
    if s != [] {
      assert s[0] in s;
    }
  }

  /** Planning the outputs that are already there asks for no write and no delete, but for
      writes to shadowed pages, which applying the plan skips. */
  lemma RepeatedBuildIsIdle(s: Stack, statics: Aim, pages: Aim)
    requires statics.From(s.statics) && pages.From(s.pages)
    requires s.statics == Hashes(statics.target)
    requires s.pages == Hashes(Unshadowed(pages.target, statics.target))
    ensures statics.writes == [] && statics.deletes == [] && pages.deletes == []
    ensures forall w | w in pages.writes :: w.path in s.statics
  {
    NoMembers(statics.writes);
    NoMembers(statics.deletes);
    NoMembers(pages.deletes);
    forall w | w in pages.writes
      ensures w.path in s.statics
    {
      assert w.path in Unshadowed(pages.target, statics.target) || w.path in statics.target;
    }
  }
}
