/** What applying plans keeps and reaches: the caches describe the disk after every step,
    failed or not, and a complete build leaves exactly the outputs it planned for. */
module PlanLaws {
  import opened WritePlans

  /** The cache describes the disk, except where the layer above holds the path. */
  ghost predicate Describes(s: State, above: set<Path>) {
    forall p | p in s.cache && p !in above :: p in s.files && s.cache[p] == HashFile(s.files[p])
  }

  ghost predicate Mentions(steps: seq<Step>, p: Path) {
    exists i :: 0 <= i < |steps| && steps[i].path == p
  }

  ghost predicate OnlyKept(steps: seq<Step>, p: Path) {
    forall i | 0 <= i < |steps| && steps[i].path == p :: steps[i].KeepStep?
  }

  /** What planning guarantees of a plan's steps: a write carries the hash of its contents,
      and a path is kept only if the cache holds its hash and no step before wrote or deleted it. */
  ghost predicate Honest(steps: seq<Step>, cache: map<Path, Digest>) {
    forall i | 0 <= i < |steps| ::
      match steps[i]
      case WriteStep(_, contents, hash) => hash == HashFile(contents)
      case KeepStep(p, hash) => p in cache && cache[p] == hash && OnlyKept(steps[..i], p)
      case DeleteStep(_) => true
  }

  ghost predicate SameAt(s: State, s': State, p: Path) {
    && (p in s.files <==> p in s'.files) && (p in s.files ==> s.files[p] == s'.files[p])
    && (p in s.cache <==> p in s'.cache) && (p in s.cache ==> s.cache[p] == s'.cache[p])
  }

  lemma MentionsSplits(steps: seq<Step>, p: Path)
    requires steps != []
    ensures Mentions(steps, p) <==> Mentions(steps[..|steps| - 1], p) || steps[|steps| - 1].path == p
  {
    var init := steps[..|steps| - 1];
    assert forall i | 0 <= i < |init| :: init[i] == steps[i];
    if i :| 0 <= i < |init| && steps[i].path == p {
      assert init[i].path == p;
    }
  }

  lemma {:induction false} UnmentionedIsUntouched(s: State, above: set<Path>, steps: seq<Step>, p: Path)
    requires !Mentions(steps, p)
    ensures SameAt(s, StateAfter(s, above, steps), p)
  {
    if steps != [] {
      var n := |steps| - 1;
      MentionsSplits(steps, p);
      UnmentionedIsUntouched(s, above, steps[..n], p);
    }
  }

  /** Keeping a path never touches its file. */
  lemma {:induction false} KeepingLeavesFile(s: State, above: set<Path>, steps: seq<Step>, p: Path)
    requires OnlyKept(steps, p)
    ensures p in s.files <==> p in StateAfter(s, above, steps).files
    ensures p in s.files ==> StateAfter(s, above, steps).files[p] == s.files[p]
  {
    if steps != [] {
      var init := steps[..|steps| - 1];
      assert forall i | 0 <= i < |init| :: init[i] == steps[i];
      KeepingLeavesFile(s, above, init, p);
    }
  }

  /** Nor does a plan touch a file the layer above holds. */
  lemma {:induction false} FilesAboveAreKept(s: State, above: set<Path>, steps: seq<Step>, p: Path)
    requires p in above
    ensures p in s.files <==> p in StateAfter(s, above, steps).files
    ensures p in s.files ==> StateAfter(s, above, steps).files[p] == s.files[p]
  {
    if steps != [] {
      FilesAboveAreKept(s, above, steps[..|steps| - 1], p);
    }
  }

  /** After any number of steps, so also where a failed write or delete stopped the plan,
      every cached path the layer above does not hold has on disk what its hash names. */
  lemma {:induction false} EveryStepDescribes(s: State, above: set<Path>, steps: seq<Step>, done: nat)
    requires Describes(s, above) && Honest(steps, s.cache) && done <= |steps|
    ensures Describes(StateAfter(s, above, steps[..done]), above)
    decreases done
  {
    if done > 0 {
      var n := done - 1;
      EveryStepDescribes(s, above, steps, n);
      StateAfterOneMore(s, above, steps, n);
      if steps[n].KeepStep? {
        KeepingLeavesFile(s, above, steps[..n], steps[n].path);
      }
    }
  }

  /** No cached path the layer above does not hold has on disk anything but what its hash names:
      its file may be gone, but is not another. */
  ghost predicate NeverWrong(s: State, above: set<Path>) {
    forall p | p in s.cache && p !in above && p in s.files :: s.cache[p] == HashFile(s.files[p])
  }

  lemma {:induction false} EveryStepIsNeverWrong(s: State, above: set<Path>, steps: seq<Step>, done: nat)
    requires NeverWrong(s, above) && Honest(steps, s.cache) && done <= |steps|
    ensures NeverWrong(StateAfter(s, above, steps[..done]), above)
    decreases done
  {
    if done > 0 {
      var n := done - 1;
      EveryStepIsNeverWrong(s, above, steps, n);
      StateAfterOneMore(s, above, steps, n);
      if steps[n].KeepStep? {
        KeepingLeavesFile(s, above, steps[..n], steps[n].path);
      }
    }
  }

  /** A file the plan's own cache does not hold at the end was there from the start. */
  lemma {:induction false} UncachedIsUntouched(s: State, steps: seq<Step>)
    ensures var t := StateAfter(s, {}, steps);
            forall p | p in t.files && p !in t.cache :: p !in s.cache && p in s.files && t.files[p] == s.files[p]
  {
    if steps != [] {
      UncachedIsUntouched(s, steps[..|steps| - 1]);
    }
  }

  /** Without the condition on kept paths it fails: a path planned twice, once to be written
      and once to be kept, ends with a hash the disk does not have. */
  lemma PlannedTwiceMisdescribes(p: Path, before: string, after: string)
    requires before != after
    ensures var s := State(map[p := before], map[p := HashFile(before)]);
            && Describes(s, {})
            && !Describes(StateAfter(s, {}, [WriteStep(p, after, HashFile(after)), KeepStep(p, HashFile(before))]), {})
  {
    var s := State(map[p := before], map[p := HashFile(before)]);
    var steps := [WriteStep(p, after, HashFile(after)), KeepStep(p, HashFile(before))];
    var none: set<Path> := {};
    StateAfterOneMore(s, none, steps, 0);
    StateAfterOneMore(s, none, steps, 1);
    assert steps[..2] == steps;
    var s2 := StateAfter(s, {}, steps);
    assert s2.files[p] == after && s2.cache[p] == HashFile(before);
  }

  /** No file beneath `dir` is unknown to both caches. */
  ghost predicate Accounted(s: State, above: set<Path>, dir: Path) {
    forall p | p in s.files && dir <= p :: p in s.cache || p in above
  }

  lemma {:induction false} EveryStepAccounts(s: State, above: set<Path>, steps: seq<Step>, done: nat, dir: Path)
    requires Accounted(s, above, dir) && done <= |steps|
    ensures Accounted(StateAfter(s, above, steps[..done]), above, dir)
    decreases done
  {
    if done > 0 {
      EveryStepAccounts(s, above, steps, done - 1, dir);
      StateAfterOneMore(s, above, steps, done - 1);
    }
  }

  /** A plan touches no path it does not mention. */
  lemma FilesOutsideAreKept(s: State, above: set<Path>, steps: seq<Step>, done: nat, dir: Path)
    requires forall i | 0 <= i < |steps| :: dir <= steps[i].path
    requires done <= |steps|
    ensures forall p | !(dir <= p) :: SameAt(s, StateAfter(s, above, steps[..done]), p)
  {
    forall p | !(dir <= p)
      ensures SameAt(s, StateAfter(s, above, steps[..done]), p)
    {
      UnmentionedIsUntouched(s, above, steps[..done], p);
    }
  }

  /* ---- Plans that aim at a set of outputs ---- */

  /** The steps turn what `cache` describes into `target`: every output is either written
      or already held, and everything else the cache holds is deleted. */
  ghost predicate Realises(writes: seq<Write>, kept: seq<(Path, Digest)>, deletes: seq<Path>,
                           target: map<Path, string>, cache: map<Path, Digest>) {
    && (forall w | w in writes :: w.path in target && w.contents == target[w.path] && w.hash == HashFile(w.contents)
                                  && !(w.path in cache && cache[w.path] == w.hash))
    && (forall u | u in kept :: u.0 in target && u.1 == HashFile(target[u.0]) && u.0 in cache && cache[u.0] == u.1)
    && (forall p | p in target :: (exists w :: w in writes && w.path == p) || (exists u :: u in kept && u.0 == p))
    && (forall p :: p in deletes <==> p in cache && p !in target)
  }

  /** The same said of one sequence of steps. */
  ghost predicate StepsFor(steps: seq<Step>, target: map<Path, string>, cache: map<Path, Digest>) {
    forall i | 0 <= i < |steps| ::
      match steps[i]
      case WriteStep(p, contents, hash) => p in target && contents == target[p] && hash == HashFile(contents)
      case KeepStep(p, hash) => p in target && hash == HashFile(target[p]) && p in cache && cache[p] == hash
      case DeleteStep(p) => p in cache && p !in target
  }

  /** Where a path ends once a plan for `target` has dealt with it. */
  ghost predicate Settled(s: State, s': State, above: set<Path>, target: map<Path, string>, p: Path) {
    if p in above then
      p !in s'.cache && (p in s.files <==> p in s'.files) && (p in s.files ==> s.files[p] == s'.files[p])
    else if p in target then
      p in s'.files && s'.files[p] == target[p] && p in s'.cache && s'.cache[p] == HashFile(target[p])
    else
      p !in s'.files && p !in s'.cache
  }

  /** If the path is kept, it has on disk what its hash names, unless the layer above holds it. */
  ghost predicate KeptIsOnDisk(s: State, above: set<Path>, steps: seq<Step>, target: map<Path, string>, p: Path) {
    forall i | 0 <= i < |steps| && steps[i].KeepStep? && steps[i].path == p && p !in above ::
      p in s.files && p in target && s.files[p] == target[p]
  }

  lemma {:induction false} MentionedIsSettled(s: State, above: set<Path>, steps: seq<Step>,
                                              target: map<Path, string>, p: Path)
    requires StepsFor(steps, target, s.cache) && KeptIsOnDisk(s, above, steps, target, p)
    requires Mentions(steps, p)
    ensures Settled(s, StateAfter(s, above, steps), above, target, p)
  {
    var n := |steps| - 1;
    var init := steps[..n];
    assert StepsFor(init, target, s.cache) && KeptIsOnDisk(s, above, init, target, p) by {
      assert forall i | 0 <= i < n :: init[i] == steps[i];
    }
    MentionsSplits(steps, p);
    if Mentions(init, p) {
      MentionedIsSettled(s, above, init, target, p);
    } else {
      UnmentionedIsUntouched(s, above, init, p);
    }
  }

  function PlanSteps(writes: seq<Write>, kept: seq<(Path, Digest)>, deletes: seq<Path>): seq<Step> {
    WriteSteps(writes) + KeepSteps(kept) + DeleteSteps(deletes)
  }

  lemma StepsInOrder(writes: seq<Write>, kept: seq<(Path, Digest)>, deletes: seq<Path>)
    ensures var steps, a, b := PlanSteps(writes, kept, deletes), |writes|, |writes| + |kept|;
      && |steps| == b + |deletes|
      && (forall i | 0 <= i < a ::
            steps[i] == WriteStep(writes[i].path, writes[i].contents, writes[i].hash) && writes[i] in writes)
      && (forall i | a <= i < b :: steps[i] == KeepStep(kept[i - a].0, kept[i - a].1) && kept[i - a] in kept)
      && (forall i | b <= i < |steps| :: steps[i] == DeleteStep(deletes[i - b]) && deletes[i - b] in deletes)
  {
  }

  lemma PlanMentions(writes: seq<Write>, kept: seq<(Path, Digest)>, deletes: seq<Path>, p: Path)
    requires p in deletes || (exists w :: w in writes && w.path == p) || (exists u :: u in kept && u.0 == p)
    ensures Mentions(PlanSteps(writes, kept, deletes), p)
  {
    StepsInOrder(writes, kept, deletes);
    hide PlanSteps;
    var steps := PlanSteps(writes, kept, deletes);
    if p in deletes {
      var i :| 0 <= i < |deletes| && deletes[i] == p;
      assert steps[|writes| + |kept| + i].path == p;
    } else if w :| w in writes && w.path == p {
      var i :| 0 <= i < |writes| && writes[i] == w;
      assert steps[i].path == p;
    } else {
      var u :| u in kept && u.0 == p;
      var i :| 0 <= i < |kept| && kept[i] == u;
      assert steps[|writes| + i].path == p;
    }
  }

  lemma RealisesSteps(writes: seq<Write>, kept: seq<(Path, Digest)>, deletes: seq<Path>,
                      target: map<Path, string>, cache: map<Path, Digest>)
    requires Realises(writes, kept, deletes, target, cache)
    ensures StepsFor(PlanSteps(writes, kept, deletes), target, cache)
    ensures forall p :: Mentions(PlanSteps(writes, kept, deletes), p) <==> p in target || p in cache
    ensures forall step | step in PlanSteps(writes, kept, deletes) && step.WriteStep? ::
      !(step.path in cache && cache[step.path] == step.hash)
  {
    hide PlanSteps;
    StepsInOrder(writes, kept, deletes);
    forall p | p in target || p in cache
      ensures Mentions(PlanSteps(writes, kept, deletes), p)
    {
      PlanMentions(writes, kept, deletes, p);
    }
  }

  /** A plan that realises its outputs keeps no path it also writes or deletes. */
  lemma RealisesIsHonest(writes: seq<Write>, kept: seq<(Path, Digest)>, deletes: seq<Path>,
                         target: map<Path, string>, cache: map<Path, Digest>)
    requires Realises(writes, kept, deletes, target, cache)
    ensures Honest(PlanSteps(writes, kept, deletes), cache)
  {
    hide Realises, PlanSteps;
    var steps := PlanSteps(writes, kept, deletes);
    RealisesSteps(writes, kept, deletes, target, cache);
    forall i | 0 <= i < |steps| && steps[i].KeepStep?
      ensures OnlyKept(steps[..i], steps[i].path)
    {
      forall j | 0 <= j < i && steps[..i][j].path == steps[i].path
        ensures steps[..i][j].KeepStep?
      {
        assert steps[j] in steps;
      }
    }
  }

  lemma KeptStepsAreKept(s: State, above: set<Path>, writes: seq<Write>, kept: seq<(Path, Digest)>,
                         deletes: seq<Path>, target: map<Path, string>, p: Path)
    requires forall u | u in kept && u.0 == p && p !in above :: p in target && p in s.files && s.files[p] == target[p]
    ensures KeptIsOnDisk(s, above, PlanSteps(writes, kept, deletes), target, p)
  {
    var steps := PlanSteps(writes, kept, deletes);
    forall i | 0 <= i < |steps| && steps[i].KeepStep?
      ensures |writes| <= i < |writes| + |kept| && steps[i].path == kept[i - |writes|].0
    {
    }
  }

  lemma FinishedPlanSettles(s: State, above: set<Path>, writes: seq<Write>, kept: seq<(Path, Digest)>,
                            deletes: seq<Path>, target: map<Path, string>, p: Path)
    requires Realises(writes, kept, deletes, target, s.cache)
    requires forall u | u in kept && u.0 == p && p !in above :: p in s.files && s.files[p] == target[p]
    ensures var s' := StateAfter(s, above, PlanSteps(writes, kept, deletes));
            if p in target || p in s.cache then Settled(s, s', above, target, p) else SameAt(s, s', p)
  {
    var steps := PlanSteps(writes, kept, deletes);
    RealisesSteps(writes, kept, deletes, target, s.cache);
    KeptStepsAreKept(s, above, writes, kept, deletes, target, p);
    if p in target || p in s.cache {
      MentionedIsSettled(s, above, steps, target, p);
    } else {
      UnmentionedIsUntouched(s, above, steps, p);
    }
  }

  /** A finished plan leaves each of its outputs on disk and in the cache, and nothing in
      the cache that the layer above holds. */
  lemma FinishedPlanReachesTarget(s: State, above: set<Path>, writes: seq<Write>, kept: seq<(Path, Digest)>,
                                  deletes: seq<Path>, target: map<Path, string>)
    requires Realises(writes, kept, deletes, target, s.cache)
    requires forall u | u in kept && u.0 !in above :: u.0 in s.files && s.files[u.0] == target[u.0]
    ensures var s' := StateAfter(s, above, PlanSteps(writes, kept, deletes));
            && s'.cache == (map p | p in target && p !in above :: HashFile(target[p]))
            && (forall p :: p in s'.files <==>
                  (if p in above || (p !in target && p !in s.cache) then p in s.files else p in target))
            && (forall p | p in s'.files ::
                  s'.files[p] == if p in target && p !in above then target[p] else s.files[p])
  {
    var s' := StateAfter(s, above, PlanSteps(writes, kept, deletes));
    forall p
      ensures p in s'.cache <==> p in target && p !in above
      ensures p in s'.cache ==> s'.cache[p] == HashFile(target[p])
      ensures p in s'.files <==>
              (if p in above || (p !in target && p !in s.cache) then p in s.files else p in target)
      ensures p in s'.files ==> (p in target && p !in above) || p in s.files
      ensures p in s'.files ==> s'.files[p] == if p in target && p !in above then target[p] else s.files[p]
    {
      FinishedPlanSettles(s, above, writes, kept, deletes, target, p);
    }
  }
}
