/** The object cache under concurrency: mutators and live readers that hold the filesystem
    mutex, and planners that parse old snapshots without it.  A mutator reads objects too, at
    paths it is not in the middle of writing.

    The state machine takes one atomic step at a time, in any interleaving.  A mutator's
    write and its invalidation are separate steps, and planners may parse in between. */
module ObjectCaches {
  import opened Wrappers
  import WritePlans

  type Path = WritePlans.Path

  /** Who holds the filesystem mutex.  `bumped` says the generation moved since the last write. */
  datatype Holder = Free | Mutating(bumped: bool) | Reading(generation: nat)

  /** A snapshot, and the generation it was current at. */
  datatype Planner = Planner(snapshot: map<Path, string>, generation: nat)

  /** `pending` are the paths written but not yet invalidated, and `unused` those of them
      that named no file before. */
  datatype State<O> = State(live: map<Path, string>, cache: map<Path, O>, generation: nat, holder: Holder,
                            pending: set<Path>, unused: set<Path>, planners: map<nat, Planner>)

  type Parse<!O> = (Path, string) -> Option<O>

  datatype Action =
    | StartMutating
    | WriteFile(path: Path, contents: string)
    | DeleteFile(path: Path)
    | Invalidate(path: Path)
    | StopMutating
    | StopRenaming(to: Path)
    | StartReading
    | ReadObject(path: Path)
    | StopReading
    | TakeSnapshot(planner: nat)
    | PlanObject(planner: nat, path: Path)

  function ParseAt<O>(parse: Parse<O>, files: map<Path, string>, p: Path): Option<O> {
    if p in files then parse(p, files[p]) else None
  }

  /** What a lookup through the cache returns to someone looking at `files`. */
  function Found<O>(parse: Parse<O>, s: State<O>, files: map<Path, string>, p: Path): Option<O> {
    if p in s.cache then Some(s.cache[p]) else ParseAt(parse, files, p)
  }

  /** A lookup caches what it parsed, but only while the generation it knows is current. */
  function CacheAfter<O>(parse: Parse<O>, s: State<O>, files: map<Path, string>, generation: nat, p: Path): map<Path, O> {
    if p !in s.cache && ParseAt(parse, files, p).Some? && s.generation == generation
    then s.cache[p := ParseAt(parse, files, p).value] else s.cache
  }

  predicate Enabled<O>(s: State<O>, a: Action) {
    match a
    case StartMutating => s.holder.Free?
    case WriteFile(_, _) => s.holder.Mutating?
    case DeleteFile(_) => s.holder.Mutating?
    case Invalidate(_) => s.holder.Mutating?
    case StopMutating => s.holder.Mutating? && s.pending == {}
    case StopRenaming(to) => s.holder == Mutating(true) && s.pending == {to}
    case StartReading => s.holder.Free?
    case ReadObject(p) => s.holder.Reading? || (s.holder.Mutating? && p !in s.pending)
    case StopReading => s.holder.Reading?
    case TakeSnapshot(_) => s.holder.Free?
    case PlanObject(t, _) => t in s.planners
  }

  function Next<O>(parse: Parse<O>, s: State<O>, a: Action): State<O>
    requires Enabled(s, a)
  {
    match a
    case StartMutating => s.(holder := Mutating(false))
    case WriteFile(p, contents) =>
      s.(live := s.live[p := contents], holder := Mutating(false), pending := s.pending + {p},
         unused := if p in s.live || p in s.pending then s.unused else s.unused + {p})
    case DeleteFile(p) =>
      s.(live := s.live - {p}, holder := Mutating(false), pending := s.pending + {p}, unused := s.unused - {p})
    case Invalidate(p) =>
      s.(cache := s.cache - {p}, generation := s.generation + 1, holder := Mutating(true),
         pending := s.pending - {p}, unused := s.unused - {p})
    case StopMutating => s.(holder := Free, unused := {})
    case StopRenaming(_) => s.(holder := Free, pending := {}, unused := {})
    case StartReading => s.(holder := Reading(s.generation))
    case ReadObject(p) =>
      s.(cache := CacheAfter(parse, s, s.live, if s.holder.Reading? then s.holder.generation else s.generation, p))
    case StopReading => s.(holder := Free)
    case TakeSnapshot(t) => s.(planners := s.planners[t := Planner(s.live, s.generation)])
    case PlanObject(t, p) => s.(cache := CacheAfter(parse, s, s.planners[t].snapshot, s.planners[t].generation, p))
  }

  /* ---- What every step keeps ---- */

  /** Every cached object is the parse of its live file, but for paths between a write and
      its invalidation. */
  ghost predicate Coherent<O>(parse: Parse<O>, s: State<O>) {
    forall p | p in s.cache && p !in s.pending :: ParseAt(parse, s.live, p) == Some(s.cache[p])
  }

  /** A planner whose generation is current sees the live files, but for pending paths; and
      never a file where one is being written for the first time. */
  ghost predicate PlannerSees<O>(s: State<O>, planner: Planner) {
    && planner.generation <= s.generation
    && (s.holder == Mutating(true) ==> planner.generation < s.generation)
    && (planner.generation == s.generation ==>
          && (forall p | p !in s.pending ::
                (p in planner.snapshot <==> p in s.live) && (p in s.live ==> planner.snapshot[p] == s.live[p]))
          && (forall p | p in s.unused :: p !in planner.snapshot))
  }

  ghost predicate Inv<O>(parse: Parse<O>, s: State<O>) {
    && Coherent(parse, s)
    && (forall t | t in s.planners :: PlannerSees(s, s.planners[t]))
    && (!s.holder.Mutating? ==> s.pending == {})
    && (s.holder.Reading? ==> s.holder.generation == s.generation)
    && s.unused <= s.pending
    && (forall p | p in s.unused :: p !in s.cache)
  }

  /** A rename that invalidates only the old path may stop when the new one was unused. */
  predicate RenamesToUnused<O>(s: State<O>, a: Action) {
    a.StopRenaming? ==> a.to in s.unused
  }

  lemma PlannersKeepSeeing<O>(parse: Parse<O>, s: State<O>, a: Action)
    requires Inv(parse, s) && Enabled(s, a)
    ensures var s' := Next(parse, s, a); forall t | t in s'.planners :: PlannerSees(s', s'.planners[t])
  {
    var s' := Next(parse, s, a);
    forall t | t in s'.planners
      ensures PlannerSees(s', s'.planners[t])
    {
      if t in s.planners {
        assert PlannerSees(s, s.planners[t]);
      }
    }
  }

  /** Every step of every interleaving keeps the cache right. */
  lemma StepKeepsInv<O>(parse: Parse<O>, s: State<O>, a: Action)
    requires Inv(parse, s) && Enabled(s, a) && RenamesToUnused(s, a)
    ensures Inv(parse, Next(parse, s, a))
  {
    PlannersKeepSeeing(parse, s, a);
    if a.PlanObject? {
      assert PlannerSees(s, s.planners[a.planner]);
    }
  }

  /* ---- Whole runs ---- */

  ghost predicate IsRun<O>(parse: Parse<O>, states: seq<State<O>>, actions: seq<Action>) {
    && |states| == |actions| + 1
    && forall i | 0 <= i < |actions| ::
         Enabled(states[i], actions[i]) && RenamesToUnused(states[i], actions[i])
         && states[i + 1] == Next(parse, states[i], actions[i])
  }

  function Start<O>(files: map<Path, string>): State<O> {
    State(files, map[], 0, Free, {}, {}, map[])
  }

  lemma {:induction false} RunKeepsInv<O>(parse: Parse<O>, states: seq<State<O>>, actions: seq<Action>, i: nat)
    requires IsRun(parse, states, actions) && i < |states| && states[0] == Start(states[0].live)
    ensures Inv(parse, states[i])
  {
    if i > 0 {
      RunKeepsInv(parse, states, actions, i - 1);
      StepKeepsInv(parse, states[i - 1], actions[i - 1]);
    }
  }

  /** In every run, whoever reads inside the mutex gets the parse of the live file: a reader at
      every path, a mutator at those it is not in the middle of writing. */
  lemma ReadersAreNeverStale<O>(parse: Parse<O>, states: seq<State<O>>, actions: seq<Action>, i: nat, p: Path)
    requires IsRun(parse, states, actions) && i < |states| && states[0] == Start(states[0].live)
    requires !states[i].holder.Mutating? || p !in states[i].pending
    ensures Found(parse, states[i], states[i].live, p) == ParseAt(parse, states[i].live, p)
  {
    RunKeepsInv(parse, states, actions, i);
  }

  /** A planner whose generation is current reads what its snapshot holds, at every path no
      mutator is in the middle of writing. */
  lemma CurrentPlannersReadTheirSnapshot<O>(parse: Parse<O>, states: seq<State<O>>, actions: seq<Action>, i: nat,
                                            t: nat, p: Path)
    requires IsRun(parse, states, actions) && i < |states| && states[0] == Start(states[0].live)
    requires t in states[i].planners && states[i].planners[t].generation == states[i].generation
    requires p !in states[i].pending
    ensures Found(parse, states[i], states[i].planners[t].snapshot, p)
         == ParseAt(parse, states[i].planners[t].snapshot, p)
  {
    RunKeepsInv(parse, states, actions, i);
    assert PlannerSees(states[i], states[i].planners[t]);
  }

  /* ---- What is cached stays cached ---- */

  /** Nothing but the invalidation of its path takes an object out of the cache or changes it. */
  lemma StepKeepsEntry<O>(parse: Parse<O>, s: State<O>, a: Action, p: Path)
    requires Enabled(s, a) && a != Invalidate(p) && p in s.cache
    ensures p in Next(parse, s, a).cache && Next(parse, s, a).cache[p] == s.cache[p]
  {
  }

  /** An object read inside the mutex is cached from then on until its path is invalidated, so
      later readers and planners get that parse without another. */
  lemma {:induction false} ReadStaysCached<O>(parse: Parse<O>, states: seq<State<O>>, actions: seq<Action>, i: nat, j: nat, p: Path)
    requires IsRun(parse, states, actions) && states[0] == Start(states[0].live) && i < j <= |actions|
    requires actions[i] == ReadObject(p) && ParseAt(parse, states[i].live, p).Some?
    requires forall k | i < k < j :: actions[k] != Invalidate(p)
    ensures p in states[j].cache && Some(states[j].cache[p]) == ParseAt(parse, states[i].live, p)
    decreases j
  {
    hide Coherent, PlannerSees;
    if j == i + 1 {
      RunKeepsInv(parse, states, actions, i);
      ReadIsCached(parse, states[i], p);
    } else {
      ReadStaysCached(parse, states, actions, i, j - 1, p);
      StepKeepsEntry(parse, states[j - 1], actions[j - 1], p);
    }
  }

  lemma ReadIsCached<O>(parse: Parse<O>, s: State<O>, p: Path)
    requires Inv(parse, s) && Enabled(s, ReadObject(p)) && ParseAt(parse, s.live, p).Some?
    ensures p in Next(parse, s, ReadObject(p)).cache
    ensures Some(Next(parse, s, ReadObject(p)).cache[p]) == ParseAt(parse, s.live, p)
  {
  }

  /** An invalidated path is out of the cache. */
  lemma InvalidatedIsGone<O>(parse: Parse<O>, s: State<O>, p: Path, q: Path)
    requires Enabled(s, Invalidate(p))
    ensures p !in Next(parse, s, Invalidate(p)).cache
    ensures q != p ==> (q in s.cache <==> q in Next(parse, s, Invalidate(p)).cache)
  {
  }

  /** A planner sees the files as they were when it took its snapshot, whatever is written since. */
  lemma {:induction false} SnapshotStays<O>(parse: Parse<O>, states: seq<State<O>>, actions: seq<Action>, i: nat, j: nat, t: nat)
    requires IsRun(parse, states, actions) && i < j <= |actions| && actions[i] == TakeSnapshot(t)
    requires forall k | i < k < j :: actions[k] != TakeSnapshot(t)
    ensures t in states[j].planners && states[j].planners[t] == Planner(states[i].live, states[i].generation)
    decreases j
  {
    if j > i + 1 {
      SnapshotStays(parse, states, actions, i, j - 1, t);
    }
  }

  /** The live file at a path is what was last written there. */
  lemma {:induction false} LiveIsLastWritten<O>(parse: Parse<O>, states: seq<State<O>>, actions: seq<Action>, i: nat, j: nat, p: Path)
    requires IsRun(parse, states, actions) && i < j <= |actions| && (actions[i] == DeleteFile(p) || (actions[i].WriteFile? && actions[i].path == p))
    requires forall k | i < k < j :: actions[k] != DeleteFile(p) && !(actions[k].WriteFile? && actions[k].path == p)
    ensures if actions[i].DeleteFile? then p !in states[j].live else p in states[j].live && states[j].live[p] == actions[i].contents
    decreases j
  {
    if j > i + 1 {
      LiveIsLastWritten(parse, states, actions, i, j - 1, p);
    }
  }

  /** A planner caches what it parses while nothing was invalidated since its snapshot, and
      nothing once something was. */
  lemma PlannersCacheWhileCurrent<O>(parse: Parse<O>, s: State<O>, t: nat, p: Path)
    requires t in s.planners
    ensures s.planners[t].generation != s.generation ==> Next(parse, s, PlanObject(t, p)) == s
    ensures s.planners[t].generation == s.generation && ParseAt(parse, s.planners[t].snapshot, p).Some? ==>
              p in Next(parse, s, PlanObject(t, p)).cache
  {
  }

  /* ---- The rename that invalidates only its old path ---- */

  /** Stopping with only the new path pending keeps the cache right exactly when the cache
      holds nothing there, or happens to hold what the file now parses to. */
  lemma StopRenamingIff<O>(parse: Parse<O>, s: State<O>, to: Path)
    requires Inv(parse, s) && Enabled(s, StopRenaming(to))
    ensures Inv(parse, Next(parse, s, StopRenaming(to)))
       <==> (to in s.cache ==> ParseAt(parse, s.live, to) == Some(s.cache[to]))
  {
    PlannersKeepSeeing(parse, s, StopRenaming(to));
    var s' := Next(parse, s, StopRenaming(to));
    if to in s.cache && ParseAt(parse, s.live, to) != Some(s.cache[to]) {
      assert to in s'.cache && to !in s'.pending;
    }
  }

  function RunFrom<O>(parse: Parse<O>, s: State<O>, actions: seq<Action>): Option<State<O>>
    decreases |actions|
  {
    if actions == [] then Some(s)
    else if !Enabled(s, actions[0]) then None
    else RunFrom(parse, Next(parse, s, actions[0]), actions[1..])
  }

  /** A whole rename.  Onto itself it invalidates all it wrote. */
  function RenameSteps(from: Path, to: Path, contents: string): (steps: seq<Action>)
    ensures |steps| == 5
  {
    [StartMutating, WriteFile(to, contents), DeleteFile(from), Invalidate(from),
     if from == to then StopMutating else StopRenaming(to)]
  }

  /** The steps but for what planners do among them. */
  function Own(actions: seq<Action>): seq<Action> {
    if actions == [] then []
    else if actions[0].PlanObject? then Own(actions[1..])
    else [actions[0]] + Own(actions[1..])
  }

  ghost predicate HasCurrentPlanner<O>(s: State<O>) {
    exists t :: t in s.planners && s.planners[t].generation == s.generation
  }

  /** What may be cached at a path is only what its file parsed to before the rename, and only
      if it was cached then or a planner was current. */
  ghost predicate CachedFromBefore<O>(parse: Parse<O>, before: State<O>, s: State<O>, p: Path) {
    && s.planners == before.planners && before.generation <= s.generation
    && (p in s.cache ==> (p in before.cache || HasCurrentPlanner(before)) && Some(s.cache[p]) == ParseAt(parse, before.live, p))
  }

  /** A step of the rename, or of a planner meanwhile. */
  predicate OfRename(a: Action, from: Path, to: Path, contents: string) {
    a.PlanObject? || a in RenameSteps(from, to, contents)
  }

  lemma CachedOnlyFromBefore<O>(parse: Parse<O>, before: State<O>, s: State<O>, a: Action, from: Path, to: Path, contents: string)
    requires Inv(parse, before) && before.holder.Free? && CachedFromBefore(parse, before, s, to)
    requires Enabled(s, a) && OfRename(a, from, to, contents)
    ensures CachedFromBefore(parse, before, Next(parse, s, a), to)
  {
    if a.PlanObject? {
      assert PlannerSees(before, before.planners[a.planner]);
    }
  }

  /** With `k` steps of a rename that is safe behind it. */
  ghost predicate Renaming<O>(parse: Parse<O>, before: State<O>, s: State<O>, k: nat, from: Path, to: Path, contents: string) {
    && Inv(parse, s) && CachedFromBefore(parse, before, s, to)
    && (from != to && k >= 2 ==> to in s.live && s.live[to] == contents)
  }

  lemma RenameGoesOn<O>(parse: Parse<O>, before: State<O>, s: State<O>, a: Action, k: nat, from: Path, to: Path, contents: string)
    requires Inv(parse, before) && before.holder.Free? && RenameIsSafe(parse, before, from, to, contents)
    requires Renaming(parse, before, s, k, from, to, contents) && Enabled(s, a)
    requires a.PlanObject? || (k < 5 && a == RenameSteps(from, to, contents)[k])
    ensures Renaming(parse, before, Next(parse, s, a), if a.PlanObject? then k else k + 1, from, to, contents)
  {
    hide Coherent, PlannerSees, Inv, HasCurrentPlanner, CacheAfter;
    CachedOnlyFromBefore(parse, before, s, a, from, to, contents);
    if a.StopRenaming? {
      StopRenamingIff(parse, s, to);
    } else {
      StepKeepsInv(parse, s, a);
    }
  }

  lemma OwnFirst(actions: seq<Action>, rest: seq<Action>)
    requires Own(actions) == rest && actions != [] && !actions[0].PlanObject?
    ensures rest != [] && actions[0] == rest[0] && Own(actions[1..]) == rest[1..]
  {
  }

  lemma {:induction false} RenameRuns<O>(parse: Parse<O>, before: State<O>, s: State<O>, actions: seq<Action>, k: nat,
                                         from: Path, to: Path, contents: string)
    requires Inv(parse, before) && before.holder.Free? && RenameIsSafe(parse, before, from, to, contents)
    requires Renaming(parse, before, s, k, from, to, contents)
    requires k <= 5 && Own(actions) == RenameSteps(from, to, contents)[k..]
    requires RunFrom(parse, s, actions).Some?
    ensures Inv(parse, RunFrom(parse, s, actions).value)
    decreases |actions|
  {
    hide Inv, RenameSteps, RenameIsSafe, Next, Enabled;
    if actions != [] {
      var a := actions[0];
      if !a.PlanObject? {
        OwnFirst(actions, RenameSteps(from, to, contents)[k..]);
        assert RenameSteps(from, to, contents)[k..][1..] == RenameSteps(from, to, contents)[k + 1..];
      }
      RenameGoesOn(parse, before, s, a, k, from, to, contents);
      RenameRuns(parse, before, Next(parse, s, a), actions[1..], if a.PlanObject? then k else k + 1, from, to, contents);
    }
  }

  /** The file at the new path, if it may be in the cache by the end, parses as the one that
      replaces it does. */
  ghost predicate RenameIsSafe<O>(parse: Parse<O>, s: State<O>, from: Path, to: Path, contents: string) {
    || from == to
    || !(to in s.cache || HasCurrentPlanner(s))
    || ParseAt(parse, s.live, to).None?
    || ParseAt(parse, s.live, to) == parse(to, contents)
  }

  lemma RenameAlone<O>(parse: Parse<O>, s: State<O>, from: Path, to: Path)
    requires Inv(parse, s) && s.holder.Free? && from in s.live
    ensures var r := RunFrom(parse, s, RenameSteps(from, to, s.live[from]));
            r.Some? && r.value == State(s.live[to := s.live[from]] - {from}, s.cache - {from}, s.generation + 1, Free, {}, {}, s.planners)
  {
    var steps := RenameSteps(from, to, s.live[from]);
    var s1 := Next(parse, s, steps[0]);
    var s2 := Next(parse, s1, steps[1]);
    var s3 := Next(parse, s2, steps[2]);
    var s4 := Next(parse, s3, steps[3]);
    assert s4.pending == if from == to then {} else {to};
    var s5 := Next(parse, s4, steps[4]);
    assert RunFrom(parse, s5, steps[5..]) == Some(s5);
    assert steps[4..][1..] == steps[5..] && RunFrom(parse, s4, steps[4..]) == Some(s5);
    assert steps[3..][1..] == steps[4..] && RunFrom(parse, s3, steps[3..]) == Some(s5);
    assert steps[2..][1..] == steps[3..] && RunFrom(parse, s2, steps[2..]) == Some(s5);
    assert steps[1..][1..] == steps[2..] && RunFrom(parse, s1, steps[1..]) == Some(s5);
  }

  /** A rename with nothing in between keeps the cache right if and only if the new path was not
      cached, or was cached with exactly the parse of the moved contents. */
  lemma RenameKeepsInvIff<O>(parse: Parse<O>, s: State<O>, from: Path, to: Path)
    requires Inv(parse, s) && s.holder.Free? && from in s.live
    ensures var r := RunFrom(parse, s, RenameSteps(from, to, s.live[from]));
            r.Some? && (Inv(parse, r.value) <==> from == to || to !in s.cache || parse(to, s.live[from]) == Some(s.cache[to]))
  {
    var steps := RenameSteps(from, to, s.live[from]);
    RenameAlone(parse, s, from, to);
    var end := RunFrom(parse, s, steps).value;
    if from == to || to !in s.cache || parse(to, s.live[from]) == Some(s.cache[to]) {
      forall p | p in end.cache
        ensures ParseAt(parse, end.live, p) == Some(end.cache[p])
      {
        assert p in s.cache && ParseAt(parse, s.live, p) == Some(s.cache[p]);
      }
      forall t | t in end.planners
        ensures PlannerSees(end, end.planners[t])
      {
        assert PlannerSees(s, s.planners[t]);
      }
    } else {
      assert to in end.cache && to !in end.pending;
    }
  }

  /** However planners' parses fall among its steps, a rename keeps the cache right, if and only
      if the new path was neither cached nor within reach of a current planner, or held nothing
      that parses, or parses the same before and after. */
  lemma RenameAmongPlannersIff<O>(parse: Parse<O>, s: State<O>, from: Path, to: Path)
    requires Inv(parse, s) && s.holder.Free? && from in s.live
    ensures (forall actions | Own(actions) == RenameSteps(from, to, s.live[from]) && RunFrom(parse, s, actions).Some? ::
               Inv(parse, RunFrom(parse, s, actions).value))
            <==> RenameIsSafe(parse, s, from, to, s.live[from])
  {
    if RenameIsSafe(parse, s, from, to, s.live[from]) {
      forall actions | Own(actions) == RenameSteps(from, to, s.live[from]) && RunFrom(parse, s, actions).Some?
        ensures Inv(parse, RunFrom(parse, s, actions).value)
      {
        RenameRuns(parse, s, s, actions, 0, from, to, s.live[from]);
      }
    } else {
      var actions := UnsafeRename(parse, s, from, to);
      assert Own(actions) == RenameSteps(from, to, s.live[from]);
    }
  }

  /** A planner that gets to the new path first, where it is not cached already. */
  lemma UnsafeRename<O>(parse: Parse<O>, s: State<O>, from: Path, to: Path) returns (actions: seq<Action>)
    requires Inv(parse, s) && s.holder.Free? && from in s.live && !RenameIsSafe(parse, s, from, to, s.live[from])
    ensures Own(actions) == RenameSteps(from, to, s.live[from])
    ensures RunFrom(parse, s, actions).Some? && !Inv(parse, RunFrom(parse, s, actions).value)
  {
    hide RenameSteps;
    var steps := RenameSteps(from, to, s.live[from]);
    OwnOfRename(from, to, s.live[from]);
    if to in s.cache {
      actions := steps;
      RenameKeepsInvIff(parse, s, from, to);
      assert ParseAt(parse, s.live, to) == Some(s.cache[to]);
    } else {
      var t :| t in s.planners && s.planners[t].generation == s.generation;
      var plan := PlanObject(t, to);
      assert PlannerSees(s, s.planners[t]);
      StepKeepsInv(parse, s, plan);
      RenameKeepsInvIff(parse, Next(parse, s, plan), from, to);
      actions := [plan] + steps;
      assert actions[1..] == steps;
    }
  }

  lemma OwnOfRename(from: Path, to: Path, contents: string)
    ensures Own(RenameSteps(from, to, contents)) == RenameSteps(from, to, contents)
  {
    var steps := RenameSteps(from, to, contents);
    assert Own(steps[5..]) == [];
    assert steps[4..][1..] == steps[5..] && Own(steps[4..]) == steps[4..];
    assert steps[3..][1..] == steps[4..] && Own(steps[3..]) == steps[3..];
    assert steps[2..][1..] == steps[3..] && Own(steps[2..]) == steps[2..];
    assert steps[1..][1..] == steps[2..] && Own(steps[1..]) == steps[1..];
  }

  /** Renaming onto a file whose object is cached leaves the old object in the cache. */
  lemma RenameOntoUsedNameIsStale<O>(parse: Parse<O>, from: Path, to: Path, a: string, b: string)
    requires from != to && parse(to, b).Some? && parse(to, a) != parse(to, b)
    ensures var s0: State<O> := Start(map[from := a, to := b]);
            var actions := [StartReading, ReadObject(to), StopReading, StartMutating,
                            WriteFile(to, a), DeleteFile(from), Invalidate(from), StopRenaming(to)];
            var s := RunFrom(parse, s0, actions);
            s.Some? && s.value.holder.Free?
              && Found(parse, s.value, s.value.live, to) != ParseAt(parse, s.value.live, to)
  {
    var s0: State<O> := Start(map[from := a, to := b]);
    var s1 := Next(parse, s0, StartReading);
    var s2 := Next(parse, s1, ReadObject(to));
    var s3 := Next(parse, s2, StopReading);
    var s4 := Next(parse, s3, StartMutating);
    var s5 := Next(parse, s4, WriteFile(to, a));
    var s6 := Next(parse, s5, DeleteFile(from));
    var s7 := Next(parse, s6, Invalidate(from));
    assert s7.pending == {to};
    var s8 := Next(parse, s7, StopRenaming(to));
    var rest8: seq<Action> := [];
    assert RunFrom(parse, s8, rest8) == Some(s8);
    assert RunFrom(parse, s7, [StopRenaming(to)]) == Some(s8);
    assert RunFrom(parse, s6, [Invalidate(from), StopRenaming(to)]) == Some(s8);
    assert RunFrom(parse, s5, [DeleteFile(from), Invalidate(from), StopRenaming(to)]) == Some(s8);
    assert RunFrom(parse, s4, [WriteFile(to, a), DeleteFile(from), Invalidate(from), StopRenaming(to)]) == Some(s8);
    assert RunFrom(parse, s3, [StartMutating, WriteFile(to, a), DeleteFile(from), Invalidate(from), StopRenaming(to)]) == Some(s8);
    assert RunFrom(parse, s2, [StopReading, StartMutating, WriteFile(to, a), DeleteFile(from), Invalidate(from),
                               StopRenaming(to)]) == Some(s8);
    assert RunFrom(parse, s1, [ReadObject(to), StopReading, StartMutating, WriteFile(to, a), DeleteFile(from),
                               Invalidate(from), StopRenaming(to)]) == Some(s8);
  }
}
