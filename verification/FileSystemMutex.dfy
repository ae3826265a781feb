/** The filesystem mutex as interleaved steps of any number of threads.

    `owner` is a relaxed atomic.  It is its modification history, and a load may return any
    write not older than the last one the loading thread saw.  The lock poisons when a
    closure panics.  Refusal is an error return. */
module FileSystemMutexes {
  import opened Wrappers

  const UNOWNED: nat := 0

  type Thread = nat

  /** Where a thread is in `with_fs`.
      Outside: not in a call.  Waiting: saw another owner, wants the lock.
      Locked: holds it, has not stored its key.  Inside: runs its closure.
      Stuck: inside a closure and waiting for the lock it holds itself.
      Leaving: the guard has cleared the owner, the lock is about to be released. */
  datatype Phase = Outside | Waiting | Locked | Inside | Stuck | Leaving(panicked: bool)

  /** `seen` is the index of the newest write to `owner` the thread has observed. */
  datatype ThreadState = ThreadState(key: nat, phase: Phase, seen: nat)

  datatype Mutex = Mutex(threads: map<Thread, ThreadState>, nextKey: nat, owner: seq<nat>,
                         holder: Option<Thread>, poisoned: bool)

  datatype Step =
    | TakeKey(t: Thread)               // the first time a thread reaches with_fs
    | Check(t: Thread, at: nat)        // an outer call loads the owner
    | CheckNested(t: Thread, at: nat)  // a call from inside a closure loads the owner
    | Acquire(t: Thread)               // the lock is free and not poisoned
    | AcquirePoisoned(t: Thread)       // the lock is free and poisoned: the call fails
    | Claim(t: Thread)                 // stores the thread's key, then runs the closure
    | Finish(t: Thread, panicked: bool)  // the closure ends and the guard clears the owner
    | Release(t: Thread)               // poisons if the closure panicked, then unlocks

  datatype Reply = Proceeds | RefusedAsNested | FailedPoisoned

  predicate Loadable(m: Mutex, t: Thread, at: nat) {
    t in m.threads && m.threads[t].seen <= at < |m.owner|
  }

  predicate Enabled(m: Mutex, step: Step) {
    match step
    case TakeKey(t) => t !in m.threads
    case Check(t, at) => Loadable(m, t, at) && m.threads[t].phase.Outside?
    case CheckNested(t, at) => Loadable(m, t, at) && m.threads[t].phase.Inside?
    case Acquire(t) => t in m.threads && m.threads[t].phase.Waiting? && m.holder.None? && !m.poisoned
    case AcquirePoisoned(t) => t in m.threads && m.threads[t].phase.Waiting? && m.holder.None? && m.poisoned
    case Claim(t) => t in m.threads && m.threads[t].phase.Locked?
    case Finish(t, _) => t in m.threads && m.threads[t].phase.Inside?
    case Release(t) => t in m.threads && m.threads[t].phase.Leaving?
  }

  function With(m: Mutex, t: Thread, s: ThreadState): Mutex {
    m.(threads := m.threads[t := s])
  }

  function Next(m: Mutex, step: Step): Mutex
    requires Enabled(m, step)
  {
    match step
    case TakeKey(t) =>
      With(m, t, ThreadState(m.nextKey, Outside, 0)).(nextKey := m.nextKey + 1)
    case Check(t, at) =>
      var s := m.threads[t];
      With(m, t, s.(seen := at, phase := if m.owner[at] == s.key then Outside else Waiting))
    case CheckNested(t, at) =>
      var s := m.threads[t];
      With(m, t, s.(seen := at, phase := if m.owner[at] == s.key then Inside else Stuck))
    case Acquire(t) => With(m, t, m.threads[t].(phase := Locked)).(holder := Some(t))
    case AcquirePoisoned(t) => With(m, t, m.threads[t].(phase := Outside))
    case Claim(t) =>
      With(m, t, m.threads[t].(phase := Inside, seen := |m.owner|)).(owner := m.owner + [m.threads[t].key])
    case Finish(t, panicked) =>
      With(m, t, m.threads[t].(phase := Leaving(panicked), seen := |m.owner|)).(owner := m.owner + [UNOWNED])
    case Release(t) =>
      With(m, t, m.threads[t].(phase := Outside)).(holder := None, poisoned := m.poisoned || m.threads[t].phase.panicked)
  }

  /** What a step tells the caller. */
  function ReplyTo(m: Mutex, step: Step): Reply
    requires Enabled(m, step)
  {
    match step
    case Check(t, at) => if m.owner[at] == m.threads[t].key then RefusedAsNested else Proceeds
    case CheckNested(t, at) => if m.owner[at] == m.threads[t].key then RefusedAsNested else Proceeds
    case AcquirePoisoned(_) => FailedPoisoned
    case _ => Proceeds
  }

  function Init(): Mutex {
    Mutex(map[], 1, [UNOWNED], None, false)
  }

  /* ---- The invariant ---- */

  predicate HoldsLock(phase: Phase) {
    phase.Locked? || phase.Inside? || phase.Stuck? || phase.Leaving?
  }

  ghost predicate Keyed(m: Mutex) {
    && m.nextKey >= 1
    && (forall t | t in m.threads :: UNOWNED < m.threads[t].key < m.nextKey)
    && (forall t, u | t in m.threads && u in m.threads && t != u :: m.threads[t].key != m.threads[u].key)
  }

  ghost predicate Locking(m: Mutex) {
    && (forall t | t in m.threads :: HoldsLock(m.threads[t].phase) <==> m.holder == Some(t))
    && (m.holder.Some? ==> m.holder.value in m.threads)
  }

  /** A thread inside last wrote `owner` itself, and saw that.  Any other thread cannot load
      its own key: everything it may still load was written by someone else or clears it. */
  ghost predicate Owning(m: Mutex, s: ThreadState) {
    && s.seen < |m.owner|
    && if s.phase.Inside? || s.phase.Stuck?
       then s.seen == |m.owner| - 1 && m.owner[s.seen] == s.key
       else forall i | s.seen <= i < |m.owner| :: m.owner[i] != s.key
  }

  ghost predicate Inv(m: Mutex) {
    && Keyed(m) && Locking(m) && |m.owner| > 0
    && (forall i | 0 <= i < |m.owner| :: m.owner[i] < m.nextKey)
    && (forall t | t in m.threads :: Owning(m, m.threads[t]) && !m.threads[t].phase.Stuck?)
    && (m.poisoned ==> m.holder.None?)
  }

  lemma InitInv()
    ensures Inv(Init())
  {
  }

  lemma StepKeepsKeys(m: Mutex, step: Step)
    requires Inv(m) && Enabled(m, step)
    ensures Keyed(Next(m, step))
  {
    hide Locking, Owning;
  }

  lemma StepKeepsLocking(m: Mutex, step: Step)
    requires Inv(m) && Enabled(m, step)
    ensures Locking(Next(m, step))
  {
    hide Keyed, Owning;
    if step.CheckNested? {
      OwnKeyIffInside(m, step.t, step.at);
    }
  }

  /** The protocol's core: a load, however stale, returns the thread's own key exactly when
      the thread is already inside. */
  lemma OwnKeyIffInside(m: Mutex, t: Thread, at: nat)
    requires Inv(m) && Loadable(m, t, at)
    ensures m.owner[at] == m.threads[t].key <==> m.threads[t].phase.Inside?
  {
    assert Owning(m, m.threads[t]);
  }

  lemma StepKeepsOwning(m: Mutex, step: Step, t: Thread)
    requires Inv(m) && Enabled(m, step) && t in Next(m, step).threads
    ensures var s := Next(m, step).threads[t]; Owning(Next(m, step), s) && !s.phase.Stuck?
  {
    var m' := Next(m, step);
    if t in m.threads {
      assert Owning(m, m.threads[t]);
      if (step.Claim? || step.Finish?) && step.t != t {
        // Only the lock holder writes, so nobody else is inside.
        assert m.holder == Some(step.t) && !HoldsLock(m.threads[t].phase);
        assert m.threads[step.t].key != m.threads[t].key;
      }
      if (step.Check? || step.CheckNested?) && step.t == t {
        OwnKeyIffInside(m, t, step.at);
      }
    }
  }

  /** Every step of every interleaving keeps the protocol's invariant. */
  lemma StepKeepsInv(m: Mutex, step: Step)
    requires Inv(m) && Enabled(m, step)
    ensures Inv(Next(m, step))
  {
    StepKeepsKeys(m, step);
    StepKeepsLocking(m, step);
    forall t | t in Next(m, step).threads
      ensures Owning(Next(m, step), Next(m, step).threads[t]) && !Next(m, step).threads[t].phase.Stuck?
    {
      StepKeepsOwning(m, step, t);
    }
  }

  /* ---- Whole runs ---- */

  ghost predicate IsRun(states: seq<Mutex>, steps: seq<Step>) {
    && |states| == |steps| + 1 && states[0] == Init()
    && forall i | 0 <= i < |steps| :: Enabled(states[i], steps[i]) && states[i + 1] == Next(states[i], steps[i])
  }

  lemma {:induction false} RunKeepsInv(states: seq<Mutex>, steps: seq<Step>, i: nat)
    requires IsRun(states, steps) && i < |states|
    ensures Inv(states[i])
  {
    if i == 0 {
      InitInv();
    } else {
      RunKeepsInv(states, steps, i - 1);
      StepKeepsInv(states[i - 1], steps[i - 1]);
    }
  }

  /** Nesting is always refused and never waits; contention is never refused as nesting. */
  lemma NestingIsWhatIsRefused(states: seq<Mutex>, steps: seq<Step>, i: nat)
    requires IsRun(states, steps) && i < |steps|
    ensures steps[i].CheckNested? ==>
              ReplyTo(states[i], steps[i]) == RefusedAsNested && states[i + 1].threads[steps[i].t].phase == Inside
    ensures steps[i].Check? ==> ReplyTo(states[i], steps[i]) == Proceeds
  {
    RunKeepsInv(states, steps, i);
    if steps[i].Check? || steps[i].CheckNested? {
      OwnKeyIffInside(states[i], steps[i].t, steps[i].at);
    }
  }

  /** At most one closure runs at a time. */
  lemma AtMostOneInside(states: seq<Mutex>, steps: seq<Step>, i: nat, t: Thread, u: Thread)
    requires IsRun(states, steps) && i < |states|
    requires t in states[i].threads && u in states[i].threads
    requires states[i].threads[t].phase.Inside? && states[i].threads[u].phase.Inside?
    ensures t == u
  {
    RunKeepsInv(states, steps, i);
    assert HoldsLock(states[i].threads[t].phase) && HoldsLock(states[i].threads[u].phase);
  }

  /** A closure has panicked: the lock is poisoned, or is about to be by the one who holds it. */
  predicate Doomed(m: Mutex) {
    m.poisoned || (m.holder.Some? && m.holder.value in m.threads && m.threads[m.holder.value].phase == Leaving(true))
  }

  /** Nobody waits on a mutex that is free, which lets a waiting thread in, or turns it away if
      it is poisoned; and whoever holds it has a step to take that is not a new call. */
  lemma WaitersCanAdvance(m: Mutex, t: Thread)
    requires Inv(m) && t in m.threads && m.threads[t].phase.Waiting?
    ensures m.holder.None? ==> Enabled(m, if m.poisoned then AcquirePoisoned(t) else Acquire(t))
    ensures m.holder.Some? ==> exists step :: Enabled(m, step) && step.t == m.holder.value
                                              && (step.Claim? || step.Finish? || step.Release?)
    ensures exists step :: Enabled(m, step) && !step.TakeKey? && !step.Check? && !step.CheckNested?
  {
    if m.holder.None? {
      assert if m.poisoned then Enabled(m, AcquirePoisoned(t)) else Enabled(m, Acquire(t));
    } else {
      var u := m.holder.value;
      assert HoldsLock(m.threads[u].phase);
      match m.threads[u].phase {
        case Locked => assert Enabled(m, Claim(u));
        case Inside => assert Enabled(m, Finish(u, false));
        case Leaving(_) => assert Enabled(m, Release(u));
      }
    }
  }

  /* ---- The mutex stays usable ---- */

  lemma DoomedStep(m: Mutex, step: Step)
    requires Inv(m) && Enabled(m, step)
    ensures Doomed(Next(m, step)) <==> Doomed(m) || (step.Finish? && step.panicked)
  {
    if step.Claim? || step.Finish? || step.Release? {
      assert HoldsLock(m.threads[step.t].phase);
    }
  }

  /** The closure of some call before this moment panicked. */
  ghost predicate PanickedBefore(steps: seq<Step>, i: nat) {
    exists j :: 0 <= j < i && j < |steps| && steps[j].Finish? && steps[j].panicked
  }

  lemma {:induction false} DoomedIffPanicked(states: seq<Mutex>, steps: seq<Step>, i: nat)
    requires IsRun(states, steps) && i < |states|
    ensures Doomed(states[i]) <==> PanickedBefore(steps, i)
  {
    if i > 0 {
      DoomedIffPanicked(states, steps, i - 1);
      RunKeepsInv(states, steps, i - 1);
      DoomedStep(states[i - 1], steps[i - 1]);
      assert steps[i - 1].Finish? && steps[i - 1].panicked ==> PanickedBefore(steps, i);
      assert PanickedBefore(steps, i - 1) ==> PanickedBefore(steps, i);
    }
  }

  lemma DoomedLetsNobodyIn(m: Mutex, t: Thread)
    requires Inv(m) && Doomed(m) && t in m.threads
    ensures !m.threads[t].phase.Inside?
  {
    assert HoldsLock(m.threads[t].phase) <==> m.holder == Some(t);
  }

  /** After a closure panics, no closure ever starts again. */
  lemma NothingRunsAfterAPanic(states: seq<Mutex>, steps: seq<Step>, i: nat, j: nat)
    requires IsRun(states, steps) && i < j < |states|
    requires steps[i].Finish? && steps[i].panicked
    ensures Doomed(states[j]) && forall t | t in states[j].threads :: !states[j].threads[t].phase.Inside?
  {
    hide Inv;
    RunKeepsInv(states, steps, j);
    DoomedIffPanicked(states, steps, j);
    assert PanickedBefore(steps, j);
    forall t | t in states[j].threads
      ensures !states[j].threads[t].phase.Inside?
    {
      DoomedLetsNobodyIn(states[j], t);
    }
  }

  /** In every run the mutex is poisoned exactly when a closure has panicked and its call has let
      go of the lock. */
  lemma PoisonedIffPanicked(states: seq<Mutex>, steps: seq<Step>, i: nat)
    requires IsRun(states, steps) && i < |states|
    ensures states[i].poisoned <==> PanickedBefore(steps, i) && states[i].holder.None?
  {
    RunKeepsInv(states, steps, i);
    DoomedIffPanicked(states, steps, i);
  }

  /** While no closure panics no call fails for poisoning, and whoever waits can take the lock
      whenever it is free. */
  lemma WithoutPanicNobodyIsTurnedAway(states: seq<Mutex>, steps: seq<Step>, i: nat, t: Thread)
    requires IsRun(states, steps) && i < |states| && !PanickedBefore(steps, i)
    ensures i < |steps| ==> !steps[i].AcquirePoisoned? && ReplyTo(states[i], steps[i]) != FailedPoisoned
    ensures t in states[i].threads && states[i].threads[t].phase.Waiting? && states[i].holder.None? ==>
              Enabled(states[i], Acquire(t))
  {
    PoisonedIffPanicked(states, steps, i);
    RunKeepsInv(states, steps, i);
  }

  function RunFrom(m: Mutex, steps: seq<Step>): Option<Mutex>
    decreases |steps|
  {
    if steps == [] then Some(m)
    else if !Enabled(m, steps[0]) then None
    else RunFrom(Next(m, steps[0]), steps[1..])
  }

  lemma OneStepMore(m: Mutex, step: Step, rest: seq<Step>)
    requires Enabled(m, step)
    ensures RunFrom(m, [step] + rest) == RunFrom(Next(m, step), rest)
  {
    assert ([step] + rest)[1..] == rest;
  }

  /** The lock is free and a thread is in no call. */
  ghost predicate Ready(m: Mutex, t: Thread, at: nat) {
    Inv(m) && m.holder.None? && Loadable(m, t, at) && m.threads[t].phase.Outside?
  }

  lemma LockTaken(m: Mutex, t: Thread, at: nat)
    requires Ready(m, t, at) && !m.poisoned
    ensures RunFrom(m, [Check(t, at), Acquire(t)])
         == Some(m.(threads := m.threads[t := ThreadState(m.threads[t].key, Locked, at)], holder := Some(t)))
  {
    OwnKeyIffInside(m, t, at);
    hide Inv, RunFrom;
    var m1 := Next(m, Check(t, at));
    OneStepMore(m, Check(t, at), [Acquire(t)]);
    OneStepMore(m1, Acquire(t), []);
    NoSteps(Next(m1, Acquire(t)));
    assert [Acquire(t)] == [Acquire(t)] + [] && [Check(t, at), Acquire(t)] == [Check(t, at)] + [Acquire(t)];
    assert m1.threads[t := ThreadState(m.threads[t].key, Locked, at)] == m.threads[t := ThreadState(m.threads[t].key, Locked, at)];
  }

  lemma NoSteps(m: Mutex)
    ensures RunFrom(m, []) == Some(m)
  {
  }

  lemma LockedRuns(m: Mutex, t: Thread, panicked: bool)
    requires t in m.threads && m.threads[t].phase.Locked? && !m.poisoned
    ensures RunFrom(m, [Claim(t), Finish(t, panicked), Release(t)])
         == Some(Mutex(m.threads[t := ThreadState(m.threads[t].key, Outside, |m.owner| + 1)], m.nextKey,
                       m.owner + [m.threads[t].key] + [UNOWNED], None, panicked))
  {
    hide RunFrom;
    var m1 := Next(m, Claim(t));
    var m2 := Next(m1, Finish(t, panicked));
    var m3 := Next(m2, Release(t));
    OneStepMore(m, Claim(t), [Finish(t, panicked), Release(t)]);
    OneStepMore(m1, Finish(t, panicked), [Release(t)]);
    OneStepMore(m2, Release(t), []);
    NoSteps(m3);
    assert [Claim(t), Finish(t, panicked), Release(t)] == [Claim(t)] + [Finish(t, panicked), Release(t)];
    assert [Finish(t, panicked), Release(t)] == [Finish(t, panicked)] + [Release(t)] && [Release(t)] == [Release(t)] + [];
    assert m3.threads == m.threads[t := ThreadState(m.threads[t].key, Outside, |m.owner| + 1)];
  }

  /** A call on a free mutex, from a thread that is in none, is never blocked on its way.  It ends
      with the lock free and every other thread where it was, and poisons exactly if its closure
      panicked. */
  lemma CallGoesThrough(m: Mutex, t: Thread, at: nat, panicked: bool)
    requires Ready(m, t, at) && !m.poisoned
    ensures var taken := RunFrom(m, [Check(t, at), Acquire(t)]);
            taken.Some?
            && RunFrom(taken.value, [Claim(t), Finish(t, panicked), Release(t)])
            == Some(Mutex(m.threads[t := ThreadState(m.threads[t].key, Outside, |m.owner| + 1)], m.nextKey,
                          m.owner + [m.threads[t].key] + [UNOWNED], None, panicked))
  {
    hide Inv, RunFrom;
    LockTaken(m, t, at);
    var taken := RunFrom(m, [Check(t, at), Acquire(t)]).value;
    LockedRuns(taken, t, panicked);
    assert taken.threads[t := ThreadState(m.threads[t].key, Outside, |m.owner| + 1)]
        == m.threads[t := ThreadState(m.threads[t].key, Outside, |m.owner| + 1)];
  }

  /** On a poisoned mutex the same call fails, and nothing but what its thread saw is changed. */
  lemma PoisonedCallFails(m: Mutex, t: Thread, at: nat)
    requires Ready(m, t, at) && m.poisoned
    ensures Enabled(m, Check(t, at))
    ensures var m1 := Next(m, Check(t, at));
            && Enabled(m1, AcquirePoisoned(t)) && ReplyTo(m1, AcquirePoisoned(t)) == FailedPoisoned
            && Next(m1, AcquirePoisoned(t)) == m.(threads := m.threads[t := m.threads[t].(seen := at)])
  {
    OwnKeyIffInside(m, t, at);
    hide Inv;
    var m2 := Next(Next(m, Check(t, at)), AcquirePoisoned(t));
    assert m2.threads == m.threads[t := m.threads[t].(seen := at)];
  }
}
