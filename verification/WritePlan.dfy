/** Plans: lists of writes, kept paths and deletes, and the steps they stand for.

    Recording only grows the lists; applying takes the steps in order, on a disk that may
    refuse any of them.  Whichever step it stops at, disk and cache are those the steps taken
    lead to.  A path in the cache above is passed over and dropped from the cache below. */
module WritePlans {
  import opened Wrappers

  type Path = seq<string>

  /** A collision-free hash of a file's contents. */
  datatype Digest = Digest(content: string)

  function HashFile(contents: string): Digest {
    Digest(contents)
  }

  datatype Deletion = Deleted | NotFound | Refused

  /** A filesystem seen as its files.  Any operation may fail, and then changes nothing. */
  class Disk {
    var files: map<Path, string>
    /** How many writes and deletes were asked for. */
    var mutations: nat

    constructor (files: map<Path, string>)
      ensures this.files == files && mutations == 0
    {
      this.files, mutations := files, 0;
    }

    /** Directories exist as long as something lies beneath them. */
    method CreateDirAll(dir: Path) returns (ok: bool) {
      ok := *;
    }

    /** None when the filesystem could not tell.  A directory exists without being a file. */
    method Exists(path: Path) returns (r: Option<bool>)
      ensures r.Some? && path in files ==> r.value
    {
      if path in files {
        r := Some(true);
      } else {
        var isDir: bool := *;
        r := Some(isDir);
      }
      if * {
        r := None;
      }
    }

    method Write(path: Path, contents: string) returns (ok: bool)
      modifies this
      ensures files == if ok then old(files)[path := contents] else old(files)
      ensures mutations == old(mutations) + 1
    {
      mutations := mutations + 1;
      ok := *;
      if ok {
        files := files[path := contents];
      }
    }

    /** Moves a file, or fails and changes nothing. */
    method Rename(from: Path, to: Path) returns (ok: bool)
      modifies this
      ensures ok ==> from in old(files) && files == (old(files)[to := old(files)[from]] - if from == to then {} else {from})
      ensures !ok ==> files == old(files)
    {
      ok := *;
      if from !in files {
        ok := false;
      }
      if ok {
        files := files[to := files[from]] - if from == to then {} else {from};
      }
    }

    method Delete(path: Path) returns (r: Deletion)
      modifies this
      ensures files == if r.Deleted? then old(files) - {path} else old(files)
      ensures r.NotFound? ==> path !in files
      ensures mutations == old(mutations) + 1
    {
      mutations := mutations + 1;
      if * {
        r := Refused;
      } else if path in files {
        files := files - {path};
        r := Deleted;
      } else {
        r := NotFound;
      }
    }
  }

  /** What each output path was last written with. */
  class HashCache {
    var entries: map<Path, Digest>

    constructor ()
      ensures entries == map[]
    {
      entries := map[];
    }
  }

  datatype Write = Write(path: Path, contents: string, hash: Digest)

  /* ---- What applying a plan does, step by step ---- */

  datatype Step =
    | WriteStep(path: Path, contents: string, hash: Digest)
    | KeepStep(path: Path, hash: Digest)
    | DeleteStep(path: Path)

  datatype State = State(files: map<Path, string>, cache: map<Path, Digest>)

  function StepOnce(s: State, above: set<Path>, step: Step): State {
    match step
    case WriteStep(path, contents, hash) =>
      if path in above then s.(cache := s.cache - {path})
      else State(s.files[path := contents], s.cache[path := hash])
    case KeepStep(path, hash) =>
      if path in above then s.(cache := s.cache - {path}) else s.(cache := s.cache[path := hash])
    case DeleteStep(path) =>
      State(if path in above then s.files else s.files - {path}, s.cache - {path})
  }

  function StateAfter(s: State, above: set<Path>, steps: seq<Step>): State {
    if steps == [] then s
    else StepOnce(StateAfter(s, above, steps[..|steps| - 1]), above, steps[|steps| - 1])
  }

  function WriteSteps(writes: seq<Write>): seq<Step> {
    seq(|writes|, i requires 0 <= i < |writes| => WriteStep(writes[i].path, writes[i].contents, writes[i].hash))
  }

  function KeepSteps(kept: seq<(Path, Digest)>): seq<Step> {
    seq(|kept|, i requires 0 <= i < |kept| => KeepStep(kept[i].0, kept[i].1))
  }

  function DeleteSteps(deletes: seq<Path>): seq<Step> {
    seq(|deletes|, i requires 0 <= i < |deletes| => DeleteStep(deletes[i]))
  }

  lemma {:induction false} StateAfterConcat(s: State, above: set<Path>, first: seq<Step>, rest: seq<Step>)
    ensures StateAfter(s, above, first + rest) == StateAfter(StateAfter(s, above, first), above, rest)
    decreases |rest|
  {
    if rest == [] {
      assert first + rest == first;
    } else {
      var n := |rest| - 1;
      assert (first + rest)[..|first| + n] == first + rest[..n];
      StateAfterConcat(s, above, first, rest[..n]);
    }
  }

  lemma StateAfterOneMore(s: State, above: set<Path>, steps: seq<Step>, k: nat)
    requires k < |steps|
    ensures StateAfter(s, above, steps[..k + 1]) == StepOnce(StateAfter(s, above, steps[..k]), above, steps[k])
  {
    assert steps[..k + 1][..k] == steps[..k];
  }

  class WritePlan {
    var dirs: seq<Path>
    var writes: seq<Write>
    var kept: seq<(Path, Digest)>
    var deletes: seq<Path>
    var failures: seq<Path>

    constructor ()
      ensures dirs == [] && writes == [] && kept == [] && deletes == [] && failures == []
    {
      dirs, writes, kept, deletes, failures := [], [], [], [], [];
    }

    function Steps(): seq<Step>
      reads this
    {
      WriteSteps(writes) + KeepSteps(kept) + DeleteSteps(deletes)
    }

    /** The paths recorded so far, as writes or as kept. */
    function Visited(): set<Path>
      reads this
    {
      (set w | w in writes :: w.path) + (set u | u in kept :: u.0)
    }

    method Record(cache: HashCache, dir: Option<Path>, path: Path, contents: string, hash: Digest)
      modifies this
      ensures writes == if path in cache.entries && cache.entries[path] == hash then old(writes)
                        else old(writes) + [Write(path, contents, hash)]
      ensures kept == if path in cache.entries && cache.entries[path] == hash then old(kept) + [(path, hash)]
                           else old(kept)
      ensures dirs == if dir.None? || (path in cache.entries && cache.entries[path] == hash) then old(dirs)
                      else old(dirs) + [dir.value]
      ensures deletes == old(deletes) && failures == old(failures)
    {
      if path in cache.entries && cache.entries[path] == hash {
        kept := kept + [(path, hash)];
        return;
      }
      if dir.Some? {
        dirs := dirs + [dir.value];
      }
      writes := writes + [Write(path, contents, hash)];
    }

    method RecordReused(path: Path, hash: Digest)
      modifies this`kept
      ensures kept == old(kept) + [(path, hash)]
    {
      kept := kept + [(path, hash)];
    }

    /** Adds each cached path that was never recorded to the deletes, once, in any order. */
    method DeleteUnvisited(cache: HashCache)
      modifies this`deletes
      ensures old(deletes) <= deletes
      ensures var stale := deletes[|old(deletes)|..];
              && (forall p :: p in stale <==> p in cache.entries && p !in Visited())
              && (forall i, j | 0 <= i < j < |stale| :: stale[i] != stale[j])
    {
      var left := cache.entries.Keys;
      var visited := Visited();
      var stale: seq<Path> := [];
      while left != {}
        invariant left <= cache.entries.Keys
        invariant forall p :: p in stale <==> p in cache.entries.Keys - left && p !in visited
        invariant forall i, j | 0 <= i < j < |stale| :: stale[i] != stale[j]
        decreases |left|
      {
        var key :| key in left;
        left := left - {key};
        if key !in visited {
          stale := stale + [key];
        }
      }
      deletes := deletes + stale;
      assert deletes[|old(deletes)|..] == stale;
    }

    method Apply(disk: Disk, cache: HashCache) returns (ok: bool, ghost done: nat)
      modifies disk, cache
      ensures done <= |Steps()| && (ok ==> done == |Steps()|)
      ensures State(disk.files, cache.entries) == StateAfter(old(State(disk.files, cache.entries)), {}, Steps()[..done])
      ensures writes == [] && deletes == [] ==> disk.mutations == old(disk.mutations)
    {
      var none := new HashCache();
      ok, done := ApplyBeneath(disk, cache, none);
      assert none.entries.Keys == {};
    }

    /** Applies the plan, leaving alone every path `above` holds.  Stops at the first write
        or delete that fails: exactly the first `done` steps have then taken effect. */
    method ApplyBeneath(disk: Disk, cache: HashCache, above: HashCache) returns (ok: bool, ghost done: nat)
      requires above != cache
      modifies disk, cache
      ensures done <= |Steps()| && (ok ==> done == |Steps()|)
      ensures State(disk.files, cache.entries)
           == StateAfter(old(State(disk.files, cache.entries)), above.entries.Keys, Steps()[..done])
      ensures deletes == [] && (forall w | w in writes :: w.path in above.entries) ==> disk.mutations == old(disk.mutations)
    {
      ghost var start := State(disk.files, cache.entries);
      ghost var held := above.entries.Keys;
      ok, done := true, 0;
      for i := 0 to |dirs|
        invariant disk.files == start.files && cache.entries == start.cache && disk.mutations == old(disk.mutations)
      {
        ok := disk.CreateDirAll(dirs[i]);
        if !ok {
          return;
        }
      }
      ghost var w, k, d := WriteSteps(writes), KeepSteps(kept), DeleteSteps(deletes);
      ok, done := WriteAll(disk, cache, above);
      if !ok {
        assert Steps()[..done] == w[..done];
        return;
      }
      assert w[..done] == w;
      KeepAll(disk.files, cache, above);
      StateAfterConcat(start, held, w, k);
      ghost var deleted;
      ok, deleted := DeleteAll(disk, cache, above);
      StateAfterConcat(start, held, w + k, d[..deleted]);
      done := |w| + |k| + deleted;
      assert Steps()[..done] == w + k + d[..deleted];
    }

    method WriteAll(disk: Disk, cache: HashCache, above: HashCache) returns (ok: bool, ghost done: nat)
      requires above != cache
      modifies disk, cache
      ensures done <= |writes| && (ok ==> done == |writes|)
      ensures State(disk.files, cache.entries)
           == StateAfter(old(State(disk.files, cache.entries)), above.entries.Keys, WriteSteps(writes)[..done])
      ensures (forall w | w in writes :: w.path in above.entries) ==> disk.mutations == old(disk.mutations)
    {
      ghost var steps := WriteSteps(writes);
      ghost var start := State(disk.files, cache.entries);
      done := 0;
      for i := 0 to |writes|
        invariant done == i
        invariant State(disk.files, cache.entries) == StateAfter(start, above.entries.Keys, steps[..i])
        invariant (forall w | w in writes :: w.path in above.entries) ==> disk.mutations == old(disk.mutations)
      {
        StateAfterOneMore(start, above.entries.Keys, steps, i);
        var w := writes[i];
        assert w in writes;
        if w.path in above.entries {
          cache.entries := cache.entries - {w.path};
        } else {
          ok := disk.Write(w.path, w.contents);
          if !ok {
            return;
          }
          cache.entries := cache.entries[w.path := w.hash];
        }
        done := done + 1;
      }
      ok := true;
    }

    method KeepAll(ghost files: map<Path, string>, cache: HashCache, above: HashCache)
      requires above != cache
      modifies cache
      ensures State(files, cache.entries)
           == StateAfter(State(files, old(cache.entries)), above.entries.Keys, KeepSteps(kept))
    {
      ghost var steps := KeepSteps(kept);
      ghost var start := cache.entries;
      for i := 0 to |kept|
        invariant State(files, cache.entries) == StateAfter(State(files, start), above.entries.Keys, steps[..i])
      {
        StateAfterOneMore(State(files, start), above.entries.Keys, steps, i);
        var (path, hash) := kept[i];
        if path in above.entries {
          cache.entries := cache.entries - {path};
        } else {
          cache.entries := cache.entries[path := hash];
        }
      }
      assert steps[..|kept|] == steps;
    }

    method DeleteAll(disk: Disk, cache: HashCache, above: HashCache) returns (ok: bool, ghost done: nat)
      requires above != cache
      modifies disk, cache
      ensures done <= |deletes| && (ok ==> done == |deletes|)
      ensures State(disk.files, cache.entries)
           == StateAfter(old(State(disk.files, cache.entries)), above.entries.Keys, DeleteSteps(deletes)[..done])
      ensures deletes == [] ==> disk.mutations == old(disk.mutations)
    {
      ghost var steps := DeleteSteps(deletes);
      ghost var start := State(disk.files, cache.entries);
      done := 0;
      for i := 0 to |deletes|
        invariant done == i
        invariant State(disk.files, cache.entries) == StateAfter(start, above.entries.Keys, steps[..i])
        invariant deletes == [] ==> disk.mutations == old(disk.mutations)
      {
        StateAfterOneMore(start, above.entries.Keys, steps, i);
        ghost var files := disk.files;
        var path := deletes[i];
        if path !in above.entries {
          var there := disk.Exists(path);
          if there.None? {
            ok := false;
            return;
          }
          if there.value {
            var r := disk.Delete(path);
            if r.Refused? {
              ok := false;
              return;
            }
          }
          assert disk.files == files - {path};
        }
        cache.entries := cache.entries - {path};
        done := done + 1;
      }
      ok := true;
    }
  }
}
