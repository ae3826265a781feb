/** The check that keeps a build dir apart from the dirs a build reads.

    Paths are compared component by component, as written: nothing resolves `.` or `..`. */
module Manifests {
  import opened Wrappers
  import opened WritePlans
  import opened Builds

  datatype Component = Normal(name: string) | CurDir | ParentDir | RootDir

  type Components = seq<Component>

  datatype Dirs = Dirs(objects: Components, pages: Components, layout: Components, statics: Components,
                       scripts: Option<Components>, build: Components, scriptsBuild: Components)

  function SourceDirs(d: Dirs): seq<(string, Components)> {
    [("objects", d.objects), ("pages", d.pages), ("layout_dir", d.layout), ("static_dir", d.statics)]
      + if d.scripts.Some? then [("scripts_dir", d.scripts.value)] else []
  }

  predicate Overlaps(build: Components, dir: Components) {
    dir <= build || build <= dir
  }

  ghost predicate FirstOverlap(d: Dirs, i: nat)
    requires i < |SourceDirs(d)|
  {
    Overlaps(d.build, SourceDirs(d)[i].1) && forall j | 0 <= j < i :: !Overlaps(d.build, SourceDirs(d)[j].1)
  }

  /** The name of the first source dir the build dir overlaps, or None when it is apart from all. */
  method ValidateBuildDir(d: Dirs) returns (overlap: Option<string>)
    ensures overlap.None? <==> forall i | 0 <= i < |SourceDirs(d)| :: !Overlaps(d.build, SourceDirs(d)[i].1)
    ensures overlap.Some? ==> exists i :: 0 <= i < |SourceDirs(d)| && FirstOverlap(d, i) && overlap.value == SourceDirs(d)[i].0
    ensures overlap == if Overlaps(d.build, d.objects) then Some("objects")
                       else if Overlaps(d.build, d.pages) then Some("pages")
                       else if Overlaps(d.build, d.layout) then Some("layout_dir")
                       else if Overlaps(d.build, d.statics) then Some("static_dir")
                       else if d.scripts.Some? && Overlaps(d.build, d.scripts.value) then Some("scripts_dir")
                       else None
  {
    var dirs := SourceDirs(d);
    assert dirs[0] == ("objects", d.objects) && dirs[1] == ("pages", d.pages);
    assert dirs[2] == ("layout_dir", d.layout) && dirs[3] == ("static_dir", d.statics);
    assert if d.scripts.Some? then |dirs| == 5 && dirs[4] == ("scripts_dir", d.scripts.value) else |dirs| == 4;
    for i := 0 to |dirs|
      invariant forall j | 0 <= j < i :: !Overlaps(d.build, dirs[j].1)
    {
      if Overlaps(d.build, dirs[i].1) {
        assert FirstOverlap(d, i);
        return Some(dirs[i].0);
      }
    }
    overlap := None;
  }

  ghost predicate Accepted(d: Dirs) {
    forall i | 0 <= i < |SourceDirs(d)| :: !Overlaps(d.build, SourceDirs(d)[i].1)
  }

  predicate Under(dir: Components, p: Components) {
    dir <= p
  }

  /** A manifest is accepted exactly when no path lies under both the build dir and a source dir. */
  lemma AcceptedIffNothingShared(d: Dirs)
    ensures Accepted(d) <==>
            forall i, p: Components | 0 <= i < |SourceDirs(d)| :: !(Under(d.build, p) && Under(SourceDirs(d)[i].1, p))
  {
    forall i, p: Components | 0 <= i < |SourceDirs(d)| && Under(d.build, p) && Under(SourceDirs(d)[i].1, p)
      ensures Overlaps(d.build, SourceDirs(d)[i].1)
    {
      var dir := SourceDirs(d)[i].1;
      assert |dir| <= |d.build| ==> dir == d.build[..|dir|];
      assert |d.build| <= |dir| ==> d.build == dir[..|d.build|];
    }
    forall i | 0 <= i < |SourceDirs(d)| && Overlaps(d.build, SourceDirs(d)[i].1)
      ensures exists p: Components :: Under(d.build, p) && Under(SourceDirs(d)[i].1, p)
    {
      var dir := SourceDirs(d)[i].1;
      var p := if |dir| <= |d.build| then d.build else dir;
      assert Under(d.build, p) && Under(dir, p);
    }
  }

  /** The build dir with the scripts' own components joined on, if each is a name or a `.`. */
  function ScriptsBuildPath(d: Dirs): Option<Components> {
    if forall c | c in d.scriptsBuild :: c.Normal? || c.CurDir? then Some(d.build + Named(d.scriptsBuild)) else None
  }

  /** Joining drops every `.` that does not lead. */
  function Named(cs: Components): (r: Components)
    ensures forall c | c in r :: c.Normal?
  {
    if cs == [] then []
    else if cs[0].Normal? then [cs[0]] + Named(cs[1..])
    else Named(cs[1..])
  }

  /** Where a path leads once `.` and `..` are followed. */
  function Resolve(cs: Components): Path {
    if cs == [] then []
    else
      var init := Resolve(cs[..|cs| - 1]);
      match cs[|cs| - 1]
      case Normal(name) => init + [name]
      case CurDir => init
      case RootDir => []
      case ParentDir => if init == [] then [] else init[..|init| - 1]
  }

  ghost predicate Plain(cs: Components) {
    forall c | c in cs :: c.Normal?
  }

  lemma {:induction false} PlainResolves(cs: Components)
    requires Plain(cs)
    ensures |Resolve(cs)| == |cs| && forall i | 0 <= i < |cs| :: cs[i] == Normal(Resolve(cs)[i])
  {
    if cs != [] {
      assert cs[|cs| - 1] in cs;
      PlainResolves(cs[..|cs| - 1]);
    }
  }

  lemma PlainPrefix(a: Components, b: Components)
    requires Plain(a) && Plain(b)
    ensures a <= b <==> Resolve(a) <= Resolve(b)
  {
    PlainResolves(a);
    PlainResolves(b);
    var x, y := Resolve(a), Resolve(b);
    if x <= y {
      assert forall i | 0 <= i < |a| :: a[i] == b[i];
    }
    if a <= b {
      assert forall i | 0 <= i < |x| :: Normal(x[i]) == Normal(y[i]);
    }
  }

  /** The scripts dir lies under the build dir, where it leads as well as where it is written. */
  lemma {:induction false} ScriptsStayInside(d: Dirs)
    requires ScriptsBuildPath(d).Some?
    ensures d.build <= ScriptsBuildPath(d).value && Resolve(d.build) <= Resolve(ScriptsBuildPath(d).value)
  {
    ResolveOnward(d.build, Named(d.scriptsBuild));
  }

  lemma {:induction false} ResolveOnward(base: Components, more: Components)
    requires Plain(more)
    ensures Resolve(base) <= Resolve(base + more)
    decreases |more|
  {
    if more == [] {
      assert base + more == base;
    } else {
      var n := |more| - 1;
      assert more[n] in more;
      assert (base + more)[..|base| + n] == base + more[..n];
      ResolveOnward(base, more[..n]);
    }
  }

  ghost predicate AllPlain(d: Dirs) {
    Plain(d.build) && forall i | 0 <= i < |SourceDirs(d)| :: Plain(SourceDirs(d)[i].1)
  }

  /** For dirs written without `.` and `..`, acceptance means the dirs themselves are apart. */
  lemma PlainAcceptedIffApart(d: Dirs)
    requires AllPlain(d)
    ensures Accepted(d) <==>
            forall i | 0 <= i < |SourceDirs(d)| ::
              !(Resolve(SourceDirs(d)[i].1) <= Resolve(d.build)) && !(Resolve(d.build) <= Resolve(SourceDirs(d)[i].1))
  {
    forall i | 0 <= i < |SourceDirs(d)|
      ensures Overlaps(d.build, SourceDirs(d)[i].1) <==>
              Resolve(SourceDirs(d)[i].1) <= Resolve(d.build) || Resolve(d.build) <= Resolve(SourceDirs(d)[i].1)
    {
      PlainPrefix(SourceDirs(d)[i].1, d.build);
      PlainPrefix(d.build, SourceDirs(d)[i].1);
    }
  }

  /* ---- Dirs with `.` in them ---- */

  /** Written with names and `.` alone. */
  ghost predicate NoClimb(cs: Components) {
    forall c | c in cs :: c.Normal? || c.CurDir?
  }

  lemma {:induction false} NamedOfJoined(a: Components, b: Components)
    ensures Named(a + b) == Named(a) + Named(b)
  {
    if a == [] {
      assert a + b == b;
    } else {
      assert (a + b)[1..] == a[1..] + b;
      NamedOfJoined(a[1..], b);
    }
  }

  lemma {:induction false} PlainIsNamed(cs: Components)
    requires Plain(cs)
    ensures Named(cs) == cs
  {
    if cs != [] {
      assert cs[0] in cs;
      PlainIsNamed(cs[1..]);
    }
  }

  lemma {:induction false} PlainJoined(lead: Components, cs: Components)
    requires Plain(cs)
    ensures Resolve(lead + cs) == Resolve(lead) + Resolve(cs)
    decreases |cs|
  {
    if cs == [] {
      assert lead + cs == lead;
    } else {
      var n := |cs| - 1;
      assert cs[n] in cs;
      assert (lead + cs)[..|lead| + n] == lead + cs[..n];
      PlainJoined(lead, cs[..n]);
    }
  }

  lemma OneMore(cs: Components, c: Component)
    requires c.Normal? || c.CurDir?
    ensures Resolve(cs + [c]) == if c.Normal? then Resolve(cs) + [c.name] else Resolve(cs)
    ensures Named(cs + [c]) == if c.Normal? then Named(cs) + [c] else Named(cs)
  {
    assert (cs + [c])[..|cs|] == cs;
    NamedOfJoined(cs, [c]);
    assert [c][1..] == [];
  }

  /** Names and `.` lead on from wherever the lead ends. */
  lemma {:induction false} ResolvesByName(lead: Components, cs: Components)
    requires NoClimb(cs)
    ensures Resolve(lead + cs) == Resolve(lead) + Resolve(Named(cs))
    decreases |cs|
  {
    if cs == [] {
      assert lead + cs == lead;
    } else {
      hide Resolve, Named;
      var init, c := cs[..|cs| - 1], cs[|cs| - 1];
      assert c in cs;
      assert cs == init + [c];
      ResolvesByName(lead, init);
      Regroup(lead, init, c);
      OneMore(lead + init, c);
      OneMore(init, c);
      if c.Normal? {
        OneMore(Named(init), c);
        Regroup(Resolve(lead), Resolve(Named(init)), c.name);
      }
    }
  }

  lemma Regroup<T>(a: seq<T>, b: seq<T>, x: T)
    ensures a + (b + [x]) == (a + b) + [x]
  {
  }

  /** Scripts build to where the two dirs joined lead, unless the inner one is absolute or climbs. */
  lemma ScriptsBuildWhere(d: Dirs)
    ensures ScriptsBuildPath(d).Some? <==> NoClimb(d.scriptsBuild)
    ensures NoClimb(d.scriptsBuild) ==> Resolve(ScriptsBuildPath(d).value) == Resolve(d.build + d.scriptsBuild)
  {
    if NoClimb(d.scriptsBuild) {
      ResolvesByName(d.build, d.scriptsBuild);
      PlainJoined(d.build, Named(d.scriptsBuild));
    }
  }

  ghost predicate DirsApart(a: Path, b: Path) {
    !(a <= b) && !(b <= a)
  }

  lemma PrefixCancels<T>(lead: seq<T>, a: seq<T>, b: seq<T>)
    ensures lead + a <= lead + b <==> a <= b
  {
    if lead + a <= lead + b {
      assert a == (lead + a)[|lead|..] && b == (lead + b)[|lead|..];
      assert forall i | 0 <= i < |a| :: a[i] == (lead + a)[|lead| + i] == (lead + b)[|lead| + i] == b[i];
    }
    if a <= b {
      assert b == a + b[|a|..];
      assert lead + b == lead + a + b[|a|..];
    }
  }

  /** Two dirs without `..`, under one lead, are apart exactly when their names do not overlap,
      and then they do not overlap as written either. */
  lemma ApartByName(lead: Components, a: Components, b: Components)
    requires NoClimb(a) && NoClimb(b)
    ensures DirsApart(Resolve(lead + a), Resolve(lead + b)) <==> !Overlaps(Named(a), Named(b))
    ensures DirsApart(Resolve(lead + a), Resolve(lead + b)) ==> !Overlaps(lead + a, lead + b)
    ensures Plain(a) && Plain(b) ==> (DirsApart(Resolve(lead + a), Resolve(lead + b)) <==> !Overlaps(lead + a, lead + b))
  {
    hide Resolve, Named;
    ResolvesByName(lead, a);
    ResolvesByName(lead, b);
    PrefixCancels(Resolve(lead), Resolve(Named(a)), Resolve(Named(b)));
    PrefixCancels(Resolve(lead), Resolve(Named(b)), Resolve(Named(a)));
    PlainPrefix(Named(a), Named(b));
    PlainPrefix(Named(b), Named(a));
    PrefixCancels(lead, a, b);
    PrefixCancels(lead, b, a);
    if a <= b {
      NamedOfJoined(a, b[|a|..]);
      assert b == a + b[|a|..];
    }
    if b <= a {
      NamedOfJoined(b, a[|b|..]);
      assert a == b + a[|b|..];
    }
    if Plain(a) && Plain(b) {
      PlainIsNamed(a);
      PlainIsNamed(b);
    }
  }

  /** A name other than the one at a place. */
  function OtherName(c: Option<Component>): string {
    if c == Some(Normal("a")) then "b" else "a"
  }

  /** Given the dir paths are read from, a build dir is apart from every plain source dir it does
      not overlap as written, if and only if it is plain itself or leads to a place neither above
      nor beneath that dir. */
  lemma BuildDirIsSafeIff(lead: Components, build: Components)
    ensures (forall dir: Components | Plain(dir) && !Overlaps(build, dir) :: DirsApart(Resolve(lead + build), Resolve(lead + dir)))
            <==> Plain(build) || DirsApart(Resolve(lead + build), Resolve(lead))
  {
    hide Resolve, Named;
    var here, r := Resolve(lead), Resolve(lead + build);
    if Plain(build) {
      forall dir: Components | Plain(dir) && !Overlaps(build, dir)
        ensures DirsApart(r, Resolve(lead + dir))
      {
        ApartByName(lead, build, dir);
        PlainIsNamed(build);
        PlainIsNamed(dir);
      }
    } else if DirsApart(r, here) {
      forall dir: Components | Plain(dir)
        ensures DirsApart(r, Resolve(lead + dir))
      {
        PlainJoined(lead, dir);
        ApartFromBeneath(r, here, Resolve(dir));
      }
    } else {
      var dir := Witness(build, if here <= r then r[|here|..] else []);
      PlainJoined(lead, dir);
      var names := if here <= r then r[|here|..] else [];
      assert names <= Resolve(dir);
      PrefixCancels(here, names, Resolve(dir));
      assert here <= r ==> r == here + names;
      assert r <= here ==> r <= here + Resolve(dir);
      assert r <= here + Resolve(dir);
    }
  }

  lemma ApartFromBeneath(a: Path, b: Path, more: Path)
    requires DirsApart(a, b)
    ensures DirsApart(a, b + more)
  {
  }

  /** A plain dir beneath the given names that a dir which is not plain does not overlap. */
  lemma Witness(build: Components, names: Path) returns (dir: Components)
    requires !Plain(build)
    ensures Plain(dir) && !Overlaps(build, dir) && names <= Resolve(dir)
  {
    var n := |names|;
    var at := if n < |build| then Some(build[n]) else None;
    dir := seq(n, i requires 0 <= i < n => Normal(names[i])) + [Normal(OtherName(at))];
    PlainResolves(dir);
    assert names <= Resolve(dir) by {
      assert forall i | 0 <= i < n :: dir[i] == Normal(names[i]);
    }
    if dir <= build {
      assert build[n] == dir[n];
    }
  }

  /** With `..` acceptance is not enough: `out/../objects` is accepted beside `objects`. */
  lemma ClimbingBuildDirIsAccepted()
    ensures var d := Beside([Normal("out"), ParentDir, Normal("objects")]);
            Accepted(d) && Resolve(d.build) == Resolve(d.objects)
  {
    hide Resolve;
    var out, objects := Normal("out"), Normal("objects");
    ClimbBack([], out);
    OneMore([], objects);
    OneMore([out, ParentDir], objects);
    assert [] + [objects] == [objects] && [out, ParentDir] + [objects] == [out, ParentDir, objects];
    assert [] + [out, ParentDir] == [out, ParentDir];
    BesideAccepted([out, ParentDir, objects]);
  }

  lemma BesideAccepted(build: Components)
    requires build != [] && build[0] in {Normal("out"), CurDir}
    ensures Accepted(Beside(build))
  {
    EachDir(Beside(build));
    assert |"out"| == 3 && |"objects"| == 7 && |"pages"| == 5 && |"layout"| == 6 && |"public"| == 6;
    assert forall dir: Components | dir != [] && dir[0] != build[0] :: !Overlaps(build, dir);
  }

  lemma ClimbBack(cs: Components, c: Component)
    requires c.Normal?
    ensures Resolve(cs + [c, ParentDir]) == Resolve(cs)
  {
    assert (cs + [c, ParentDir])[..|cs| + 1] == cs + [c];
    assert (cs + [c])[..|cs|] == cs;
  }

  function Beside(build: Components): Dirs {
    Dirs([Normal("objects")], [Normal("pages")], [Normal("layout")], [Normal("public")], None, build, [])
  }

  /** Nor is it with `.`: `./objects` is accepted beside `objects`. */
  lemma DottedBuildDirIsAccepted()
    ensures var d := Beside([CurDir, Normal("objects")]);
            Accepted(d) && Resolve(d.build) == Resolve(d.objects)
  {
    hide Resolve;
    var build, objects := [CurDir, Normal("objects")], [Normal("objects")];
    ResolvesByName([], build);
    ResolvesByName([], objects);
    assert [] + build == build && [] + objects == objects;
    assert build[1..] == objects;
    BesideAccepted(build);
  }

  /** The manifest a build works with. */
  function ResolvedManifest(d: Dirs, siteUrl: string, sitemap: bool): Manifest {
    Manifest(Resolve(d.objects), Resolve(d.pages), Resolve(d.layout), Resolve(d.statics),
             if d.scripts.Some? then Some(Resolve(d.scripts.value)) else None,
             Resolve(d.build), Resolve(Named(d.scriptsBuild)), siteUrl, sitemap)
  }

  /** The dirs as they stand once joined onto the site's root. */
  function Rooted(lead: Components, d: Dirs): Dirs {
    Dirs(lead + d.objects, lead + d.pages, lead + d.layout, lead + d.statics,
         if d.scripts.Some? then Some(lead + d.scripts.value) else None, lead + d.build, d.scriptsBuild)
  }

  /** The dirs with every `.` left out. */
  function Undotted(d: Dirs): Dirs {
    Dirs(Named(d.objects), Named(d.pages), Named(d.layout), Named(d.statics),
         if d.scripts.Some? then Some(Named(d.scripts.value)) else None, Named(d.build), d.scriptsBuild)
  }

  ghost predicate NoneClimbs(d: Dirs) {
    NoClimb(d.build) && forall i | 0 <= i < |SourceDirs(d)| :: NoClimb(SourceDirs(d)[i].1)
  }

  /** On dirs without `..`, whatever root they are joined onto, what every build relies on holds
      exactly when the names alone are accepted.  A manifest that meets it is never refused, and
      where no `.` is written either, the check decides it. */
  lemma AcceptedManifestIsApart(lead: Components, d: Dirs, siteUrl: string, sitemap: bool)
    requires NoneClimbs(d)
    ensures Apart(ResolvedManifest(Rooted(lead, d), siteUrl, sitemap)) <==> Accepted(Undotted(d))
    ensures Apart(ResolvedManifest(Rooted(lead, d), siteUrl, sitemap)) ==> Accepted(Rooted(lead, d))
    ensures AllPlain(d) ==> (Accepted(Rooted(lead, d)) <==> Apart(ResolvedManifest(Rooted(lead, d), siteUrl, sitemap)))
  {
    hide Resolve, Named, NoClimb, Plain, Overlaps;
    EachDir(d);
    EachDir(Undotted(d));
    EachDir(Rooted(lead, d));
    var dirs := SourceDirs(d);
    assert dirs[0].1 == d.objects && dirs[1].1 == d.pages && dirs[2].1 == d.layout && dirs[3].1 == d.statics;
    assert d.scripts.Some? ==> |dirs| == 5 && dirs[4].1 == d.scripts.value;
    ApartByName(lead, d.build, d.objects);
    ApartByName(lead, d.build, d.pages);
    ApartByName(lead, d.build, d.layout);
    ApartByName(lead, d.build, d.statics);
    if d.scripts.Some? {
      ApartByName(lead, d.build, d.scripts.value);
    }
  }

  lemma EachDir(d: Dirs)
    ensures Accepted(d) <==>
            && !Overlaps(d.build, d.objects) && !Overlaps(d.build, d.pages) && !Overlaps(d.build, d.layout)
            && !Overlaps(d.build, d.statics) && (d.scripts.Some? ==> !Overlaps(d.build, d.scripts.value))
  {
    var dirs := SourceDirs(d);
    assert dirs[0].1 == d.objects && dirs[1].1 == d.pages && dirs[2].1 == d.layout && dirs[3].1 == d.statics;
    assert d.scripts.Some? ==> |dirs| == 5 && dirs[4].1 == d.scripts.value;
  }
}
