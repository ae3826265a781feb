/** Paths as the in-memory filesystem keys them: lowercase strings, `/` between components. */
module MemoryPaths {

  /** No component is empty; the empty path is the root. */
  predicate WellFormed(p: string) {
    p == "" || (p[0] != '/' && p[|p| - 1] != '/' && forall i | 0 <= i < |p| - 1 :: !(p[i] == '/' && p[i + 1] == '/'))
  }

  function LastSlash(p: string): (k: int)
    ensures -1 <= k < |p|
    ensures k >= 0 ==> p[k] == '/'
    ensures forall i | k < i < |p| :: p[i] != '/'
  {
    if p == "" then -1
    else if p[|p| - 1] == '/' then |p| - 1
    else LastSlash(p[..|p| - 1])
  }

  function Parent(p: string): string {
    if LastSlash(p) < 0 then "" else p[..LastSlash(p)]
  }

  /** Strictly beneath, component by component. */
  predicate Beneath(p: string, dir: string) {
    if dir == "" then p != "" else |p| > |dir| && p[..|dir|] == dir && p[|dir|] == '/'
  }

  function Slashes(p: string): nat {
    if p == "" then 0 else Slashes(p[..|p| - 1]) + if p[|p| - 1] == '/' then 1 else 0
  }

  lemma {:induction false} NoSlashes(p: string)
    requires forall i | 0 <= i < |p| :: p[i] != '/'
    ensures Slashes(p) == 0
    decreases |p|
  {
    if p != "" {
      NoSlashes(p[..|p| - 1]);
    }
  }

  lemma {:induction false} SlashesConcat(a: string, b: string)
    ensures Slashes(a + b) == Slashes(a) + Slashes(b)
    decreases |b|
  {
    if b == "" {
      assert a + b == a;
    } else {
      assert (a + b)[..|a| + |b| - 1] == a + b[..|b| - 1];
      SlashesConcat(a, b[..|b| - 1]);
    }
  }

  /** A path has one separator more than its directory, unless that is the root. */
  lemma SlashesOfParent(p: string)
    requires WellFormed(p) && p != ""
    ensures Slashes(p) == if Parent(p) == "" then 0 else Slashes(Parent(p)) + 1
  {
    var k := LastSlash(p);
    if k < 0 {
      NoSlashes(p);
    } else {
      assert p == p[..k] + ("/" + p[k + 1..]);
      SlashesConcat(p[..k], "/" + p[k + 1..]);
      SlashesConcat("/", p[k + 1..]);
      NoSlashes(p[k + 1..]);
      assert "/"[..0] == "" && Slashes("/") == 1;
    }
  }

  lemma MoreSlashesBeneath(p: string, dir: string)
    requires Beneath(p, dir) && dir != ""
    ensures Slashes(p) > Slashes(dir)
  {
    assert p == dir + ("/" + p[|dir| + 1..]);
    SlashesConcat(dir, "/" + p[|dir| + 1..]);
    SlashesConcat("/", p[|dir| + 1..]);
    assert "/"[..0] == "" && Slashes("/") == 1;
  }

  /** What is left of a path once a directory is stripped off it. */
  datatype Stripped = NotBeneath | Rest(path: string)

  function StripPrefix(p: string, dir: string): Stripped {
    if dir == "" then Rest(p)
    else if p == dir then Rest("")
    else if Beneath(p, dir) then Rest(p[|dir| + 1..])
    else NotBeneath
  }

  lemma ParentIsAbove(p: string)
    requires WellFormed(p) && p != ""
    ensures WellFormed(Parent(p)) && |Parent(p)| < |p| && Beneath(p, Parent(p))
  {
    var k := LastSlash(p);
    if k >= 0 {
      var q := Parent(p);
      assert q != "" && q[|q| - 1] == p[k - 1];
      forall i | 0 <= i < |q| - 1
        ensures !(q[i] == '/' && q[i + 1] == '/')
      {
        assert q[i] == p[i] && q[i + 1] == p[i + 1];
      }
    }
  }

  /** Everything above a path is its parent or above its parent. */
  lemma AboveParent(p: string, dir: string)
    requires WellFormed(p) && p != ""
    ensures Beneath(p, dir) <==> dir == Parent(p) || Beneath(Parent(p), dir)
  {
    ParentIsAbove(p);
    var k := LastSlash(p);
    if dir != "" {
      if Beneath(p, dir) {
        assert |dir| <= k;
        assert |dir| < k ==> Parent(p)[|dir|] == '/' && Parent(p)[..|dir|] == dir;
      }
      if Beneath(Parent(p), dir) {
        assert p[..|dir|] == dir && p[|dir|] == '/';
      }
    }
  }

  lemma BeneathTransitive(p: string, q: string, dir: string)
    requires Beneath(p, q) && Beneath(q, dir)
    ensures Beneath(p, dir)
  {
    if dir != "" {
      assert p[..|dir|] == q[..|dir|] && p[|dir|] == q[|dir|];
    }
  }

  function Joined(dir: string, rest: string): string {
    if dir == "" then rest else dir + "/" + rest
  }

  /** Stripping a directory off a path undoes joining it on, and succeeds on nothing that only
      extends the directory's name as a string. */
  lemma StripUndoesJoin(p: string, dir: string, rest: string)
    requires WellFormed(p)
    ensures Beneath(p, dir) && StripPrefix(p, dir) == Rest(rest) <==> rest != "" && p == Joined(dir, rest)
    ensures StripPrefix(p, dir).Rest? <==> p == dir || Beneath(p, dir)
  {
    if dir != "" && rest != "" && p == Joined(dir, rest) {
      assert p[..|dir|] == dir && p[|dir| + 1..] == rest;
    }
    if dir != "" && Beneath(p, dir) {
      assert p == p[..|dir|] + [p[|dir|]] + p[|dir| + 1..];
      assert p[|p| - 1] != '/';
    }
  }

  /** The outermost ancestor of a path that still extends a name as a string lies right beside
      that name: either it is the name itself, or it is a sibling of it. */
  lemma {:induction false} Shallowest(p: string, name: string) returns (q: string)
    requires WellFormed(p) && name <= p && name != "" && WellFormed(name)
    ensures q != "" && WellFormed(q) && name <= q && (q == p || Beneath(p, q))
    ensures Parent(q) == Parent(name) && (q == name <==> p == name || Beneath(p, name))
    decreases |p|
  {
    ParentIsAbove(p);
    if name <= Parent(p) {
      q := Shallowest(Parent(p), name);
      if q != Parent(p) {
        BeneathTransitive(p, Parent(p), q);
      }
      AboveParent(p, name);
    } else {
      q := p;
      SameParent(p, name);
      if Beneath(p, name) {
        AboveParent(p, name);
      }
    }
  }

  lemma SameParent(p: string, name: string)
    requires WellFormed(p) && name <= p && name != "" && WellFormed(name) && !(name <= Parent(p))
    ensures Parent(p) == Parent(name)
  {
    var k := LastSlash(p);
    assert forall j | |name| <= j < |p| :: name <= p[..j];
    assert forall i | 0 <= i < |name| :: name[i] == p[i];
    assert k == LastSlash(name);
    if k >= 0 {
      assert p[..k] == name[..k];
    }
  }
}
