/** The directory graph of the in-memory filesystem: what it should say about a set of files,
    and the two walks up the ancestors that keep it so. */
module FileGraphs {
  import opened MemoryPaths

  /** A directory's entries: full path to whether it is a file. */
  type Node = map<string, bool>

  type Tree = map<string, Node>

  function GetNode(tree: Tree, dir: string): Node {
    if dir in tree then tree[dir] else map[]
  }

  /** Adding an entry that is already there changes nothing, not even its flag. */
  function AddEntry(node: Node, path: string, isFile: bool): Node {
    if path in node then node else node[path := isFile]
  }

  /* ---- What the graph should say ---- */

  /** A path is a file, or a directory some file lies beneath. */
  ghost predicate Alive(files: set<string>, p: string) {
    p in files || exists f :: f in files && Beneath(f, p)
  }

  ghost predicate HasEntry(tree: Tree, c: string) {
    Parent(c) in tree && c in tree[Parent(c)]
  }

  /** Every entry is where it belongs, names something alive, and is flagged right. */
  ghost predicate EntryRight(files: set<string>, d: string, c: string, isFile: bool) {
    c != "" && WellFormed(c) && Parent(c) == d && Alive(files, c) && isFile == (c in files)
  }

  ghost predicate Sound(files: set<string>, tree: Tree) {
    && (forall d | d in tree :: tree[d] != map[])
    && (forall d, c | d in tree && c in tree[d] :: EntryRight(files, d, c, tree[d][c]))
  }

  /** A directory node's entries are exactly its live direct children, each flagged right,
      and there is a node exactly where there is an entry. */
  ghost predicate Exact(files: set<string>, tree: Tree) {
    && Sound(files, tree)
    && (forall c | c != "" && WellFormed(c) && Alive(files, c) :: HasEntry(tree, c))
  }

  /** Files have nonempty, well-formed names, and nothing lies beneath a file. */
  ghost predicate Regular(files: set<string>) {
    && (forall f | f in files :: f != "" && WellFormed(f))
    && (forall f, g | f in files && g in files :: !Beneath(f, g))
  }

  ghost predicate NoFileAbove(files: set<string>, p: string) {
    forall f | f in files :: !Beneath(p, f)
  }

  lemma AliveUpward(files: set<string>, p: string, dir: string)
    requires Alive(files, p) && Beneath(p, dir)
    ensures Alive(files, dir)
  {
    if p !in files {
      var f :| f in files && Beneath(f, p);
      BeneathTransitive(f, p, dir);
    }
  }

  /** Between a directory and anything alive beneath it lies a live direct child. */
  lemma {:induction false} LiveChild(files: set<string>, p: string, dir: string) returns (c: string)
    requires WellFormed(p) && Alive(files, p) && Beneath(p, dir)
    ensures c != "" && WellFormed(c) && Parent(c) == dir && Alive(files, c)
    decreases |p|
  {
    ParentIsAbove(p);
    AboveParent(p, dir);
    if Parent(p) == dir {
      c := p;
    } else {
      AliveUpward(files, p, Parent(p));
      c := LiveChild(files, Parent(p), dir);
    }
  }

  /** In an exact graph, a directory node exists exactly where some file lies beneath. */
  lemma NodeIffFileBeneath(files: set<string>, tree: Tree, dir: string)
    requires Regular(files) && Exact(files, tree)
    ensures dir in tree <==> exists f :: f in files && Beneath(f, dir)
  {
    if dir in tree {
      var c :| c in tree[dir];
      assert EntryRight(files, dir, c, tree[dir][c]);
      ParentIsAbove(c);
      if c !in files {
        var f :| f in files && Beneath(f, c);
        BeneathTransitive(f, c, dir);
      }
    }
    if f :| f in files && Beneath(f, dir) {
      var c := LiveChild(files, f, dir);
      assert HasEntry(tree, c);
    }
  }

  /* ---- Linking and unlinking ---- */

  /** Adds `last` to its parent's node, and each ancestor to its own parent's. */
  function Link(tree: Tree, last: string, isFile: bool): Tree
    requires WellFormed(last)
    decreases |last|
  {
    if last == "" then tree
    else
      ParentIsAbove(last);
      var dir := Parent(last);
      Link(tree[dir := AddEntry(GetNode(tree, dir), last, isFile)], dir, false)
  }

  /** Removes `last` from its parent's node.  A node left empty is removed and the walk goes
      on with its own entry; the walk stops at the first node that keeps an entry. */
  function Unlink(tree: Tree, last: string): Tree
    requires WellFormed(last)
    decreases |last|
  {
    if last == "" then tree
    else
      ParentIsAbove(last);
      var dir := Parent(last);
      var node := GetNode(tree, dir) - {last};
      if node == map[] then Unlink(tree - {dir}, dir) else tree[dir := node]
  }

  /** The entries of a path and of everything above it. */
  ghost predicate OnPath(c: string, last: string) {
    c == last || Beneath(last, c)
  }

  lemma {:induction false} LinkMakesExact(files: set<string>, tree: Tree, last: string)
    requires WellFormed(last) && Sound(files, tree)
    requires last != "" ==> Alive(files, last)
    requires forall c | c != "" && WellFormed(c) && Alive(files, c) && !OnPath(c, last) :: HasEntry(tree, c)
    ensures Exact(files, Link(tree, last, last in files))
    requires forall f | f in files :: !Beneath(last, f)
    decreases |last|
  {
    if last != "" {
      ParentIsAbove(last);
      var dir := Parent(last);
      var tree' := tree[dir := AddEntry(GetNode(tree, dir), last, last in files)];
      AliveUpward(files, last, dir);
      forall c | c != "" && WellFormed(c) && Alive(files, c) && !OnPath(c, dir)
        ensures HasEntry(tree', c)
      {
        AboveParent(last, c);
      }
      forall f | f in files
        ensures !Beneath(dir, f)
      {
        AboveParent(last, f);
      }
      AboveParent(last, dir);
      LinkMakesExact(files, tree', dir);
    }
  }

  /** What the walk up relies on: whatever is alive is entered and flagged right, and the only
      entries that may be wrong lie on the path being walked. */
  ghost predicate StaleOnlyOn(files: set<string>, tree: Tree, last: string) {
    && (forall d | d in tree :: tree[d] != map[])
    && (forall d, c | d in tree && c in tree[d] :: c != "" && WellFormed(c) && Parent(c) == d)
    && (forall d, c | d in tree && c in tree[d] && !OnPath(c, last) :: EntryRight(files, d, c, tree[d][c]))
    && (forall c | c != "" && WellFormed(c) && Alive(files, c) :: HasEntry(tree, c) && tree[Parent(c)][c] == (c in files))
  }

  /** Stopping at the first node that keeps an entry is enough: that entry is alive, so every
      directory above it is. */
  lemma {:induction false} UnlinkMakesExact(files: set<string>, tree: Tree, last: string)
    requires WellFormed(last) && Regular(files) && NoFileAbove(files, last)
    requires last != "" ==> !Alive(files, last)
    requires StaleOnlyOn(files, tree, last)
    ensures Exact(files, Unlink(tree, last))
    decreases |last|
  {
    if last == "" {
      forall d, c | d in tree && c in tree[d]
        ensures EntryRight(files, d, c, tree[d][c])
      {
        assert !OnPath(c, last);
      }
    } else {
      ParentIsAbove(last);
      var dir := Parent(last);
      var node := GetNode(tree, dir) - {last};
      if node == map[] {
        var tree' := tree - {dir};
        forall c | c != "" && WellFormed(c) && Alive(files, c)
          ensures Parent(c) != dir
        {
          assert HasEntry(tree, c);
          assert Parent(c) == dir ==> c in node;
        }
        if dir != "" && Alive(files, dir) {
          var f :| f in files && Beneath(f, dir);
          var c := LiveChild(files, f, dir);
          assert false;
        }
        UpwardStep(files, tree, tree', last);
        UnlinkMakesExact(files, tree', dir);
      } else {
        var c :| c in node;
        StopIsSound(files, tree, last, c);
      }
    }
  }

  lemma UpwardStep(files: set<string>, tree: Tree, tree': Tree, last: string)
    requires WellFormed(last) && last != "" && StaleOnlyOn(files, tree, last) && NoFileAbove(files, last)
    requires tree' == tree - {Parent(last)}
    requires forall c | c != "" && WellFormed(c) && Alive(files, c) :: Parent(c) != Parent(last)
    ensures StaleOnlyOn(files, tree', Parent(last)) && NoFileAbove(files, Parent(last))
  {
    hide WellFormed, LastSlash, Beneath;
    var dir := Parent(last);
    forall d | d in tree'
      ensures d in tree && d != dir && tree'[d] == tree[d]
    {
    }
    forall d, c | d in tree' && c in tree'[d]
      ensures c != "" && WellFormed(c) && Parent(c) == d
      ensures !OnPath(c, dir) ==> EntryRight(files, d, c, tree'[d][c])
    {
      assert d in tree && c in tree[d];
      AboveParent(last, c);
      assert Parent(c) == d && d != dir && c != last;
      if !OnPath(c, dir) {
        assert !OnPath(c, last);
        assert EntryRight(files, d, c, tree[d][c]);
      }
    }
    forall f | f in files
      ensures !Beneath(dir, f)
    {
      AboveParent(last, f);
    }
    forall c | c != "" && WellFormed(c) && Alive(files, c)
      ensures HasEntry(tree', c) && tree'[Parent(c)][c] == (c in files)
    {
      assert HasEntry(tree, c);
    }
  }

  lemma StopIsSound(files: set<string>, tree: Tree, last: string, kept: string)
    requires WellFormed(last) && last != "" && !Alive(files, last) && NoFileAbove(files, last)
    requires StaleOnlyOn(files, tree, last)
    requires kept in GetNode(tree, Parent(last)) - {last}
    ensures Exact(files, tree[Parent(last) := GetNode(tree, Parent(last)) - {last}])
  {
    var dir := Parent(last);
    var tree' := tree[dir := GetNode(tree, dir) - {last}];
    ParentIsAbove(last);
    ParentIsAbove(kept);
    AboveParent(last, kept);
    assert !OnPath(kept, last);
    assert EntryRight(files, dir, kept, tree[dir][kept]);
    forall d, c | d in tree' && c in tree'[d]
      ensures EntryRight(files, d, c, tree'[d][c])
    {
      assert d in tree && c in tree[d];
      if OnPath(c, last) {
        AboveParent(last, c);
        AliveUpward(files, kept, dir);
        if c != dir {
          AliveUpward(files, dir, c);
        }
        assert HasEntry(tree, c);
      }
    }
    forall c | c != "" && WellFormed(c) && Alive(files, c)
      ensures HasEntry(tree', c)
    {
      assert HasEntry(tree, c);
    }
  }

  /* ---- What a write, a delete and a removal do to the graph ---- */

  lemma WriteKeepsExact(files: set<string>, tree: Tree, path: string)
    requires Regular(files) && Exact(files, tree)
    requires WellFormed(path) && path != "" && path !in tree && NoFileAbove(files, path)
    ensures Regular(files + {path}) && Exact(files + {path}, Link(tree, path, true))
  {
    var after := files + {path};
    NodeIffFileBeneath(files, tree, path);
    forall d, c | d in tree && c in tree[d]
      ensures EntryRight(after, d, c, tree[d][c])
    {
      assert EntryRight(files, d, c, tree[d][c]);
      assert c == path ==> c in files;
    }
    forall c | c != "" && WellFormed(c) && Alive(after, c) && !OnPath(c, path)
      ensures HasEntry(tree, c)
    {
      assert Alive(files, c);
    }
    LinkMakesExact(after, tree, path);
  }

  lemma StaleAfterDelete(files: set<string>, tree: Tree, path: string)
    requires Regular(files) && Exact(files, tree) && path !in tree
    ensures StaleOnlyOn(files - {path}, tree, path) && !Alive(files - {path}, path)
  {
    var after := files - {path};
    NodeIffFileBeneath(files, tree, path);
    forall d, c | d in tree && c in tree[d] && !OnPath(c, path)
      ensures EntryRight(after, d, c, tree[d][c])
    {
      assert EntryRight(files, d, c, tree[d][c]);
      if c !in files {
        var f :| f in files && Beneath(f, c);
        assert f in after;
      }
    }
    forall c | c != "" && WellFormed(c) && Alive(after, c)
      ensures HasEntry(tree, c) && tree[Parent(c)][c] == (c in after)
    {
      assert Alive(files, c);
      assert EntryRight(files, Parent(c), c, tree[Parent(c)][c]);
    }
  }

  lemma {:induction false} UnlinkOnlyRemoves(tree: Tree, last: string, c: string)
    requires WellFormed(last) && !HasEntry(tree, c)
    ensures !HasEntry(Unlink(tree, last), c)
    decreases |last|
  {
    if last != "" {
      ParentIsAbove(last);
      var dir := Parent(last);
      var node := GetNode(tree, dir) - {last};
      if node == map[] {
        UnlinkOnlyRemoves(tree - {dir}, dir, c);
      }
    }
  }

  /** Walking up from nothing, past directories that have no node, takes the first file met out
      of its parent's node. */
  lemma {:induction false} WalkUnlinksFileAbove(tree: Tree, last: string, file: string)
    requires WellFormed(last) && last != "" && file != "" && OnPath(file, last)
    requires forall d | d in tree :: d != file && !Beneath(d, file)
    ensures !HasEntry(Unlink(tree, last), file)
    decreases |last|
  {
    ParentIsAbove(last);
    var dir := Parent(last);
    var node := GetNode(tree, dir) - {last};
    if last == file {
      if node == map[] {
        UnlinkOnlyRemoves(tree - {dir}, dir, file);
      }
    } else {
      AboveParent(last, file);
      assert dir !in tree;
      WalkUnlinksFileAbove(tree - {dir}, dir, file);
    }
  }

  lemma NoNodeFromFileDown(files: set<string>, tree: Tree, file: string)
    requires Regular(files) && Exact(files, tree) && file in files
    ensures forall d | d in tree :: d != file && !Beneath(d, file)
  {
    forall d | d in tree
      ensures d != file && !Beneath(d, file)
    {
      NodeIffFileBeneath(files, tree, d);
      var f :| f in files && Beneath(f, d);
      if Beneath(d, file) {
        BeneathTransitive(f, d, file);
      }
    }
  }

  /** Deleting a path that is no directory keeps the graph exact if and only if no file lies
      above the path: a delete beneath an existing file unlinks that file. */
  lemma DeleteKeepsExactIff(files: set<string>, tree: Tree, path: string)
    requires Regular(files) && Exact(files, tree) && WellFormed(path) && path !in tree
    ensures Regular(files - {path})
    ensures Exact(files - {path}, Unlink(tree, path)) <==> NoFileAbove(files, path)
  {
    hide WellFormed, LastSlash, Unlink, StaleOnlyOn, HasEntry;
    var after := files - {path};
    StaleAfterDelete(files, tree, path);
    if NoFileAbove(files, path) {
      UnlinkMakesExact(after, tree, path);
    } else {
      var file :| file in files && Beneath(path, file);
      NoNodeFromFileDown(files, tree, file);
      WalkUnlinksFileAbove(tree, path, file);
      assert Alive(after, file);
    }
  }

  /** Every key that extends the path as a string. */
  function Extending(keys: set<string>, path: string): set<string> {
    set k | k in keys && path <= k
  }

  function FilesWithout(files: set<string>, tree: Tree, path: string): set<string> {
    if path in tree then files - Extending(files, path) else files
  }

  function Pruned(tree: Tree, path: string): Tree {
    if path in tree then tree - Extending(tree.Keys, path) else tree
  }

  /** Nothing outside the directory extends its name as a string. */
  ghost predicate StandsApart(files: set<string>, path: string) {
    forall f | f in files && path <= f :: f == path || Beneath(f, path)
  }

  /** A directory stands apart from its siblings' names, or the path is absent with no file
      above it. */
  ghost predicate Removable(files: set<string>, tree: Tree, path: string) {
    if path in tree then StandsApart(files, path) else path !in files && NoFileAbove(files, path)
  }

  lemma StaleAfterPrune(files: set<string>, tree: Tree, path: string)
    requires Regular(files) && Exact(files, tree) && path in tree && StandsApart(files, path)
    ensures StaleOnlyOn(FilesWithout(files, tree, path), Pruned(tree, path), path)
    ensures !Alive(FilesWithout(files, tree, path), path)
  {
    var files', tree' := FilesWithout(files, tree, path), Pruned(tree, path);
    NodeIffFileBeneath(files, tree, path);
    forall d, c | d in tree' && c in tree'[d] && !OnPath(c, path)
      ensures EntryRight(files', d, c, tree'[d][c])
    {
      assert d in tree && c in tree[d];
      assert EntryRight(files, d, c, tree[d][c]);
      ParentIsAbove(c);
      AboveParent(c, path);
      if c in files {
        assert c == path || !Beneath(c, path);
      } else {
        var f :| f in files && Beneath(f, c);
        if path <= f {
          BothAbove(f, c, path);
        }
        assert f in files';
      }
    }
    forall c | c != "" && WellFormed(c) && Alive(files', c)
      ensures HasEntry(tree', c) && tree'[Parent(c)][c] == (c in files')
    {
      KeptIsOutside(files, tree, path, c);
    }
  }

  /** Two directories above one path lie one above the other. */
  lemma BothAbove(p: string, a: string, b: string)
    requires Beneath(p, a) && Beneath(p, b)
    ensures a == b || Beneath(a, b) || Beneath(b, a)
  {
    assert a <= p && b <= p;
    if |a| <= |b| {
      assert p[..|b|][..|a|] == p[..|a|];
    } else {
      assert p[..|a|][..|b|] == p[..|b|];
    }
  }

  lemma KeptIsOutside(files: set<string>, tree: Tree, path: string, c: string)
    requires Regular(files) && Exact(files, tree) && path in tree && StandsApart(files, path)
    requires c != "" && WellFormed(c) && Alive(FilesWithout(files, tree, path), c)
    ensures HasEntry(Pruned(tree, path), c)
    ensures Pruned(tree, path)[Parent(c)][c] == (c in FilesWithout(files, tree, path))
  {
    assert Alive(files, c);
    assert HasEntry(tree, c) && EntryRight(files, Parent(c), c, tree[Parent(c)][c]);
    ParentIsAbove(c);
    if c !in FilesWithout(files, tree, path) {
      var f :| f in FilesWithout(files, tree, path) && Beneath(f, c);
      assert !(path <= f);
      assert c <= f;
    }
    assert Parent(c) <= c;
  }

  /** Removing a path keeps the graph exact if and only if the path is removable: a sibling
      whose name the path is a prefix of loses its files and keeps its entry. */
  lemma RemoveKeepsExactIff(files: set<string>, tree: Tree, path: string)
    requires Regular(files) && Exact(files, tree) && WellFormed(path)
    ensures Regular(FilesWithout(files, tree, path))
    ensures Exact(FilesWithout(files, tree, path), Unlink(Pruned(tree, path), path)) <==> Removable(files, tree, path)
  {
    if path !in tree {
      if path in files {
        FileRemovedAsDirectory(files, tree, path);
      } else {
        assert files - {path} == files;
        DeleteKeepsExactIff(files, tree, path);
      }
    } else if StandsApart(files, path) {
      StaleAfterPrune(files, tree, path);
      NodeIffFileBeneath(files, tree, path);
      var f :| f in files && Beneath(f, path);
      forall g | g in files
        ensures !Beneath(path, g)
      {
        if Beneath(path, g) {
          BeneathTransitive(f, path, g);
        }
      }
      UnlinkMakesExact(FilesWithout(files, tree, path), Pruned(tree, path), path);
    } else {
      var f :| f in files && path <= f && f != path && !Beneath(f, path);
      SiblingKeepsEntry(files, tree, path, f);
    }
  }

  /** A file removed as though it were a directory loses its entry and stays. */
  lemma FileRemovedAsDirectory(files: set<string>, tree: Tree, path: string)
    requires Regular(files) && Exact(files, tree) && path in files && path !in tree
    ensures !Exact(files, Unlink(tree, path))
  {
    NoNodeFromFileDown(files, tree, path);
    WalkUnlinksFileAbove(tree, path, path);
    assert Alive(files, path);
  }

  lemma SiblingKeepsEntry(files: set<string>, tree: Tree, path: string, f: string)
    requires Regular(files) && Exact(files, tree) && path in tree && WellFormed(path)
    requires f in files && path <= f && f != path && !Beneath(f, path)
    ensures !Exact(FilesWithout(files, tree, path), Unlink(Pruned(tree, path), path))
  {
    hide StandsApart, Exact, Unlink, LastSlash;
    var q := Shallowest(f, path);
    assert Alive(files, q);
    EntryOutlives(files, tree, path, q);
    NothingAliveExtends(files, tree, path, q);
    StaleSibling(FilesWithout(files, tree, path), Pruned(tree, path), path, q);
  }

  lemma StaleSibling(files: set<string>, tree: Tree, path: string, q: string)
    requires WellFormed(path) && path != "" && q != path && Parent(q) == Parent(path)
    requires HasEntry(tree, q) && !Alive(files, q)
    ensures !Exact(files, Unlink(tree, path))
  {
    hide Alive, WellFormed, LastSlash;
    var dir := Parent(path);
    var node := GetNode(tree, dir) - {path};
    assert q in node;
    var tree' := tree[dir := node];
    assert Unlink(tree, path) == tree';
    assert dir in tree' && q in tree'[dir] && !EntryRight(files, dir, q, tree'[dir][q]);
  }

  lemma EntryOutlives(files: set<string>, tree: Tree, path: string, q: string)
    requires Exact(files, tree) && path in tree && Alive(files, q) && q != "" && WellFormed(q)
    requires path != "" && WellFormed(path) && Parent(q) == Parent(path)
    ensures HasEntry(Pruned(tree, path), q)
  {
    assert HasEntry(tree, q);
    ParentIsAbove(path);
  }

  lemma NothingAliveExtends(files: set<string>, tree: Tree, path: string, q: string)
    requires path in tree && path <= q
    ensures !Alive(FilesWithout(files, tree, path), q)
  {
    forall g | g in FilesWithout(files, tree, path)
      ensures !Beneath(g, q)
    {
      assert Beneath(g, q) ==> q <= g;
    }
  }
}
