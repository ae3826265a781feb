/** The in-memory filesystem: a flat map of files and a directory graph that must say the same.
    Paths are as `normalize` leaves them, in lower case. */
module MemoryFileSystems {
  import opened Wrappers
  import opened MemoryPaths
  import opened FileGraphs

  /** Where a listed entry shows up: `rest` stripped of `dir`, when it lies strictly beneath. */
  ghost predicate Listed(files: set<string>, dir: string, withDirs: bool, rest: string) {
    && rest != "" && WellFormed(Joined(dir, rest))
    && (if withDirs then Alive(files, Joined(dir, rest)) else Joined(dir, rest) in files)
  }

  /** The same, for what the nodes already visited list. */
  ghost predicate ListedBy(tree: Tree, visited: seq<string>, dir: string, withDirs: bool, rest: string) {
    var c := Joined(dir, rest);
    rest != "" && Parent(c) in visited && HasEntry(tree, c) && (withDirs || tree[Parent(c)][c])
  }

  /** Whether a key passes the filter of a listing. */
  predicate IsChildKey(k: string, path: string, recursive: bool, includeSelf: bool) {
    path <= k && (includeSelf || k != path) && (recursive || Slashes(k) == if path == "" then 0 else Slashes(path) + 1)
  }

  function ChildKeys(keys: set<string>, path: string, recursive: bool, includeSelf: bool): (children: set<string>)
    ensures forall k :: k in children <==> k in keys && IsChildKey(k, path, recursive, includeSelf)
  {
    set k | k in keys && IsChildKey(k, path, recursive, includeSelf)
  }

  /** A file or directory right inside this one. */
  ghost predicate IsEntryOf(files: set<string>, path: string, k: string) {
    k != "" && WellFormed(k) && Parent(k) == path && Alive(files, k)
  }

  /** A directory beside this one whose name goes on after this one's. */
  ghost predicate HasLongerSibling(tree: Tree, path: string) {
    path != "" && exists d :: d in tree && Parent(d) == Parent(path) && path < d
  }

  predicate Distinct(s: seq<string>) {
    forall i, j | 0 <= i < j < |s| :: s[i] != s[j]
  }

  lemma OneFewer<T>(now: map<string, T>, before: map<string, T>, keys: set<string>, left: set<string>, key: string)
    requires now == before - (keys - left) && key in left && left <= keys
    ensures now - {key} == before - (keys - (left - {key}))
  {
    assert keys - (left - {key}) == (keys - left) + {key};
  }

  lemma WholePrefix<T>(m: map<string, T>, keys: set<string>, path: string)
    requires Extending(m.Keys, path) <= keys && forall k | k in keys :: path <= k
    ensures m - keys == m - Extending(m.Keys, path)
  {
  }

  /** An entry relative to the directory walked, if it is wanted and lies in it. */
  function EntryRest(entry: string, dir: string, wanted: bool): seq<string> {
    match StripPrefix(entry, dir)
    case Rest(rest) => if wanted then [rest] else []
    case NotBeneath => []
  }

  class MemoryFileSystem {
    var fs: map<string, string>
    var tree: Tree

    ghost predicate Valid()
      reads this
    {
      Regular(fs.Keys) && Exact(fs.Keys, tree)
    }

    constructor ()
      ensures Valid() && fs == map[] && tree == map[]
    {
      fs, tree := map[], map[];
    }

    method IsDir(path: string) returns (found: bool)
      requires Valid()
      ensures found <==> exists f :: f in fs && Beneath(f, path)
    {
      NodeIffFileBeneath(fs.Keys, tree, path);
      found := path in tree;
    }

    method Exists(path: string) returns (found: bool)
      requires Valid()
      ensures found <==> Alive(fs.Keys, path)
    {
      var dir := IsDir(path);
      found := path in fs || dir;
    }

    method WriteToGraph(path: string)
      requires WellFormed(path)
      modifies this`tree
      ensures tree == Link(old(tree), path, true)
    {
      var last, isFile := path, true;
      while last != ""
        invariant WellFormed(last)
        invariant Link(tree, last, isFile) == Link(old(tree), path, true)
        decreases |last|
      {
        ParentIsAbove(last);
        var dir := Parent(last);
        tree := tree[dir := AddEntry(GetNode(tree, dir), last, isFile)];
        last, isFile := dir, false;
      }
    }

    /** Fails on a directory.  Otherwise the file is there, nothing else changed, and both maps
        still agree just when the path does not lie beneath an existing file. */
    method Write(path: string, contents: string) returns (r: Result<(), string>)
      requires Valid() && WellFormed(path) && path != ""
      modifies this
      ensures r.Err? <==> exists f :: f in old(fs) && Beneath(f, path)
      ensures r.Err? ==> fs == old(fs) && tree == old(tree)
      ensures r.Ok? ==> fs == old(fs)[path := contents] && tree == Link(old(tree), path, true)
      ensures Valid() <==> r.Err? || NoFileAbove(old(fs.Keys), path)
    {
      hide WellFormed, LastSlash, Exact, AddEntry;
      var dir := IsDir(path);
      if dir {
        return Err("cannot write to a folder");
      }
      if NoFileAbove(fs.Keys, path) {
        NodeIffFileBeneath(fs.Keys, tree, path);
        WriteKeepsExact(fs.Keys, tree, path);
      }
      fs := fs[path := contents];
      assert fs.Keys == old(fs.Keys) + {path};
      WriteToGraph(path);
      r := Ok(());
    }

    /** The walk both removals end with. */
    method UnlinkUpward(path: string)
      requires WellFormed(path)
      modifies this`tree
      ensures tree == Unlink(old(tree), path)
    {
      var last, stop := path, false;
      while last != "" && !stop
        invariant WellFormed(last)
        invariant if stop then tree == Unlink(old(tree), path) else Unlink(tree, last) == Unlink(old(tree), path)
        decreases |last|, !stop
      {
        ParentIsAbove(last);
        var dir := Parent(last);
        var node := GetNode(tree, dir) - {last};
        if node == map[] {
          tree := tree - {dir};
          last := dir;
        } else {
          tree := tree[dir := node];
          stop := true;
        }
      }
    }

    method KeysUnder(path: string) returns (keys: set<string>)
      ensures Extending(tree.Keys, path) <= keys && Extending(fs.Keys, path) <= keys
      ensures forall k | k in keys :: path <= k
    {
      keys := Extending(tree.Keys, path) + Extending(fs.Keys, path);
    }

    /** Everything the directory and file keys list under a string prefix goes, a key at a time. */
    method Prune(path: string)
      modifies this
      ensures fs == old(fs) - Extending(old(fs.Keys), path)
      ensures tree == old(tree) - Extending(old(tree.Keys), path)
    {
      hide Extending;
      var keys := KeysUnder(path);
      var left := keys;
      while left != {}
        invariant left <= keys
        invariant fs == old(fs) - (keys - left)
        invariant tree == old(tree) - (keys - left)
        decreases |left|
      {
        var key :| key in left;
        OneFewer(tree, old(tree), keys, left, key);
        OneFewer(fs, old(fs), keys, left, key);
        tree := tree - {key};
        fs := fs - {key};
        left := left - {key};
      }
      WholePrefix(old(fs), keys, path);
      WholePrefix(old(tree), keys, path);
      assert keys - left == keys;
    }

    method RemoveFromGraph(path: string)
      requires WellFormed(path)
      requires forall d | d in tree :: tree[d] != map[]
      modifies this
      ensures tree == Unlink(Pruned(old(tree), path), path)
      ensures fs == if path in old(tree) then old(fs) - Extending(old(fs.Keys), path) else old(fs)
    {
      if GetNode(tree, path) != map[] {
        Prune(path);
      }
      UnlinkUpward(path);
    }

    /** What is left is every file whose path does not extend this one as a string; both maps
        still agree exactly when that means what it should. */
    method RemoveDirAll(path: string)
      requires Valid() && WellFormed(path)
      modifies this
      ensures fs == if path in old(tree) then old(fs) - Extending(old(fs.Keys), path) else old(fs)
      ensures Valid() <==> Removable(old(fs.Keys), old(tree), path)
    {
      RemoveKeepsExactIff(fs.Keys, tree, path);
      RemoveFromGraph(path);
      assert fs.Keys == FilesWithout(old(fs.Keys), old(tree), path);
    }

    /** A delete as the graph sees it, whether or not it agrees with the files. */
    method DeleteNode(path: string) returns (r: Result<(), string>)
      requires WellFormed(path)
      requires forall d | d in tree :: tree[d] != map[]
      modifies this
      ensures r.Err? <==> path in old(tree)
      ensures r.Err? ==> fs == old(fs) && tree == old(tree)
      ensures r.Ok? ==> fs == old(fs) - {path} && tree == Unlink(old(tree), path)
    {
      if path in tree {
        return Err("use remove_dir_all to delete directories");
      }
      fs := fs - {path};
      RemoveFromGraph(path);
      r := Ok(());
    }

    /** Fails on a directory.  Deleting an absent path changes no file; beneath an existing file
        it still loses that file's entry. */
    method Delete(path: string) returns (r: Result<(), string>)
      requires Valid() && WellFormed(path)
      modifies this
      ensures r.Err? <==> exists f :: f in old(fs) && Beneath(f, path)
      ensures r.Err? ==> fs == old(fs) && tree == old(tree)
      ensures r.Ok? ==> fs == old(fs) - {path}
      ensures Valid() <==> r.Err? || NoFileAbove(old(fs.Keys), path)
    {
      NodeIffFileBeneath(fs.Keys, tree, path);
      if path !in tree {
        DeleteKeepsExactIff(fs.Keys, tree, path);
      }
      r := DeleteNode(path);
      assert r.Ok? ==> fs.Keys == old(fs.Keys) - {path};
    }

    /** Moves the contents.  Renaming a path to itself writes it and then deletes it.  Renaming
        it to a path beneath itself fails half way, with the new file written and the old one
        kept above it.  A rename that succeeds leaves both maps in agreement exactly when no
        file lay above the new path. */
    method Rename(from: string, to: string) returns (r: Result<(), string>)
      requires Valid() && WellFormed(from) && WellFormed(to) && to != ""
      modifies this
      ensures r.Err? <==> from !in old(fs) || (exists f :: f in old(fs) && Beneath(f, to)) || Beneath(to, from)
      ensures var halfWay := from in old(fs) && Beneath(to, from);
              && (r.Err? && !halfWay ==> fs == old(fs) && tree == old(tree))
              && (halfWay ==> fs == old(fs)[to := old(fs)[from]] && !Valid())
      ensures r.Ok? ==> fs == old(fs)[to := old(fs)[from]] - {from}
      ensures r.Ok? ==> (to in fs <==> from != to) && (Valid() <==> NoFileAbove(old(fs.Keys), to))
    {
      hide Exact, Regular, WellFormed, LastSlash, Unlink, Link, Parent, Beneath, NoFileAbove;
      if from !in fs {
        return Err("file not found");
      }
      ghost var files, before := fs.Keys, tree;
      FileIsNoNode(files, tree, from);
      NothingBeneathFile(files, from, to);
      r := Write(to, fs[from]);
      if r.Ok? {
        LinkedNodes(before, to, true);
        RenameAgrees(files, before, from, to);
        r := DeleteNode(from);
        assert fs.Keys == if r.Ok? then files + {to} - {from} else files + {to};
      }
    }

    /** Directory keys, then file keys, that extend the path as a string. */
    method AllChildren(path: string, recursive: bool, includeSelf: bool) returns (children: seq<string>)
      requires Valid()
      ensures Distinct(children)
      ensures forall k :: k in children <==> (k in tree || k in fs) && IsChildKey(k, path, recursive, includeSelf)
    {
      NodesAreNoFiles(fs.Keys, tree);
      hide Regular, Exact, IsChildKey, ChildKeys;
      var dirs := Listing(ChildKeys(tree.Keys, path, recursive, includeSelf));
      var files := Listing(ChildKeys(fs.Keys, path, recursive, includeSelf));
      children := dirs + files;
      DistinctConcat(dirs, files);
    }

    /** Lists a directory without what lies deeper: its own entries, and nothing else just when
        no directory beside it has a name that extends its name. */
    method ListDir(path: string) returns (out: seq<string>)
      requires Valid() && WellFormed(path)
      ensures Distinct(out)
      ensures forall k | IsEntryOf(fs.Keys, path, k) :: k in out
      ensures (forall k | k in out :: IsEntryOf(fs.Keys, path, k)) <==> !HasLongerSibling(tree, path)
    {
      out := AllChildren(path, false, false);
      EntriesAreListed(fs.Keys, tree, path);
      OnlyEntriesIff(fs.Keys, tree, path);
    }

    /** One node's share of a walk. */
    method NodeEntries(key: string, dir: string, withDirs: bool) returns (out: seq<string>)
      requires Valid() && dir <= key
      ensures Distinct(out)
      ensures forall r :: r in out <==> ListedBy(tree, [key], dir, withDirs, r)
    {
      hide Exact, Regular, ListedBy, EntryRest, Joined;
      var node := GetNode(tree, key);
      var left := node.Keys;
      out := [];
      ListedAreEntries(tree, key, dir, withDirs);
      while left != {}
        invariant left <= node.Keys
        invariant Distinct(out)
        invariant forall r :: r in out <==> ListedBy(tree, [key], dir, withDirs, r) && Joined(dir, r) !in left
        decreases |left|
      {
        var c :| c in left;
        var part := EntryRest(c, dir, withDirs || node[c]);
        EntryListed(fs.Keys, tree, key, dir, withDirs, c);
        DistinctConcat(out, part);
        out := out + part;
        left := left - {c};
      }
    }

    /** Each file strictly beneath the directory, and each directory too if asked for, once, as
        a path relative to it; and nothing else, though the keys visited only share a prefix. */
    method WalkDir(dir: string, withDirs: bool) returns (out: seq<string>)
      requires Valid() && WellFormed(dir)
      ensures Distinct(out)
      ensures forall r :: r in out <==> Listed(fs.Keys, dir, withDirs, r)
    {
      hide Exact, Regular, WellFormed, Joined, Parent;
      var children := AllChildren(dir, true, true);
      out := [];
      var i := 0;
      while i < |children|
        invariant 0 <= i <= |children|
        invariant Distinct(out)
        invariant forall r :: r in out <==> ListedBy(tree, children[..i], dir, withDirs, r)
      {
        assert children[i] in children;
        var part := NodeEntries(children[i], dir, withDirs);
        assert children[..i + 1] == children[..i] + [children[i]];
        assert children[i] !in children[..i];
        DistinctConcat(out, part);
        out := out + part;
        i := i + 1;
      }
      assert children[..i] == children;
      forall r
        ensures ListedBy(tree, children, dir, withDirs, r) <==> Listed(fs.Keys, dir, withDirs, r)
      {
        VisitedListAll(fs.Keys, tree, children, dir, withDirs, r);
      }
    }
  }

  lemma NodesAreNoFiles(files: set<string>, tree: Tree)
    requires Regular(files) && Exact(files, tree)
    ensures forall k | k in tree :: k !in files
  {
    forall k | k in tree
      ensures k !in files
    {
      if k in files {
        NoNodeFromFileDown(files, tree, k);
      }
    }
  }

  /** What a key of either map is. */
  lemma KeysAreAlive(files: set<string>, tree: Tree, k: string)
    requires Regular(files) && Exact(files, tree)
    ensures k in tree || k in files <==> Alive(files, k)
    ensures k in tree || k in files ==> WellFormed(k)
  {
    NodeIffFileBeneath(files, tree, k);
    if k in tree {
      var c :| c in tree[k];
      assert EntryRight(files, k, c, tree[k][c]);
      ParentIsAbove(c);
    }
  }

  lemma EntriesAreListed(files: set<string>, tree: Tree, path: string)
    requires Regular(files) && Exact(files, tree) && WellFormed(path)
    ensures forall k | IsEntryOf(files, path, k) :: (k in tree || k in files) && IsChildKey(k, path, false, false)
  {
    forall k | IsEntryOf(files, path, k)
      ensures (k in tree || k in files) && IsChildKey(k, path, false, false)
    {
      KeysAreAlive(files, tree, k);
      ParentIsAbove(k);
      SlashesOfParent(k);
    }
  }

  /** A key that is listed is an entry, or lies in a directory beside this one. */
  lemma ListedOutside(files: set<string>, tree: Tree, path: string, k: string)
    requires Regular(files) && Exact(files, tree) && WellFormed(path)
    requires (k in tree || k in files) && IsChildKey(k, path, false, false) && !IsEntryOf(files, path, k)
    ensures HasLongerSibling(tree, path)
  {
    KeysAreAlive(files, tree, k);
    SlashesOfParent(k);
    if Beneath(k, path) {
      AboveParent(k, path);
      MoreSlashesBeneath(Parent(k), path);
      assert false;
    } else {
      var q := Shallowest(k, path);
      SlashesOfParent(q);
      SlashesOfParent(path);
      AliveUpward(files, k, q);
      KeysAreAlive(files, tree, q);
      NodeIffFileBeneath(files, tree, q);
      NodeAbove(files, tree, k, q);
    }
  }

  lemma NodeAbove(files: set<string>, tree: Tree, k: string, q: string)
    requires Regular(files) && Exact(files, tree) && Alive(files, k) && Beneath(k, q)
    ensures q in tree
  {
    NodeIffFileBeneath(files, tree, q);
    if k !in files {
      var f :| f in files && Beneath(f, k);
      BeneathTransitive(f, k, q);
    }
  }

  /** Each entry of such a directory is listed. */
  lemma SiblingEntry(files: set<string>, tree: Tree, path: string, d: string) returns (c: string)
    requires Regular(files) && Exact(files, tree) && WellFormed(path) && path != ""
    requires d in tree && Parent(d) == Parent(path) && path < d
    ensures (c in tree || c in files) && IsChildKey(c, path, false, false) && !IsEntryOf(files, path, c)
  {
    hide Regular, Exact, WellFormed, Parent, LastSlash, Alive, IsChildKey;
    KeysAreAlive(files, tree, d);
    c := EntryIn(files, tree, d);
    KeysAreAlive(files, tree, c);
    PassesFilter(path, d, c);
  }

  lemma EntryIn(files: set<string>, tree: Tree, d: string) returns (c: string)
    requires Exact(files, tree) && d in tree
    ensures c != "" && WellFormed(c) && Parent(c) == d && Alive(files, c)
  {
    c :| c in tree[d];
    assert EntryRight(files, d, c, tree[d][c]);
  }

  lemma PassesFilter(path: string, d: string, c: string)
    requires WellFormed(path) && WellFormed(d) && WellFormed(c) && path != "" && c != ""
    requires Parent(d) == Parent(path) && path < d && Parent(c) == d
    ensures IsChildKey(c, path, false, false)
  {
    hide WellFormed, Parent, LastSlash, Slashes;
    ParentIsAbove(c);
    SlashesOfParent(c);
    SlashesOfParent(d);
    SlashesOfParent(path);
    assert path <= d <= c;
  }

  /** A listing shows only the directory's entries if and only if no directory beside it has a
      name that extends its name. */
  lemma OnlyEntriesIff(files: set<string>, tree: Tree, path: string)
    requires Regular(files) && Exact(files, tree) && WellFormed(path)
    ensures (forall k | (k in tree || k in files) && IsChildKey(k, path, false, false) :: IsEntryOf(files, path, k))
       <==> !HasLongerSibling(tree, path)
  {
    hide Regular, Exact, IsChildKey, IsEntryOf, WellFormed;
    if HasLongerSibling(tree, path) {
      var d :| d in tree && Parent(d) == Parent(path) && path < d;
      hide HasLongerSibling;
      var c := SiblingEntry(files, tree, path, d);
    } else if k :| (k in tree || k in files) && IsChildKey(k, path, false, false) && !IsEntryOf(files, path, k) {
      ListedOutside(files, tree, path, k);
    }
  }

  /** Linking adds a node for each directory above, and leaves none empty. */
  lemma {:induction false} LinkedNodes(tree: Tree, last: string, isFile: bool)
    requires WellFormed(last) && forall d | d in tree :: tree[d] != map[]
    ensures forall d :: d in Link(tree, last, isFile) <==> d in tree || Beneath(last, d)
    ensures forall d | d in Link(tree, last, isFile) :: Link(tree, last, isFile)[d] != map[]
    decreases |last|
  {
    hide LastSlash, WellFormed;
    if last != "" {
      ParentIsAbove(last);
      var dir := Parent(last);
      var node := AddEntry(GetNode(tree, dir), last, isFile);
      assert last in node;
      LinkedNodes(tree[dir := node], dir, false);
      forall d
        ensures Beneath(last, d) <==> d == dir || Beneath(dir, d)
      {
        AboveParent(last, d);
      }
    }
  }

  lemma FileIsNoNode(files: set<string>, tree: Tree, file: string)
    requires Regular(files) && Exact(files, tree) && file in files
    ensures file !in tree && forall d | d in tree :: tree[d] != map[]
  {
    NodeIffFileBeneath(files, tree, file);
  }

  lemma NothingBeneathFile(files: set<string>, file: string, path: string)
    requires Regular(files) && file in files
    ensures Beneath(path, file) ==> !exists f :: f in files && Beneath(f, path)
  {
    if Beneath(path, file) {
      if f :| f in files && Beneath(f, path) {
        BeneathTransitive(f, path, file);
      }
    }
  }

  lemma RenameAgrees(files: set<string>, tree: Tree, from: string, to: string)
    requires Regular(files) && Exact(files, tree) && from in files
    requires WellFormed(from) && WellFormed(to) && to != ""
    requires !exists f :: f in files && Beneath(f, to)
    ensures if Beneath(to, from) then from != to && !Regular(files + {to})
            else
              var after := files + {to} - {from};
              Regular(after) && Exact(after, Unlink(Link(tree, to, true), from)) <==> NoFileAbove(files, to)
    ensures !Beneath(from, to)
  {
    hide Exact, WellFormed, LastSlash, Unlink, Link, Parent, Beneath;
    var after := files + {to} - {from};
    NodeIffFileBeneath(files, tree, to);
    if Beneath(to, from) {
      assert from in files + {to} && to in files + {to};
      assert !Beneath(from, from);
    } else if NoFileAbove(files, to) {
      WriteKeepsExact(files, tree, to);
      FileIsNoNode(files + {to}, Link(tree, to, true), from);
      DeleteKeepsExactIff(files + {to}, Link(tree, to, true), from);
    } else {
      var f :| f in files && Beneath(to, f);
      assert f in after && to in after;
    }
  }

  /** The keys of a map as a list, in no particular order. */
  method Listing(keys: set<string>) returns (s: seq<string>)
    ensures Distinct(s)
    ensures forall k :: k in s <==> k in keys
  {
    var left := keys;
    s := [];
    while left != {}
      invariant left <= keys
      invariant Distinct(s)
      invariant forall k :: k in s <==> k in keys - left
      decreases |left|
    {
      var k :| k in left;
      DistinctConcat(s, [k]);
      s := s + [k];
      left := left - {k};
    }
  }

  lemma DistinctConcat(a: seq<string>, b: seq<string>)
    requires Distinct(a) && Distinct(b) && forall k | k in a :: k !in b
    ensures Distinct(a + b)
  {
    var s := a + b;
    forall i, j | 0 <= i < j < |s|
      ensures s[i] != s[j]
    {
      if i < |a| <= j {
        assert s[i] in a && s[j] in b;
      }
    }
  }

  lemma ListedAreEntries(tree: Tree, key: string, dir: string, withDirs: bool)
    ensures forall r :: ListedBy(tree, [key], dir, withDirs, r) ==> Joined(dir, r) in GetNode(tree, key)
  {
  }

  /** What one entry adds to a walk is listed, and is all that is listed for it. */
  lemma EntryListed(files: set<string>, tree: Tree, key: string, dir: string, withDirs: bool, c: string)
    requires Exact(files, tree) && dir <= key && key in tree && c in tree[key]
    ensures Distinct(EntryRest(c, dir, withDirs || tree[key][c]))
    ensures forall r :: r in EntryRest(c, dir, withDirs || tree[key][c]) <==> ListedBy(tree, [key], dir, withDirs, r) && Joined(dir, r) == c
  {
    assert EntryRight(files, key, c, tree[key][c]);
    ParentIsAbove(c);
    forall r
      ensures r in EntryRest(c, dir, withDirs || tree[key][c]) <==> ListedBy(tree, [key], dir, withDirs, r) && Joined(dir, r) == c
    {
      StripUndoesJoin(c, dir, r);
    }
  }

  lemma VisitedListAll(files: set<string>, tree: Tree, visited: seq<string>, dir: string, withDirs: bool, rest: string)
    requires Regular(files) && Exact(files, tree)
    requires forall k :: k in visited <==> (k in tree || k in files) && dir <= k
    ensures ListedBy(tree, visited, dir, withDirs, rest) <==> Listed(files, dir, withDirs, rest)
  {
    var c := Joined(dir, rest);
    if HasEntry(tree, c) {
      assert EntryRight(files, Parent(c), c, tree[Parent(c)][c]);
    }
    if rest != "" && WellFormed(c) {
      StripUndoesJoin(c, dir, rest);
      AboveParent(c, dir);
      ParentIsAbove(c);
    }
  }
}
