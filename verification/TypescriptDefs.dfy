/** Fresh names for nested definitions: every definition, at any depth, gets an interface of its
    own, and every reference names one that is declared. */
module TypescriptDefs {
  import opened Wrappers
  import opened PathTexts

  datatype Definition = Definition(fields: seq<string>, children: seq<Child>)

  datatype Child = Child(name: string, definition: Definition)

  /** A child member refers to its list's interface by name. */
  datatype Member = Field(name: string) | List(name: string, interface: string)

  datatype Interface = Interface(name: string, injected: bool, members: seq<Member>)

  const PREAMBLE_NAMES := {"ArchivalObjects", "ArchivalFile", "ArchivalMeta"}

  /* ---- Base names ---- */

  predicate IsLetter(c: char) {
    'a' <= c <= 'z' || 'A' <= c <= 'Z'
  }

  predicate IsAlphanumeric(c: char) {
    IsLetter(c) || '0' <= c <= '9'
  }

  function Upper(c: char): (u: char)
    requires IsAlphanumeric(c)
    ensures IsAlphanumeric(u) && (IsLetter(c) ==> IsLetter(u))
  {
    if 'a' <= c <= 'z' then 'A' + (c - 'a') else c
  }

  /** Words run together, each with its first letter raised. */
  function Joined(name: string, wordStart: bool): (t: string)
    ensures forall i | 0 <= i < |t| :: IsAlphanumeric(t[i])
  {
    if name == "" then ""
    else if !IsAlphanumeric(name[0]) then Joined(name[1..], true)
    else [if wordStart then Upper(name[0]) else name[0]] + Joined(name[1..], false)
  }

  /** Always an identifier: never empty, a letter first. */
  function PascalCase(name: string): (t: string)
    ensures t != "" && IsLetter(t[0]) && forall i | 0 <= i < |t| :: IsAlphanumeric(t[i])
  {
    var joined := Joined(name, true);
    if joined != "" && IsLetter(joined[0]) then joined else "Archival" + joined
  }

  /** A word with its first letter raised: the lower-case letters lie 32 above the others. */
  ghost predicate Capitalised(word: string, t: string) {
    && |t| == |word| && word != ""
    && t[0] as int == (if 97 <= word[0] as int <= 122 then word[0] as int - 32 else word[0] as int)
    && t[1..] == word[1..]
  }

  predicate OnlyAlphanumeric(t: string) {
    forall i | 0 <= i < |t| ::
      var c := t[i] as int; 48 <= c <= 57 || 65 <= c <= 90 || 97 <= c <= 122
  }

  predicate NoneAlphanumeric(t: string) {
    forall i | 0 <= i < |t| ::
      var c := t[i] as int; !(48 <= c <= 57 || 65 <= c <= 90 || 97 <= c <= 122)
  }

  lemma {:induction false} SeparatorsGo(separators: string, rest: string, wordStart: bool)
    requires NoneAlphanumeric(separators) && separators != ""
    ensures Joined(separators + rest, wordStart) == Joined(rest, true)
    decreases |separators|
  {
    assert (separators + rest)[1..] == separators[1..] + rest;
    if |separators| > 1 {
      SeparatorsGo(separators[1..], rest, true);
    } else {
      assert separators[1..] + rest == rest;
    }
  }

  lemma {:induction false} WordStays(word: string, rest: string)
    requires OnlyAlphanumeric(word)
    ensures Joined(word + rest, false) == word + Joined(rest, false)
    decreases |word|
  {
    if word == "" {
      assert word + rest == rest && word + Joined(rest, false) == Joined(rest, false);
    } else {
      assert (word + rest)[1..] == word[1..] + rest;
      WordStays(word[1..], rest);
    }
  }

  /** A word up to the next separator, or to the end, comes out capitalised; the separators do not
      come out. */
  lemma WordIsCapitalised(word: string, separators: string, rest: string)
    requires OnlyAlphanumeric(word) && word != "" && NoneAlphanumeric(separators) && (separators == "" ==> rest == "")
    ensures exists t :: Capitalised(word, t) && Joined(word + separators + rest, true) == t + Joined(rest, true)
  {
    var tail := separators + rest;
    var t := [Upper(word[0])] + word[1..];
    assert Capitalised(word, t);
    FirstLetter(word, tail);
    Ends(separators, rest);
    hide Joined, Upper, Capitalised, OnlyAlphanumeric;
    assert word + separators + rest == word + tail;
    assert t + Joined(rest, true) == [Upper(word[0])] + (word[1..] + Joined(rest, true));
  }

  lemma FirstLetter(word: string, tail: string)
    requires OnlyAlphanumeric(word) && word != ""
    ensures IsAlphanumeric(word[0]) && Joined(word + tail, true) == [Upper(word[0])] + (word[1..] + Joined(tail, false))
  {
    assert (word + tail)[1..] == word[1..] + tail;
    WordStays(word[1..], tail);
  }

  lemma Ends(separators: string, rest: string)
    requires NoneAlphanumeric(separators) && (separators == "" ==> rest == "")
    ensures Joined(separators + rest, false) == Joined(rest, true)
  {
    if separators != "" {
      SeparatorsGo(separators, rest, false);
    } else {
      assert separators + rest == "";
    }
  }

  /** Where no letter comes first, if anything does, a word is put before the name. */
  lemma PascalOrPrefixed(name: string)
    ensures PascalCase(name)
         == if Joined(name, true) != "" && !('0' <= Joined(name, true)[0] <= '9') then Joined(name, true) else "Archival" + Joined(name, true)
  {
  }

  /* ---- Fresh names ---- */

  /** The names tried for a base, in order. */
  function Candidate(base: string, n: nat): string {
    if n < 2 then base + "Object" else base + "Object" + Decimal(n)
  }

  lemma CandidatesDiffer(base: string, m: nat, n: nat)
    requires 1 <= m < n
    ensures Candidate(base, m) != Candidate(base, n)
  {
    var stem := base + "Object";
    DecimalValue(m);
    DecimalValue(n);
    assert Candidate(base, n) == stem + Decimal(n);
    assert (stem + Decimal(n))[|stem|..] == Decimal(n);
    if m >= 2 {
      assert (stem + Decimal(m))[|stem|..] == Decimal(m);
    } else {
      assert |Candidate(base, m)| < |Candidate(base, n)|;
    }
  }

  lemma SubsetIsNoLarger<T>(a: set<T>, b: set<T>)
    requires a <= b
    ensures |a| <= |b|
  {
    assert b == a + (b - a);
  }

  ghost predicate TriedUpTo(base: string, tried: set<string>, k: nat) {
    |tried| == k && forall t :: t in tried <==> exists m :: 1 <= m <= k && t == Candidate(base, m)
  }

  lemma NothingTried(base: string)
    ensures TriedUpTo(base, {}, 0) && Candidate(base, 1) == base + "Object"
  {
  }

  lemma CandidateIs(base: string, n: nat)
    requires n >= 2
    ensures Candidate(base, n) == base + "Object" + Decimal(n)
  {
  }

  lemma TriedCount(base: string, tried: set<string>, k: nat)
    requires TriedUpTo(base, tried, k)
    ensures |tried| == k
  {
  }

  lemma TryNext(base: string, tried: set<string>, k: nat)
    requires TriedUpTo(base, tried, k)
    ensures TriedUpTo(base, tried + {Candidate(base, k + 1)}, k + 1)
  {
    hide Candidate;
    forall m | 1 <= m <= k
      ensures Candidate(base, m) != Candidate(base, k + 1)
    {
      CandidatesDiffer(base, m, k + 1);
    }
    assert Candidate(base, k + 1) !in tried;
  }

  lemma FreeAfter(base: string, used: set<string>, tried: set<string>, k: nat)
    requires TriedUpTo(base, tried, k) && tried <= used && Candidate(base, k + 1) !in used
    ensures FirstFree(base, used, k + 1)
  {
    hide Candidate;
    SubsetIsNoLarger(tried, used);
    forall m | 1 <= m < k + 1
      ensures Candidate(base, m) in used
    {
      assert Candidate(base, m) in tried;
    }
  }

  /** The first candidate nobody uses; among one more candidate than there are used names, some
      candidate is free. */
  ghost predicate FirstFree(base: string, used: set<string>, n: nat) {
    1 <= n <= |used| + 1 && Candidate(base, n) !in used && forall m | 1 <= m < n :: Candidate(base, m) in used
  }

  /** A name nobody uses is taken as it is. */
  lemma UnusedIsTaken(base: string, used: set<string>, n: nat)
    requires FirstFree(base, used, n) && base + "Object" !in used
    ensures Candidate(base, n) == base + "Object"
  {
    assert Candidate(base, 1) == base + "Object";
  }

  /** The base of each definition's name, parents before children: that of a child is its
      parent's with its own name added. */
  function Bases(base: string, definition: Definition): (bases: seq<string>)
    ensures |bases| == Count(definition)
    decreases definition
  {
    [base] + ChildBases(base, definition.children)
  }

  function ChildBases(base: string, children: seq<Child>): (bases: seq<string>)
    ensures |bases| == CountAll(children)
    decreases children
  {
    if children == [] then []
    else Bases(base + PascalCase(children[0].name), children[0].definition) + ChildBases(base, children[1..])
  }

  function NameSet(names: seq<string>): set<string> {
    set n | n in names
  }

  /** The k-th name is the first free candidate of the k-th base. */
  ghost predicate TakenAt(names: seq<string>, bases: seq<string>, used: set<string>, k: nat)
    requires k < |names| == |bases|
  {
    exists n: nat :: FirstFree(bases[k], used + NameSet(names[..k]), n) && names[k] == Candidate(bases[k], n)
  }

  ghost predicate Taken(names: seq<string>, bases: seq<string>, used: set<string>) {
    |names| == |bases| && forall k: nat | k < |names| :: TakenAt(names, bases, used, k)
  }

  lemma TakenOne(name: string, base: string, used: set<string>, n: nat)
    requires FirstFree(base, used, n) && name == Candidate(base, n)
    ensures Taken([name], [base], used)
  {
    hide FirstFree, Candidate;
    assert [name][..0] == [] && used + NameSet([]) == used;
    assert FirstFree([base][0], used + NameSet([name][..0]), n);
  }

  lemma TakenConcat(a: seq<string>, b: seq<string>, x: seq<string>, y: seq<string>, used: set<string>)
    requires Taken(a, x, used) && Taken(b, y, used + NameSet(a))
    ensures Taken(a + b, x + y, used)
  {
    hide FirstFree, Candidate;
    forall k: nat | k < |a + b|
      ensures TakenAt(a + b, x + y, used, k)
    {
      if k < |a| {
        TakenEarlier(a, b, x, y, used, k);
      } else {
        TakenLater(a, b, x, y, used, k - |a|);
      }
    }
  }

  lemma TakenEarlier(a: seq<string>, b: seq<string>, x: seq<string>, y: seq<string>, used: set<string>, k: nat)
    requires k < |a| == |x| && |b| == |y| && TakenAt(a, x, used, k)
    ensures TakenAt(a + b, x + y, used, k)
  {
    hide FirstFree, Candidate;
    var n: nat :| FirstFree(x[k], used + NameSet(a[..k]), n) && a[k] == Candidate(x[k], n);
    assert (a + b)[..k] == a[..k];
    assert FirstFree((x + y)[k], used + NameSet((a + b)[..k]), n);
  }

  lemma TakenLater(a: seq<string>, b: seq<string>, x: seq<string>, y: seq<string>, used: set<string>, k: nat)
    requires |a| == |x| && k < |b| == |y| && TakenAt(b, y, used + NameSet(a), k)
    ensures TakenAt(a + b, x + y, used, |a| + k)
  {
    hide FirstFree, Candidate;
    var n: nat :| FirstFree(y[k], used + NameSet(a) + NameSet(b[..k]), n) && b[k] == Candidate(y[k], n);
    assert (a + b)[..|a| + k] == a + b[..k];
    assert used + NameSet(a + b[..k]) == used + NameSet(a) + NameSet(b[..k]);
    assert FirstFree((x + y)[|a| + k], used + NameSet((a + b)[..|a| + k]), n);
  }

  lemma {:induction false} ChildBasesConcat(base: string, a: seq<Child>, b: seq<Child>)
    ensures ChildBases(base, a + b) == ChildBases(base, a) + ChildBases(base, b)
    decreases |a|
  {
    if a == [] {
      assert a + b == b;
    } else {
      assert (a + b)[1..] == a[1..] + b;
      ChildBasesConcat(base, a[1..], b);
    }
  }

  lemma NextChildBases(base: string, done: seq<Child>, child: Child)
    ensures ChildBases(base, done + [child]) == ChildBases(base, done) + Bases(base + PascalCase(child.name), child.definition)
  {
    hide Bases;
    ChildBasesConcat(base, done, [child]);
    assert [child][1..] == [] && ChildBases(base, []) == [];
  }

  /** The filled slots from `at` on have these names. */
  ghost predicate Named(out: Slots, at: nat, names: seq<string>) {
    at + |names| == |out| && forall i | at <= i < |out| :: out[i].Some? && out[i].value.name == names[i - at]
  }

  lemma NamedConcat(was: Slots, out: Slots, at: nat, a: seq<string>, b: seq<string>)
    requires Named(was, at, a) && |was| <= |out| && out[..|was|] == was && Named(out, |was|, b)
    ensures Named(out, at, a + b)
  {
    assert forall i | 0 <= i < |was| :: was[i] == out[i];
  }

  lemma NamedFilled(out: Slots, slot: nat, interface: Interface, names: seq<string>)
    requires slot < |out| && Named(out, slot + 1, names)
    ensures Named(out[slot := Some(interface)], slot, [interface.name] + names)
  {
  }

  /** One more child's names, after those of the definition and of the children before it. */
  lemma NextNames(was: Slots, out: Slots, at: nat, base: string, done: seq<Child>, child: Child, names: seq<string>, more: seq<string>,
                  used: set<string>)
    requires names != [] && Named(was, at, names[1..]) && |was| <= |out| && out[..|was|] == was && Named(out, |was|, more)
    requires Taken(names, [base] + ChildBases(base, done), used)
    requires Taken(more, Bases(base + PascalCase(child.name), child.definition), used + NameSet(names))
    ensures Named(out, at, (names + more)[1..])
    ensures Taken(names + more, [base] + ChildBases(base, done + [child]), used)
    ensures NameSet(names + more) == NameSet(names) + NameSet(more)
  {
    hide Taken, Named, Bases, PascalCase;
    TakenConcat(names, more, [base] + ChildBases(base, done), Bases(base + PascalCase(child.name), child.definition), used);
    NextChildBases(base, done, child);
    NamedConcat(was, out, at, names[1..], more);
    assert (names + more)[1..] == names[1..] + more;
    assert [base] + ChildBases(base, done + [child]) == [base] + ChildBases(base, done) + Bases(base + PascalCase(child.name), child.definition);
  }

  /* ---- What is emitted ---- */

  /** A slot is blank from when it is reserved until its interface is complete. */
  type Slots = seq<Option<Interface>>

  function Count(definition: Definition): (n: nat)
    ensures n > 0
    decreases definition
  {
    1 + CountAll(definition.children)
  }

  function CountAll(children: seq<Child>): nat
    decreases children
  {
    if children == [] then 0 else Count(children[0].definition) + CountAll(children[1..])
  }

  /** The members read from a definition's own fields; injected ones are not repeated. */
  function FieldMembers(fields: seq<string>, injected: bool): seq<Member> {
    if fields == [] then []
    else (if injected && (fields[0] == "path" || fields[0] == "order") then [] else [Field(fields[0])]) + FieldMembers(fields[1..], injected)
  }

  /** A field is a member once for each time it is declared, but for the two that are injected. */
  lemma {:induction false} FieldsKept(fields: seq<string>, injected: bool)
    ensures forall f :: Field(f) in FieldMembers(fields, injected) <==> f in fields && !(injected && f in ["path", "order"])
    ensures !injected ==> |FieldMembers(fields, injected)| == |fields| && forall i | 0 <= i < |fields| :: FieldMembers(fields, injected)[i] == Field(fields[i])
    ensures forall m | m in FieldMembers(fields, injected) :: m.Field?
  {
    if fields != [] {
      FieldsKept(fields[1..], injected);
    }
  }

  /** One list per child, naming the interface in the child's slot. */
  function ListMembers(out: Slots, at: nat, children: seq<Child>): seq<Member>
    decreases |children|
  {
    if children == [] then []
    else
      [ListMember(out, at, children[0])] + ListMembers(out, at + Count(children[0].definition), children[1..])
  }

  function ListMember(out: Slots, at: nat, child: Child): Member {
    List(child.name, if at < |out| && out[at].Some? then out[at].value.name else "")
  }

  /** The slots from `at` on are a definition's interface and then its children's, parents before
      children, every list naming the interface of its own child. */
  predicate Describes(out: Slots, at: nat, definition: Definition, injected: bool)
    decreases definition
  {
    && at < |out| && out[at].Some? && out[at].value.injected == injected
    && out[at].value.members == FieldMembers(definition.fields, injected) + ListMembers(out, at + 1, definition.children)
    && DescribesAll(out, at + 1, definition.children)
  }

  predicate DescribesAll(out: Slots, at: nat, children: seq<Child>)
    decreases children
  {
    children == [] ||
    (Describes(out, at, children[0].definition, false) && DescribesAll(out, at + Count(children[0].definition), children[1..]))
  }

  predicate Same(a: Slots, b: Slots, from: nat, to: nat) {
    from <= to <= |a| && to <= |b| && forall i | from <= i < to :: a[i] == b[i]
  }

  lemma {:induction false} DescribesStays(a: Slots, b: Slots, at: nat, definition: Definition, injected: bool)
    requires Describes(a, at, definition, injected) && Same(a, b, at, at + Count(definition))
    ensures Describes(b, at, definition, injected)
    decreases definition
  {
    ListsStay(a, b, at + 1, definition.children);
    DescribesAllStay(a, b, at + 1, definition.children);
  }

  lemma {:induction false} DescribesAllStay(a: Slots, b: Slots, at: nat, children: seq<Child>)
    requires DescribesAll(a, at, children) && Same(a, b, at, at + CountAll(children))
    ensures DescribesAll(b, at, children)
    decreases children
  {
    if children != [] {
      DescribesStays(a, b, at, children[0].definition, false);
      DescribesAllStay(a, b, at + Count(children[0].definition), children[1..]);
    }
  }

  lemma {:induction false} ListsStay(a: Slots, b: Slots, at: nat, children: seq<Child>)
    requires Same(a, b, at, at + CountAll(children))
    ensures ListMembers(a, at, children) == ListMembers(b, at, children)
    decreases |children|
  {
    if children != [] {
      ListsStay(a, b, at + Count(children[0].definition), children[1..]);
    }
  }

  lemma {:induction false} CountConcat(a: seq<Child>, b: seq<Child>)
    ensures CountAll(a + b) == CountAll(a) + CountAll(b)
  {
    if a == [] {
      assert a + b == b;
    } else {
      assert (a + b)[1..] == a[1..] + b;
      CountConcat(a[1..], b);
    }
  }

  lemma {:induction false} DescribesConcat(out: Slots, at: nat, a: seq<Child>, b: seq<Child>)
    requires DescribesAll(out, at, a) && DescribesAll(out, at + CountAll(a), b)
    ensures DescribesAll(out, at, a + b)
    decreases |a|
  {
    hide Describes, Count;
    if a == [] {
      assert a + b == b;
    } else {
      assert (a + b)[0] == a[0] && (a + b)[1..] == a[1..] + b;
      DescribesConcat(out, at + Count(a[0].definition), a[1..], b);
    }
  }

  lemma {:induction false} ListsConcat(out: Slots, at: nat, a: seq<Child>, b: seq<Child>)
    ensures ListMembers(out, at, a + b) == ListMembers(out, at, a) + ListMembers(out, at + CountAll(a), b)
    decreases |a|
  {
    hide *;
    if a == [] {
      NoLists(out, at);
      assert a + b == b;
    } else {
      ListsOnward(out, at, a + b);
      ListsOnward(out, at, a);
      var next := at + Count(a[0].definition);
      assert (a + b)[0] == a[0] && (a + b)[1..] == a[1..] + b;
      ListsConcat(out, next, a[1..], b);
      Associates([ListMember(out, at, a[0])], ListMembers(out, next, a[1..]), ListMembers(out, next + CountAll(a[1..]), b));
    }
  }

  lemma NoLists(out: Slots, at: nat)
    ensures ListMembers(out, at, []) == [] && CountAll([]) == 0
  {
  }

  lemma Associates<T>(a: seq<T>, b: seq<T>, c: seq<T>)
    ensures a + b + c == a + (b + c)
  {
  }

  lemma ListsOnward(out: Slots, at: nat, children: seq<Child>)
    requires children != []
    ensures ListMembers(out, at, children)
         == [ListMember(out, at, children[0])] + ListMembers(out, at + Count(children[0].definition), children[1..])
    ensures CountAll(children) == Count(children[0].definition) + CountAll(children[1..])
  {
    hide Count;
  }

  /** Filled slots have names of their own, all of them in use. */
  ghost predicate NamesApart(out: Slots, from: nat, used: set<string>) {
    && (forall i | from <= i < |out| && out[i].Some? :: out[i].value.name in used)
    && (forall i, j | from <= i < j < |out| && out[i].Some? && out[j].Some? :: out[i].value.name != out[j].value.name)
  }

  class Emitter {
    var used: set<string>
    var out: Slots

    constructor ()
      ensures used == PREAMBLE_NAMES && out == []
    {
      used, out := PREAMBLE_NAMES, [];
    }

    method Take(base: string) returns (name: string)
      modifies this`used
      ensures used == old(used) + {name} && name !in old(used)
      ensures exists n :: FirstFree(base, old(used), n) && name == Candidate(base, n)
    {
      hide Candidate, TriedUpTo, FirstFree;
      name := base + "Object";
      var n := 2;
      ghost var tried: set<string> := {};
      NothingTried(base);
      while name in used
        invariant used == old(used) && n >= 2 && name == Candidate(base, n - 1)
        invariant tried <= used && TriedUpTo(base, tried, n - 2)
        decreases |used| - |tried|
      {
        TryNext(base, tried, n - 2);
        TriedCount(base, tried, n - 2);
        SubsetIsNoLarger(tried + {name}, used);
        TriedCount(base, tried + {name}, n - 1);
        tried := tried + {name};
        CandidateIs(base, n);
        name := base + "Object" + Decimal(n);
        n := n + 1;
      }
      FreeAfter(base, used, tried, n - 2);
      used := used + {name};
    }

    /** Fills one slot for the definition, and after it the slots of each child in turn. */
    method EmitObject(base: string, definition: Definition, injected: bool) returns (name: string, ghost names: seq<string>)
      modifies this
      ensures |out| == |old(out)| + Count(definition) && out[..|old(out)|] == old(out)
      ensures Describes(out, |old(out)|, definition, injected) && out[|old(out)|].value.name == name
      ensures old(used) <= used
      ensures NamesApart(out, |old(out)|, used - old(used))
      ensures Taken(names, Bases(base, definition), old(used)) && Named(out, |old(out)|, names)
      ensures used == old(used) + NameSet(names)
      decreases definition
    {
      hide Describes, DescribesAll, ListMembers, NamesApart, PascalCase, FieldMembers, FirstFree, CountAll, Same;
      hide Taken, Named, Bases, ChildBases, Candidate, Count, NameSet;
      ghost var before, reserved := out, used;
      name := Take(base);
      ghost var nth :| FirstFree(base, reserved, nth) && name == Candidate(base, nth);
      TakenOne(name, base, reserved, nth);
      names := [name];
      var slot := |out|;
      out := out + [None];
      var members := FieldMembers(definition.fields, injected);
      var fields := members;
      var children := definition.children;
      NothingYet(out, slot + 1);
      NothingNamed(out, slot + 1, base);
      OneName(name);
      assert [base] + [] == [base] && names[1..] == [];
      assert used - reserved - {name} == {};
      for i := 0 to |children|
        invariant |out| == slot + 1 + CountAll(children[..i]) && out[..slot] == before && out[slot].None?
        invariant DescribesAll(out, slot + 1, children[..i])
        invariant members == fields + ListMembers(out, slot + 1, children[..i])
        invariant reserved + {name} <= used
        invariant NamesApart(out, slot + 1, used - reserved - {name})
        invariant |names| > 0 && names[0] == name && Named(out, slot + 1, names[1..])
        invariant Taken(names, [base] + ChildBases(base, children[..i]), reserved) && used == reserved + NameSet(names)
      {
        ghost var was, taken := out, used;
        var child := children[i];
        ghost var more;
        var childType;
        childType, more := EmitObject(base + PascalCase(child.name), child.definition, false);
        NextNames(was, out, slot + 1, base, children[..i], child, names, more, reserved);
        members := members + [List(child.name, childType)];
        NextChild(was, out, slot + 1, children[..i], child);
        assert children[..i] + [child] == children[..i + 1];
        names := names + more;
        NamesStayApart(was, out, slot + 1, taken - reserved - {name}, used - taken, used - reserved - {name});
      }
      assert children[..|children|] == children;
      BasesAre(base, definition);
      NamedFilled(out, slot, Interface(name, injected, members), names[1..]);
      assert [name] + names[1..] == names;
      Finished(out, slot, Interface(name, injected, members), definition, used - reserved - {name}, used - reserved);
      out := out[slot := Some(Interface(name, injected, members))];
    }
  }

  lemma OneName(name: string)
    ensures NameSet([name]) == {name}
  {
  }

  lemma NothingTaken()
    ensures Taken([], [], PREAMBLE_NAMES)
  {
  }

  lemma NothingNamed(out: Slots, at: nat, base: string)
    requires |out| == at
    ensures Named(out, at, []) && ChildBases(base, []) == []
  {
  }

  lemma BasesAre(base: string, definition: Definition)
    ensures Bases(base, definition) == [base] + ChildBases(base, definition.children)
  {
  }

  lemma NothingYet(out: Slots, at: nat)
    requires |out| == at
    ensures CountAll([]) == 0 && DescribesAll(out, at, []) && ListMembers(out, at, []) == [] && NamesApart(out, at, {})
  {
  }

  /** Filling the reserved slot completes the description. */
  lemma Finished(filled: Slots, slot: nat, interface: Interface, definition: Definition, rest: set<string>, all: set<string>)
    requires |filled| == slot + 1 + CountAll(definition.children)
    requires DescribesAll(filled, slot + 1, definition.children)
    requires interface.members == FieldMembers(definition.fields, interface.injected) + ListMembers(filled, slot + 1, definition.children)
    requires NamesApart(filled, slot + 1, rest) && interface.name !in rest && rest + {interface.name} <= all
    ensures |filled| == slot + Count(definition)
    ensures Describes(filled[slot := Some(interface)], slot, definition, interface.injected)
    ensures NamesApart(filled[slot := Some(interface)], slot, all)
  {
    var out := filled[slot := Some(interface)];
    DescribesAllStay(filled, out, slot + 1, definition.children);
    ListsStay(filled, out, slot + 1, definition.children);
  }

  lemma NextChild(was: Slots, out: Slots, at: nat, done: seq<Child>, child: Child)
    requires DescribesAll(was, at, done) && |was| == at + CountAll(done)
    requires |out| == |was| + Count(child.definition) && out[..|was|] == was
    requires Describes(out, |was|, child.definition, false)
    ensures DescribesAll(out, at, done + [child]) && CountAll(done + [child]) == CountAll(done) + Count(child.definition)
    ensures ListMembers(out, at, done + [child]) == ListMembers(was, at, done) + [List(child.name, out[|was|].value.name)]
  {
    assert forall i | 0 <= i < |was| :: out[i] == out[..|was|][i];
    DescribesAllStay(was, out, at, done);
    ListsStay(was, out, at, done);
    assert [child][1..] == [];
    DescribesConcat(out, at, done, [child]);
    ListsConcat(out, at, done, [child]);
    CountConcat(done, [child]);
  }

  lemma NamesStayApart(was: Slots, out: Slots, from: nat, mine: set<string>, added: set<string>, all: set<string>)
    requires NamesApart(was, from, mine) && NamesApart(out, |was|, added)
    requires |was| <= |out| && out[..|was|] == was && mine !! added && mine + added <= all
    ensures NamesApart(out, from, all)
  {
    assert forall i | 0 <= i < |was| :: out[i] == out[..|was|][i];
  }

  /* ---- The whole file ---- */

  function RootBases(objects: seq<Child>): (bases: seq<string>)
    ensures |bases| == CountAll(objects)
  {
    ChildBases("", objects)
  }

  datatype Root = Root(name: string, interface: string)

  /** Every definition's interface, and the root members that refer to them. */
  method GenerateTypescriptDefs(objects: seq<Child>) returns (out: Slots, roots: seq<Root>)
    ensures |out| == CountAll(objects)
    ensures NamesApart(out, 0, AllNames(out))
    ensures forall i | 0 <= i < |out| ::
              out[i].Some? && out[i].value.name !in {"ArchivalObjects", "ArchivalFile", "ArchivalMeta"}
    ensures exists names :: Named(out, 0, names) && Taken(names, RootBases(objects), {"ArchivalObjects", "ArchivalFile", "ArchivalMeta"})
    ensures |roots| == |objects|
    ensures forall k | 0 <= k < |objects| :: RootOf(out, CountAll(objects[..k]), objects[k], roots[k])
  {
    hide Describes, DescribesAll, ListMembers, PascalCase, CountAll, Count, Same, NamesApart, Taken, Named, Bases, ChildBases;
    var emitter := new Emitter();
    ghost var names: seq<string> := [];
    roots := [];
    NothingYet(emitter.out, 0);
    NothingNamed(emitter.out, 0, "");
    NothingTaken();
    assert NameSet([]) == {} && emitter.used - PREAMBLE_NAMES == {};
    for i := 0 to |objects|
      invariant fresh(emitter) && PREAMBLE_NAMES <= emitter.used
      invariant |emitter.out| == CountAll(objects[..i]) && |roots| == i
      invariant NamesApart(emitter.out, 0, emitter.used - PREAMBLE_NAMES)
      invariant AllFilled(emitter.out)
      invariant Named(emitter.out, 0, names) && Taken(names, ChildBases("", objects[..i]), PREAMBLE_NAMES)
      invariant emitter.used == PREAMBLE_NAMES + NameSet(names)
      invariant forall k | 0 <= k < i :: RootOf(emitter.out, CountAll(objects[..k]), objects[k], roots[k])
    {
      ghost var was, taken := emitter.out, emitter.used;
      ghost var more;
      var name;
      name, more := emitter.EmitObject(PascalCase(objects[i].name), objects[i].definition, true);
      assert "" + PascalCase(objects[i].name) == PascalCase(objects[i].name);
      TakenConcat(names, more, ChildBases("", objects[..i]), Bases(PascalCase(objects[i].name), objects[i].definition), PREAMBLE_NAMES);
      NextChildBases("", objects[..i], objects[i]);
      NamedConcat(was, emitter.out, 0, names, more);
      assert objects[..i] + [objects[i]] == objects[..i + 1] && NameSet(names + more) == NameSet(names) + NameSet(more);
      names := names + more;
      roots := roots + [Root(objects[i].name, name)];
      NamesStayApart(was, emitter.out, 0, taken - PREAMBLE_NAMES, emitter.used - taken, emitter.used - PREAMBLE_NAMES);
      NextRoot(was, emitter.out, objects, i, roots);
    }
    out := emitter.out;
    assert objects[..|objects|] == objects;
    NamesAreTheirs(out, emitter.used - PREAMBLE_NAMES);
  }

  ghost predicate AllFilled(out: Slots) {
    forall i | 0 <= i < |out| :: out[i].Some?
  }

  function AllNames(out: Slots): set<string> {
    set i | 0 <= i < |out| && out[i].Some? :: out[i].value.name
  }

  predicate RootOf(out: Slots, at: nat, entry: Child, root: Root) {
    && Describes(out, at, entry.definition, true)
    && root == Root(entry.name, out[at].value.name)
  }

  lemma NamesAreTheirs(out: Slots, used: set<string>)
    requires NamesApart(out, 0, used) && AllFilled(out)
    ensures NamesApart(out, 0, AllNames(out))
    ensures forall i | 0 <= i < |out| :: out[i].Some? && out[i].value.name in used
  {
  }

  /** Every slot a description covers is filled. */
  lemma {:induction false} DescribedIsFilled(out: Slots, at: nat, definition: Definition, injected: bool)
    requires Describes(out, at, definition, injected)
    ensures at + Count(definition) <= |out| && forall i | at <= i < at + Count(definition) :: out[i].Some?
    decreases definition
  {
    DescribedAllFilled(out, at + 1, definition.children);
  }

  lemma {:induction false} DescribedAllFilled(out: Slots, at: nat, children: seq<Child>)
    requires DescribesAll(out, at, children) && at <= |out|
    ensures at + CountAll(children) <= |out| && forall i | at <= i < at + CountAll(children) :: out[i].Some?
    decreases children
  {
    if children != [] {
      DescribedIsFilled(out, at, children[0].definition, false);
      DescribedAllFilled(out, at + Count(children[0].definition), children[1..]);
    }
  }

  lemma NextRoot(was: Slots, out: Slots, objects: seq<Child>, i: nat, roots: seq<Root>)
    requires i < |objects| && |roots| == i + 1 && |was| == CountAll(objects[..i]) && AllFilled(was)
    requires |out| == |was| + Count(objects[i].definition) && out[..|was|] == was
    requires RootOf(out, |was|, objects[i], roots[i])
    requires forall k | 0 <= k < i :: RootOf(was, CountAll(objects[..k]), objects[k], roots[k])
    ensures |out| == CountAll(objects[..i + 1]) && AllFilled(out)
    ensures forall k | 0 <= k < i + 1 :: RootOf(out, CountAll(objects[..k]), objects[k], roots[k])
  {
    hide Describes, CountAll, Count;
    assert objects[..i + 1] == objects[..i] + [objects[i]];
    CountConcat(objects[..i], [objects[i]]);
    CountOne(objects[i]);
    DescribedIsFilled(out, |was|, objects[i].definition, true);
    assert forall j | 0 <= j < |was| :: out[j] == out[..|was|][j];
    forall k | 0 <= k < i
      ensures RootOf(out, CountAll(objects[..k]), objects[k], roots[k])
    {
      var at := CountAll(objects[..k]);
      assert RootOf(was, at, objects[k], roots[k]);
      DescribedIsFilled(was, at, objects[k].definition, true);
      DescribesStays(was, out, at, objects[k].definition, true);
      DescribedHere(was, at, objects[k].definition);
    }
  }

  lemma CountOne(child: Child)
    ensures CountAll([child]) == Count(child.definition)
  {
    assert [child][1..] == [];
  }

  lemma DescribedHere(out: Slots, at: nat, definition: Definition)
    requires Describes(out, at, definition, true)
    ensures at < |out|
  {
  }
}
