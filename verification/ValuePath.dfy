/** Paths into an object's values, and the reads and edits they direct. */
module ValuePaths {
  import opened Wrappers

  /** Everything but a list of children counts as a plain value here. */
  datatype FieldValue = Plain(content: string) | Objects(children: seq<Values>)

  type Values = map<string, FieldValue>

  datatype Component = Key(name: string) | Index(at: nat)

  type Path = seq<Component>

  /** A field of the object, or of a child in a list of children, at any depth. */
  predicate FieldPath(path: Path) {
    path != [] && path[0].Key? && (|path| == 1 || (|path| > 2 && path[1].Index? && FieldPath(path[2..])))
  }

  function Lookup(values: Values, name: string): Option<FieldValue> {
    if name in values then Some(values[name]) else None
  }

  /** What a field path names, or nothing. */
  function Resolve(values: Values, path: Path): Option<FieldValue>
    requires FieldPath(path)
    decreases |path|
  {
    var found := Lookup(values, path[0].name);
    if |path| == 1 || found.None? then found
    else if found.value.Objects? && path[1].at < |found.value.children| then Resolve(found.value.children[path[1].at], path[2..])
    else None
  }

  /** The way ends at a value that is not a list of children, or at an index past its end. */
  predicate Blocked(values: Values, path: Path)
    requires FieldPath(path)
    decreases |path|
  {
    |path| > 1 && path[0].name in values &&
    match values[path[0].name]
    case Plain(_) => true
    case Objects(children) => path[1].at >= |children| || Blocked(children[path[1].at], path[2..])
  }

  /* ---- Reading ---- */

  /** The read from one component on: with nothing found yet, a key is read at the root. */
  function GetFrom(root: Values, last: Option<FieldValue>, path: Path): Option<FieldValue>
    decreases |path|
  {
    if path == [] then last
    else
      match last
      case None => if path[0].Key? then GetFrom(root, Lookup(root, path[0].name), path[1..]) else None
      case Some(Objects(children)) =>
        if path[0].Index? && path[0].at < |children| && |path| > 1 && path[1].Key? then
          GetFrom(root, Lookup(children[path[0].at], path[1].name), path[2..])
        else last
      case Some(Plain(_)) => last
  }

  lemma {:induction false} GetFromField(root: Values, values: Values, path: Path)
    requires FieldPath(path)
    ensures GetFrom(root, Lookup(values, path[0].name), path[1..]) == Resolve(values, path) <==> !Blocked(values, path)
    ensures Blocked(values, path) ==> Resolve(values, path).None?
    decreases |path|
  {
    var found := Lookup(values, path[0].name);
    if |path| > 1 && found.Some? && found.value.Objects? && path[1].at < |found.value.children| {
      assert path[1..][2..] == path[2..][1..];
      GetFromField(root, found.value.children[path[1].at], path[2..]);
    }
  }

  /** A read returns what the path names, except where the way is blocked: there it returns the
      last value it reached instead of nothing. */
  lemma GetIsResolveIff(values: Values, path: Path)
    requires FieldPath(path)
    ensures GetFrom(values, None, path) == Resolve(values, path) <==> !Blocked(values, path)
  {
    GetFromField(values, values, path);
  }

  /** The path leads to an object, at any depth, that does not have its last key. */
  predicate EndsAtMissing(values: Values, path: Path)
    requires FieldPath(path)
    decreases |path|
  {
    if |path| == 1 then path[0].name !in values
    else
      match Lookup(values, path[0].name)
      case Some(Objects(children)) => path[1].at < |children| && EndsAtMissing(children[path[1].at], path[2..])
      case _ => false
  }

  /** The path goes on to a key of a child this value has. */
  predicate GoesOn(value: FieldValue, path: Path) {
    value.Objects? && |path| > 1 && path[0].Index? && path[0].at < |value.children| && path[1].Key?
  }

  lemma {:induction false} ReadOn(root: Values, values: Values, path: Path, rest: Path)
    requires FieldPath(path) && (Resolve(values, path).Some? || EndsAtMissing(values, path))
    ensures GetFrom(root, Lookup(values, path[0].name), path[1..] + rest) == GetFrom(root, Resolve(values, path), rest)
    decreases |path|
  {
    if |path| == 1 {
      assert path[1..] + rest == rest;
    } else {
      var onward := path[1..] + rest;
      assert onward[0] == path[1] && onward[1] == path[2] && onward[2..] == path[2..][1..] + rest;
      ReadOn(root, values[path[0].name].children[path[1].at], path[2..], rest);
    }
  }

  /** A read ends at the last value it reaches, whatever the rest of the path is. */
  lemma ReadsTheLastReached(values: Values, path: Path, rest: Path)
    requires FieldPath(path) && Resolve(values, path).Some? && !GoesOn(Resolve(values, path).value, rest)
    ensures GetFrom(values, None, path + rest) == Resolve(values, path)
  {
    assert (path + rest)[1..] == path[1..] + rest;
    ReadOn(values, values, path, rest);
  }

  /** A key its object does not have, at any depth, makes the rest of the path read at the root. */
  lemma MissingKeyReadsTheNext(values: Values, path: Path, rest: Path)
    requires FieldPath(path) && EndsAtMissing(values, path)
    ensures GetFrom(values, None, path + rest) == if rest != [] && rest[0].Key? then GetFrom(values, None, rest) else None
  {
    assert (path + rest)[1..] == path[1..] + rest;
    ReadOn(values, values, path, rest);
    EndsNowhere(values, path);
  }

  lemma {:induction false} EndsNowhere(values: Values, path: Path)
    requires FieldPath(path) && EndsAtMissing(values, path)
    ensures Resolve(values, path).None?
    decreases |path|
  {
    if |path| > 1 {
      EndsNowhere(values[path[0].name].children[path[1].at], path[2..]);
    }
  }

  /* ---- Setting ---- */

  /** A set may panic, on a path that ends in an index. */
  datatype Outcome = Done | NotFound | Panics

  function Put(values: Values, name: string, value: Option<FieldValue>): Values {
    match value
    case Some(v) => values[name := v]
    case None => values - {name}
  }

  function SetInTree(values: Values, path: Path, value: Option<FieldValue>): (Values, Outcome)
    decreases |path|
  {
    if path == [] then (values, Panics)
    else if path[0].Index? then (values, NotFound)
    else if |path| == 1 then (Put(values, path[0].name, value), Done)
    else if path[0].name in values && values[path[0].name].Objects? && path[1].Index? && path[1].at < |values[path[0].name].children| then
      var children := values[path[0].name].children;
      var (child, outcome) := SetInTree(children[path[1].at], path[2..], value);
      (values[path[0].name := Objects(children[path[1].at := child])], outcome)
    else (values, NotFound)
  }

  function Grown(children: seq<Values>, size: nat): (r: seq<Values>)
    ensures |r| == if |children| < size then size else |children|
    ensures forall i | 0 <= i < |r| :: r[i] == if i < |children| then children[i] else map[]
    decreases size - |children|
  {
    if |children| >= size then children else Grown(children + [map[]], size)
  }

  /** At the root a list of children grows to hold the index; nested ones do not. */
  function ObjectAfterSet(values: Values, path: Path, value: Option<FieldValue>): (Values, Outcome)
    decreases |path|
  {
    if path == [] || path[0].Index? then (values, Done)
    else if |path| == 1 then (Put(values, path[0].name, value), Done)
    else if path[0].name !in values then ObjectAfterSet(values, path[1..], value)
    else if values[path[0].name].Objects? && path[1].Index? then
      var children := Grown(values[path[0].name].children, path[1].at + 1);
      var (child, outcome) := SetInTree(children[path[1].at], path[2..], value);
      (values[path[0].name := Objects(children[path[1].at := child])], outcome)
    else (values, Done)
  }

  /** Neither path leads through the other. */
  predicate Apart(p: Path, q: Path) {
    !(p <= q) && !(q <= p)
  }

  lemma {:induction false} SetInTreeThenResolve(values: Values, path: Path, value: Option<FieldValue>)
    requires FieldPath(path) && SetInTree(values, path, value).1.Done?
    ensures Resolve(SetInTree(values, path, value).0, path) == value
    decreases |path|
  {
    if |path| > 1 {
      SetInTreeThenResolve(values[path[0].name].children[path[1].at], path[2..], value);
    }
  }

  lemma ApartDeeper(p: Path, q: Path)
    requires FieldPath(p) && FieldPath(q) && |p| > 1 && |q| > 1 && p[0] == q[0] && p[1] == q[1]
    ensures Apart(p, q) <==> Apart(p[2..], q[2..])
  {
    assert p == [p[0], p[1]] + p[2..] && q == [q[0], q[1]] + q[2..];
    if p[2..] <= q[2..] {
      assert q[2..][..|p| - 2] == q[..|p|][2..];
      assert q[..|p|] == [q[0], q[1]] + q[..|p|][2..];
    }
    if q[2..] <= p[2..] {
      assert p[2..][..|q| - 2] == p[..|q|][2..];
      assert p[..|q|] == [p[0], p[1]] + p[..|q|][2..];
    }
  }

  lemma {:induction false} SetInTreeKeepsApart(values: Values, path: Path, value: Option<FieldValue>, q: Path)
    requires FieldPath(path) && FieldPath(q) && Apart(path, q)
    ensures Resolve(SetInTree(values, path, value).0, q) == Resolve(values, q)
    decreases |path|
  {
    if path[0] == q[0] && |path| > 1 && |q| > 1 && path[1] == q[1] {
      ApartDeeper(path, q);
      if path[0].name in values && values[path[0].name].Objects? && path[1].at < |values[path[0].name].children| {
        SetInTreeKeepsApart(values[path[0].name].children[path[1].at], path[2..], value, q[2..]);
      }
    } else if path[0] == q[0] {
      assert |path| == 1 ==> path <= q;
      assert |q| == 1 ==> q <= path;
    }
  }

  /** The root key of a nested path holds children. */
  predicate Settable(values: Values, path: Path)
    requires FieldPath(path)
  {
    |path| == 1 || (path[0].name in values && values[path[0].name].Objects?)
  }

  /** A set that reports success takes effect just there: the path resolves to the value, or to
      nothing on removal, every path apart from it resolves as before, and the list it goes
      through grows to hold the index and no further. */
  lemma SetThenGet(values: Values, path: Path, value: Option<FieldValue>)
    requires FieldPath(path) && Settable(values, path) && ObjectAfterSet(values, path, value).1.Done?
    ensures Resolve(ObjectAfterSet(values, path, value).0, path) == value
    ensures value.Some? ==> GetFrom(ObjectAfterSet(values, path, value).0, None, path) == value
    ensures |path| > 1 ==> ListGrew(values, ObjectAfterSet(values, path, value).0, path[0].name, path[1].at)
  {
    var after := ObjectAfterSet(values, path, value).0;
    if |path| > 1 {
      var children := Grown(values[path[0].name].children, path[1].at + 1);
      SetInTreeThenResolve(children[path[1].at], path[2..], value);
    }
    GetIsResolveIff(after, path);
    GetFromField(after, after, path);
  }

  predicate ListGrew(values: Values, after: Values, name: string, index: nat)
    requires name in values && values[name].Objects?
  {
    && name in after && after[name].Objects?
    && |after[name].children| == (if |values[name].children| <= index then index + 1 else |values[name].children|)
  }

  lemma SetKeepsApart(values: Values, path: Path, value: Option<FieldValue>, q: Path)
    requires FieldPath(path) && Settable(values, path) && FieldPath(q) && Apart(path, q)
    ensures Resolve(ObjectAfterSet(values, path, value).0, q) == Resolve(values, q)
  {
    if path[0] == q[0] && |path| > 1 && |q| > 1 {
      var before := values[path[0].name].children;
      var children := Grown(before, path[1].at + 1);
      if path[1] == q[1] {
        ApartDeeper(path, q);
        SetInTreeKeepsApart(children[path[1].at], path[2..], value, q[2..]);
        if path[1].at >= |before| {
          NothingInEmpty(q[2..]);
        }
      } else if q[1].at >= |before| {
        NothingInEmpty(q[2..]);
      }
    }
  }

  lemma NothingInEmpty(path: Path)
    requires FieldPath(path)
    ensures Resolve(map[], path).None?
  {
  }

  /** A set that fails has grown the list all the same, and changed nothing a path resolves to
      but that list. */
  lemma FailedSetOnlyGrows(values: Values, path: Path, value: Option<FieldValue>, q: Path)
    requires FieldPath(path) && ObjectAfterSet(values, path, value).1.NotFound?
    requires FieldPath(q) && q != [path[0]]
    ensures |path| > 1 && path[0].name in values && values[path[0].name].Objects?
    ensures ListGrew(values, ObjectAfterSet(values, path, value).0, path[0].name, path[1].at)
    ensures Resolve(ObjectAfterSet(values, path, value).0, q) == Resolve(values, q)
  {
    var before := values[path[0].name].children;
    var children := Grown(before, path[1].at + 1);
    FailedSetKeeps(children[path[1].at], path[2..], value);
    if path[0] == q[0] && |q| > 1 && q[1].at >= |before| {
      NothingInEmpty(q[2..]);
    }
  }

  lemma {:induction false} FailedSetKeeps(values: Values, path: Path, value: Option<FieldValue>)
    requires FieldPath(path) && !SetInTree(values, path, value).1.Done?
    ensures SetInTree(values, path, value).0 == values
    decreases |path|
  {
    if |path| > 1 && path[0].name in values && values[path[0].name].Objects? && path[1].at < |values[path[0].name].children| {
      var children := values[path[0].name].children;
      FailedSetKeeps(children[path[1].at], path[2..], value);
      assert children[path[1].at := children[path[1].at]] == children;
    }
  }

  /** No field path makes a set panic. */
  lemma {:induction false} FieldPathsDoNotPanic(values: Values, path: Path, value: Option<FieldValue>)
    requires FieldPath(path)
    ensures !SetInTree(values, path, value).1.Panics? && !ObjectAfterSet(values, path, value).1.Panics?
    decreases |path|
  {
    if |path| > 1 {
      if path[0].name in values && values[path[0].name].Objects? {
        FieldPathsDoNotPanic(Grown(values[path[0].name].children, path[1].at + 1)[path[1].at], path[2..], value);
        if path[1].at < |values[path[0].name].children| {
          FieldPathsDoNotPanic(values[path[0].name].children[path[1].at], path[2..], value);
        }
      }
    }
  }

  /* ---- Lists of children ---- */

  /** At the root, keys the object does not have are passed over. */
  function FromKnownKey(values: Values, path: Path): (p: Path)
    ensures p == [] || p[0].Index? || p[0].name in values
    ensures |p| <= |path|
    decreases |path|
  {
    if path != [] && path[0].Key? && path[0].name !in values then FromKnownKey(values, path[1..]) else path
  }

  /** The list of children a path leads to. */
  function ListAt(values: Values, path: Path): Option<seq<Values>>
    decreases |path|
  {
    if path == [] || path[0].Index? || path[0].name !in values then None
    else
      match values[path[0].name]
      case Plain(_) => None
      case Objects(children) =>
        if |path| == 1 then Some(children)
        else if path[1].Index? && path[1].at < |children| then ListAt(children[path[1].at], path[2..])
        else None
  }

  function WithList(values: Values, path: Path, list: seq<Values>): Values
    requires ListAt(values, path).Some?
    decreases |path|
  {
    var children := values[path[0].name].children;
    if |path| == 1 then values[path[0].name := Objects(list)]
    else values[path[0].name := Objects(children[path[1].at := WithList(children[path[1].at], path[2..], list)])]
  }

  lemma {:induction false} ListWritten(values: Values, path: Path, list: seq<Values>)
    requires ListAt(values, path).Some?
    ensures ListAt(WithList(values, path, list), path) == Some(list)
    decreases |path|
  {
    if |path| > 1 {
      ListWritten(values[path[0].name].children[path[1].at], path[2..], list);
    }
  }

  lemma {:induction false} ListRestored(values: Values, path: Path, list: seq<Values>)
    requires ListAt(values, path).Some?
    ensures ListAt(WithList(values, path, list), path).Some?
    ensures WithList(WithList(values, path, list), path, ListAt(values, path).value) == values
    decreases |path|
  {
    ListWritten(values, path, list);
    if |path| > 1 {
      var children := values[path[0].name].children;
      var at := path[1].at;
      ListRestored(children[at], path[2..], list);
      var changed := WithList(children[at], path[2..], list);
      assert children[at := changed][at := children[at]] == children;
      assert values[path[0].name := Objects(children)] == values;
    } else {
      assert values[path[0].name := Objects(ListAt(values, path).value)] == values;
    }
  }

  lemma {:induction false} SameKnownKey(values: Values, after: Values, path: Path)
    requires values.Keys == after.Keys
    ensures FromKnownKey(after, path) == FromKnownKey(values, path)
    decreases |path|
  {
    if path != [] {
      SameKnownKey(values, after, path[1..]);
    }
  }

  /* ---- Where a set panics ---- */

  /** The path ends in the index of a child in a list that is there. */
  predicate NamesChild(values: Values, path: Path) {
    && path != [] && path[|path| - 1].Index?
    && ListAt(values, path[..|path| - 1]).Some?
    && path[|path| - 1].at < |ListAt(values, path[..|path| - 1]).value|
  }

  lemma {:induction false} TreePanicsIff(values: Values, path: Path, value: Option<FieldValue>)
    ensures SetInTree(values, path, value).1.Panics? <==> path == [] || NamesChild(values, path)
    decreases |path|
  {
    if |path| >= 2 && path[0].Key? && path[0].name in values && values[path[0].name].Objects? && path[1].Index? {
      var children := values[path[0].name].children;
      if path[1].at < |children| {
        TreePanicsIff(children[path[1].at], path[2..], value);
      }
      if |path| == 2 {
        assert path[..1] == [path[0]];
      } else {
        assert path[..|path| - 1][2..] == path[2..][..|path| - 3];
      }
    }
  }

  /** Setting panics, over every object and every path, if and only if the path from its first
      known key on ends in the index of a child: any index for a list at the root, which grows
      to hold it, and one the list holds for any other. */
  lemma {:induction false} SetPanicsIff(values: Values, path: Path, value: Option<FieldValue>)
    ensures ObjectAfterSet(values, path, value).1.Panics? <==>
            var known := FromKnownKey(values, path);
            || NamesChild(values, known)
            || (|known| == 2 && known[1].Index? && ListAt(values, known[..1]).Some?)
    decreases |path|
  {
    if path == [] || path[0].Index? || |path| == 1 {
      assert |path| == 1 && path[0].Key? ==> FromKnownKey(values, path) in [[], path];
    } else if path[0].name !in values {
      SetPanicsIff(values, path[1..], value);
    } else if values[path[0].name].Objects? && path[1].Index? {
      var children := values[path[0].name].children;
      TreePanicsIff(Grown(children, path[1].at + 1)[path[1].at], path[2..], value);
      if |path| == 2 {
        assert path[..1] == [path[0]];
      } else {
        assert path[..|path| - 1][2..] == path[2..][..|path| - 3];
        NothingNamedInEmpty(path[2..]);
      }
    }
  }

  lemma NothingNamedInEmpty(path: Path)
    ensures !NamesChild(map[], path)
  {
  }

  /** Setting a child itself rather than a field of it, at the root or below. */
  lemma SettingAChildPanics(values: Values, name: string, index: nat, inner: string, value: Option<FieldValue>)
    requires name in values && values[name].Objects?
    ensures ObjectAfterSet(values, [Key(name), Index(index)], value).1.Panics?
    ensures index < |values[name].children| && NamesChild(values[name].children[index], [Key(inner), Index(0)]) ==>
              ObjectAfterSet(values, [Key(name), Index(index), Key(inner), Index(0)], value).1.Panics?
  {
    var child, nested := [Key(name), Index(index)], [Key(name), Index(index), Key(inner), Index(0)];
    SetPanicsIff(values, child, value);
    assert child[..1] == [Key(name)];
    if index < |values[name].children| && NamesChild(values[name].children[index], [Key(inner), Index(0)]) {
      SetPanicsIff(values, nested, value);
      assert nested[..3][2..] == [Key(inner), Index(0)][..1];
    }
  }

  /* ---- Adding and removing children ---- */

  datatype EditError = NotChildren | IndexOutOfRange(path: Path, length: nat) | ChildPathMissingIndex(path: Path) | ModifyFailed

  /** The list an edit works on. */
  function EditedList(values: Values, path: Path): Option<seq<Values>> {
    ListAt(values, FromKnownKey(values, path))
  }

  function ChildAdded(values: Values, path: Path, index: Option<nat>, child: Values): Result<(Values, nat), EditError> {
    var known := FromKnownKey(values, path);
    match ListAt(values, known)
    case None => Err(NotChildren)
    case Some(children) =>
      var at := if index.Some? then index.value else |children|;
      if at > |children| then Err(IndexOutOfRange(path + [Index(at)], |children|))
      else Ok((WithList(values, known, children[..at] + [child] + children[at..]), at))
  }

  function ChildRemoved(values: Values, path: Path): Result<Values, EditError> {
    if path == [] || path[|path| - 1].Key? then Err(ChildPathMissingIndex(path))
    else
      var index := path[|path| - 1].at;
      var known := FromKnownKey(values, path[..|path| - 1]);
      match ListAt(values, known)
      case None => Err(NotChildren)
      case Some(children) =>
        if index >= |children| then Err(IndexOutOfRange(path, |children|))
        else Ok(WithList(values, known, children[..index] + children[index + 1..]))
  }

  /** Removing the child that was just added, at the index it was added at, restores the whole
      object, at any depth. */
  lemma AddThenRemove(values: Values, path: Path, index: Option<nat>, child: Values)
    requires ChildAdded(values, path, index, child).Ok?
    ensures ChildRemoved(ChildAdded(values, path, index, child).value.0, path + [Index(ChildAdded(values, path, index, child).value.1)]) == Ok(values)
  {
    var known := FromKnownKey(values, path);
    var children := ListAt(values, known).value;
    var (after, at) := ChildAdded(values, path, index, child).value;
    var list := children[..at] + [child] + children[at..];
    ListWritten(values, known, list);
    ListRestored(values, known, list);
    SameKnownKey(values, after, path);
    assert (path + [Index(at)])[..|path|] == path;
    assert list[..at] + list[at + 1..] == children;
  }

  /** An added child is where it was asked for, the others in order around it. */
  lemma AddedIsThere(values: Values, path: Path, index: Option<nat>, child: Values)
    ensures ChildAdded(values, path, index, child).Ok? <==>
            EditedList(values, path).Some? && (index.Some? ==> index.value <= |EditedList(values, path).value|)
    ensures ChildAdded(values, path, index, child).Ok? ==>
            var (after, at) := ChildAdded(values, path, index, child).value;
            var before := EditedList(values, path).value;
            (index.Some? ==> at == index.value) && (index.None? ==> at == |before|) &&
            EditedList(after, path) == Some(before[..at] + [child] + before[at..])
  {
    if ChildAdded(values, path, index, child).Ok? {
      var (after, at) := ChildAdded(values, path, index, child).value;
      var known := FromKnownKey(values, path);
      ListWritten(values, known, ListAt(values, known).value[..at] + [child] + ListAt(values, known).value[at..]);
      SameKnownKey(values, after, path);
    }
  }

  /** Removal succeeds exactly on an index that the list holds, and takes out that child and no
      other; otherwise it says what was wrong. */
  lemma RemovedIsGone(values: Values, path: Path)
    ensures ChildRemoved(values, path).Ok? <==>
            && path != [] && path[|path| - 1].Index?
            && EditedList(values, path[..|path| - 1]).Some?
            && path[|path| - 1].at < |EditedList(values, path[..|path| - 1]).value|
    ensures ChildRemoved(values, path).Ok? ==>
              var before, at := EditedList(values, path[..|path| - 1]).value, path[|path| - 1].at;
              EditedList(ChildRemoved(values, path).value, path[..|path| - 1]) == Some(before[..at] + before[at + 1..])
    ensures path == [] || path[|path| - 1].Key? ==> ChildRemoved(values, path) == Err(ChildPathMissingIndex(path))
    ensures path != [] && path[|path| - 1].Index? ==>
              var before, at := EditedList(values, path[..|path| - 1]), path[|path| - 1].at;
              && (before.None? ==> ChildRemoved(values, path) == Err(NotChildren))
              && (before.Some? && |before.value| <= at ==> ChildRemoved(values, path) == Err(IndexOutOfRange(path, |before.value|)))
  {
    if ChildRemoved(values, path).Ok? {
      var parent, at := path[..|path| - 1], path[|path| - 1].at;
      var known := FromKnownKey(values, parent);
      var list := ListAt(values, known).value;
      ListWritten(values, known, list[..at] + list[at + 1..]);
      SameKnownKey(values, ChildRemoved(values, path).value, parent);
    }
  }

  lemma AddFailsOtherwise(values: Values, path: Path, index: Option<nat>, child: Values)
    ensures EditedList(values, path).None? ==> ChildAdded(values, path, index, child) == Err(NotChildren)
    ensures EditedList(values, path).Some? && index.Some? && index.value > |EditedList(values, path).value| ==>
              ChildAdded(values, path, index, child) == Err(IndexOutOfRange(path + [Index(index.value)], |EditedList(values, path).value|))
  {
  }

  /** The list an edit works on is the one its path names from the first key on that the object
      has; what comes before are keys it does not have. */
  lemma {:induction false} KnownKeyIsFirst(values: Values, path: Path) returns (k: nat)
    ensures k <= |path| && FromKnownKey(values, path) == path[k..]
    ensures forall j | 0 <= j < k :: path[j].Key? && path[j].name !in values
    ensures k < |path| ==> path[k].Index? || path[k].name in values
    decreases |path|
  {
    k := 0;
    if path != [] && path[0].Key? && path[0].name !in values {
      k := KnownKeyIsFirst(values, path[1..]);
      k := k + 1;
    }
  }

  lemma {:induction false} ListIsResolved(values: Values, path: Path, list: seq<Values>)
    requires FieldPath(path)
    ensures ListAt(values, path) == Some(list) <==> Resolve(values, path) == Some(Objects(list))
    decreases |path|
  {
    if |path| > 1 && path[0].name in values && values[path[0].name].Objects? && path[1].at < |values[path[0].name].children| {
      ListIsResolved(values[path[0].name].children[path[1].at], path[2..], list);
    }
  }

  lemma {:induction false} ListPathIsField(values: Values, path: Path)
    requires ListAt(values, path).Some?
    ensures FieldPath(path)
    decreases |path|
  {
    if |path| > 1 {
      ListPathIsField(values[path[0].name].children[path[1].at], path[2..]);
    }
  }

  lemma {:induction false} WithListKeepsApart(values: Values, path: Path, list: seq<Values>, q: Path)
    requires ListAt(values, path).Some? && FieldPath(path) && FieldPath(q) && Apart(path, q)
    ensures Resolve(WithList(values, path, list), q) == Resolve(values, q)
    decreases |path|
  {
    if path[0] == q[0] {
      assert |path| == 1 ==> path <= q;
      assert |q| == 1 ==> q <= path;
      if path[1] == q[1] {
        ApartDeeper(path, q);
        WithListKeepsApart(values[path[0].name].children[path[1].at], path[2..], list, q[2..]);
      }
    }
  }

  /** Neither edit touches anything apart from its list. */
  lemma EditsKeepApart(values: Values, path: Path, index: Option<nat>, child: Values, q: Path)
    requires FieldPath(q) && Apart(FromKnownKey(values, path), q)
    ensures ChildAdded(values, path, index, child).Ok? ==>
              Resolve(ChildAdded(values, path, index, child).value.0, q) == Resolve(values, q)
    ensures forall at: nat | ChildRemoved(values, path + [Index(at)]).Ok? ::
              Resolve(ChildRemoved(values, path + [Index(at)]).value, q) == Resolve(values, q)
  {
    var known := FromKnownKey(values, path);
    if ListAt(values, known).Some? {
      ListPathIsField(values, known);
      if ChildAdded(values, path, index, child).Ok? {
        var at := ChildAdded(values, path, index, child).value.1;
        var list := ListAt(values, known).value;
        WithListKeepsApart(values, known, list[..at] + [child] + list[at..], q);
      }
      forall at: nat | ChildRemoved(values, path + [Index(at)]).Ok?
        ensures Resolve(ChildRemoved(values, path + [Index(at)]).value, q) == Resolve(values, q)
      {
        var list := ListAt(values, known).value;
        assert (path + [Index(at)])[..|path|] == path;
        WithListKeepsApart(values, known, list[..at] + list[at + 1..], q);
      }
    } else {
      forall at: nat
        ensures ChildRemoved(values, path + [Index(at)]).Err?
      {
        assert (path + [Index(at)])[..|path|] == path;
      }
    }
  }

  /* ---- When a set takes effect ---- */

  lemma {:induction false} TreeDoneIff(values: Values, path: Path, value: Option<FieldValue>)
    requires FieldPath(path)
    ensures SetInTree(values, path, value).1.Done? <==> |path| == 1 || NamesChild(values, path[..|path| - 1])
    decreases |path|
  {
    if |path| > 1 && path[0].name in values && values[path[0].name].Objects? {
      var children := values[path[0].name].children;
      if path[1].at < |children| {
        TreeDoneIff(children[path[1].at], path[2..], value);
      }
      ChildOfChild(values, path[..|path| - 1]);
      assert path[..|path| - 1][2..] == path[2..][..|path| - 3];
    }
  }

  /** A path that names a child names one in the child it goes through. */
  lemma ChildOfChild(values: Values, path: Path)
    requires |path| >= 2 && path[0].Key? && path[0].name in values && values[path[0].name].Objects? && path[1].Index?
    ensures NamesChild(values, path) <==>
            && path[1].at < |values[path[0].name].children|
            && (|path| == 2 || NamesChild(values[path[0].name].children[path[1].at], path[2..]))
  {
    if |path| == 2 {
      assert path[..1] == [path[0]];
    } else {
      assert path[..|path| - 1][2..] == path[2..][..|path| - 3];
    }
  }

  /** A field below a list at the root takes a set exactly when it is in a child of that list,
      which grows, or in one that a nested list holds; then `SetThenGet` says what becomes of it. */
  lemma SetDoneIff(values: Values, path: Path, value: Option<FieldValue>)
    requires FieldPath(path) && Settable(values, path)
    ensures ObjectAfterSet(values, path, value).1.Done? <==> |path| <= 3 || NamesChild(values, path[..|path| - 1])
  {
    if |path| > 1 {
      var before := values[path[0].name].children;
      var child := Grown(before, path[1].at + 1)[path[1].at];
      TreeDoneIff(child, path[2..], value);
      ChildOfChild(values, path[..|path| - 1]);
      assert path[..|path| - 1][2..] == path[2..][..|path| - 3];
      if path[1].at >= |before| {
        NothingNamedInEmpty(path[2..][..|path| - 3]);
      }
    }
  }

  /** Through a root key that is missing, or holds no children, a set changes nothing and yet
      reports success. */
  lemma UnsettableIsIgnored(values: Values, path: Path, value: Option<FieldValue>)
    requires FieldPath(path) && !Settable(values, path)
    ensures ObjectAfterSet(values, path, value) == (values, Done)
  {
    if path[0].name !in values {
      assert path[1..][0] == path[1];
    }
  }

  /** The list a value found on the way leads to. */
  function ListFrom(found: FieldValue, path: Path): Option<seq<Values>> {
    match found
    case Plain(_) => None
    case Objects(children) =>
      if path == [] then Some(children)
      else if path[0].Index? && path[0].at < |children| then ListAt(children[path[0].at], path[1..])
      else None
  }

  /* ---- The object, edited in place ---- */

  class Object {
    var values: Values

    constructor (values: Values)
      ensures this.values == values
    {
      this.values := values;
    }

    method GetInObject(path: Path) returns (found: Option<FieldValue>)
      ensures found == GetFrom(values, None, path)
    {
      found := None;
      var i := 0;
      while i < |path|
        invariant 0 <= i <= |path|
        invariant GetFrom(values, found, path[i..]) == GetFrom(values, None, path)
      {
        ghost var rest := path[i..];
        assert rest[1..] == path[i + 1..] && (|rest| > 1 ==> rest[2..] == path[i + 2..]);
        if found.None? && path[i].Key? {
          found := Lookup(values, path[i].name);
          i := i + 1;
        } else if found.Some? && found.value.Objects? && path[i].Index? && path[i].at < |found.value.children| && i + 1 < |path| && path[i + 1].Key? {
          found := Lookup(found.value.children[path[i].at], path[i + 1].name);
          i := i + 2;
        } else {
          return;
        }
      }
      assert path[i..] == [];
    }

    /** Walks the keys the object does not have; the last one is set, or the list its index
        points into grows and takes the value. */
    method SetInObject(path: Path, value: Option<FieldValue>) returns (outcome: Outcome)
      modifies this
      ensures (values, outcome) == ObjectAfterSet(old(values), path, value)
    {
      var i := 0;
      while i < |path|
        invariant 0 <= i <= |path| && values == old(values)
        invariant ObjectAfterSet(values, path[i..], value) == ObjectAfterSet(old(values), path, value)
      {
        ghost var rest := path[i..];
        assert rest[1..] == path[i + 1..];
        if path[i].Index? {
          return Done;
        }
        var name := path[i].name;
        if i + 1 == |path| {
          values := Put(values, name, value);
          return Done;
        }
        if name in values {
          if values[name].Objects? && path[i + 1].Index? {
            var index := path[i + 1].at;
            assert rest[2..] == path[i + 2..];
            var children := GrowTo(values[name].children, index);
            var (child, result) := SetInTree(children[index], path[i + 2..], value);
            values := values[name := Objects(children[index := child])];
            return result;
          }
          return Done;
        }
        i := i + 1;
      }
      assert path[i..] == [];
      outcome := Done;
    }

    method GrowTo(before: seq<Values>, index: nat) returns (children: seq<Values>)
      ensures children == Grown(before, index + 1)
    {
      children := before;
      while |children| <= index
        invariant Grown(children, index + 1) == Grown(before, index + 1)
        decreases index + 1 - |children|
      {
        children := children + [map[]];
      }
    }

    /** The walk both edits make to the list they change. */
    method FindChildren(path: Path) returns (list: Option<seq<Values>>)
      ensures list == EditedList(values, path)
    {
      var found: Option<FieldValue> := None;
      var i := 0;
      while i < |path|
        invariant 0 <= i <= |path|
        invariant EditedList(values, path) == if found.None? then EditedList(values, path[i..]) else ListFrom(found.value, path[i..])
      {
        ghost var rest := path[i..];
        assert rest[1..] == path[i + 1..] && (|rest| > 1 ==> rest[1..][1..] == path[i + 2..]);
        if found.None? {
          if path[i].Index? {
            return None;
          }
          found := Lookup(values, path[i].name);
          i := i + 1;
        } else {
          if found.value.Plain? || path[i].Key? || path[i].at >= |found.value.children| || i + 1 == |path| || path[i + 1].Index? {
            return None;
          }
          var child := found.value.children[path[i].at];
          if path[i + 1].name !in child {
            return None;
          }
          found := Some(child[path[i + 1].name]);
          i := i + 2;
        }
      }
      assert path[i..] == [];
      list := if found.Some? && found.value.Objects? then Some(found.value.children) else None;
    }

    /** An index past the end, or a path to no list, changes nothing. */
    method AddChild(path: Path, index: Option<nat>, made: Result<Values, EditError>) returns (r: Result<nat, EditError>)
      modifies this
      ensures made.Err? ==> r == Err(made.error)
      ensures r.Err? ==> values == old(values)
      ensures made.Ok? && r.Err? ==> ChildAdded(old(values), path, index, made.value) == Err(r.error)
      ensures made.Ok? && r.Ok? ==> ChildAdded(old(values), path, index, made.value) == Ok((values, r.value))
      ensures made.Ok? && r.Ok? ==> ChildRemoved(values, path + [Index(r.value)]) == Ok(old(values))
    {
      if made.Err? {
        return Err(made.error);
      }
      var children := FindChildren(path);
      if children.None? {
        return Err(NotChildren);
      }
      var list := children.value;
      var at := if index.Some? then index.value else |list|;
      if at > |list| {
        return Err(IndexOutOfRange(path + [Index(at)], |list|));
      }
      AddThenRemove(values, path, index, made.value);
      values := WithList(values, FromKnownKey(values, path), list[..at] + [made.value] + list[at..]);
      r := Ok(at);
    }

    method RemoveChild(path: Path) returns (r: Result<(), EditError>)
      modifies this
      ensures r.Err? ==> values == old(values) && ChildRemoved(old(values), path) == Err(r.error)
      ensures r.Ok? ==> ChildRemoved(old(values), path) == Ok(values)
    {
      if path == [] || path[|path| - 1].Key? {
        return Err(ChildPathMissingIndex(path));
      }
      var parent, index := path[..|path| - 1], path[|path| - 1].at;
      var children := FindChildren(parent);
      if children.None? {
        return Err(NotChildren);
      }
      var list := children.value;
      if index >= |list| {
        return Err(IndexOutOfRange(path, |list|));
      }
      values := WithList(values, FromKnownKey(values, parent), list[..index] + list[index + 1..]);
      r := Ok(());
    }
  }
}
