/** Templates, the layered context they render against, and what a render records.

    A build renders every page against one shared context.  A render notes each thing it
    reads out of that context, and the build signs those reads; a later build reuses the
    page when every noted read still signs the same.  The main result here is
    RenderAgrees: two contexts that sign alike on the reads of one render drive the
    template to the same outcome and to the same reads. */
module Templates {
  import opened Wrappers

  /* ---- Values and signatures ---- */

  datatype Value =
    | Nil
    | Scalar(text: string)
    | Array(items: seq<Value>)
    | Obj(fields: map<string, Value>)

  /** A collision-free hash: it is determined by, and determines, what it was taken of. */
  datatype Signature =
    | OfValue(value: Value)
    | OfObjects(objects: map<string, Signature>)
    | OfKeys(keys: map<string, Signature>)

  /** One noted read: a key, one type through the objects view, or an enumeration. */
  datatype Dep = Key(key: string) | Object(name: string) | Everything

  datatype ContextSignatures = ContextSignatures(
    keys: map<string, Signature>,
    objects: map<string, Signature>,
    perObject: map<(string, string), Signature>,
    everything: Signature)
  {
    /** The signature a recorded read resolves to, or None when this context lacks it. */
    function Of(dep: Dep): Option<Signature> {
      match dep
      case Key(key) => if key in keys then Some(keys[key]) else None
      case Object(name) => if name in objects then Some(objects[name]) else None
      case Everything => Some(everything)
    }
  }

  const OBJECTS_KEY := "objects"

  /** The signatures describe the context: each top-level key and each entry of
      `objects` is signed by its own value, and `everything` by all the keys. */
  ghost predicate Signs(signatures: ContextSignatures, base: map<string, Value>) {
    && OBJECTS_KEY in base && base[OBJECTS_KEY].Obj?
    && signatures.keys.Keys == base.Keys
    && signatures.objects.Keys == base[OBJECTS_KEY].fields.Keys
    && (forall key | key in base && key != OBJECTS_KEY :: signatures.keys[key] == OfValue(base[key]))
    && (forall name | name in signatures.objects ::
          signatures.objects[name] == OfValue(base[OBJECTS_KEY].fields[name]))
    && signatures.keys[OBJECTS_KEY] == OfObjects(signatures.objects)
    && signatures.everything == OfKeys(signatures.keys)
  }

  /** The two contexts sign the same for one read, and both have it. */
  predicate Agree(s: ContextSignatures, s': ContextSignatures, dep: Dep) {
    s.Of(dep).Some? && s.Of(dep) == s'.Of(dep)
  }

  /** Enumerating the context reads all of it, and `everything` signs all of it. */
  lemma EverythingPinsContext(s: ContextSignatures, base: map<string, Value>,
                              s': ContextSignatures, base': map<string, Value>)
    requires Signs(s, base) && Signs(s', base')
    requires Agree(s, s', Everything)
    ensures base == base'
  {
    assert s.keys == s'.keys;
    assert s.objects == s'.objects;
    forall name | name in s.objects
      ensures base[OBJECTS_KEY].fields[name] == base'[OBJECTS_KEY].fields[name]
    {
      assert s.objects[name] == s'.objects[name];
    }
    assert base[OBJECTS_KEY].fields == base'[OBJECTS_KEY].fields;
    forall key | key in base
      ensures base[key] == base'[key]
    {
      assert s.keys[key] == s'.keys[key];
    }
  }

  /* ---- The layered context ---- */

  /** Two maps of values, looked up in the overlay first. */
  datatype Layers = Layers(overlay: map<string, Value>, base: map<string, Value>)

  /** What a lookup finds.  `objects` is handed out as a view that records its own reads. */
  datatype Found = Missing | Plain(value: Value) | ObjectsView(inner: map<string, Value>)

  predicate HasObjects(l: Layers) {
    OBJECTS_KEY in l.base && l.base[OBJECTS_KEY].Obj?
  }

  function Get(l: Layers, key: string): (Found, set<Dep>) {
    if key in l.overlay then (Plain(l.overlay[key]), {})
    else if key == OBJECTS_KEY && HasObjects(l) then (ObjectsView(l.base[OBJECTS_KEY].fields), {})
    else (if key in l.base then Plain(l.base[key]) else Missing, {Key(key)})
  }

  function Index(found: Found, name: string): (Found, set<Dep>) {
    match found
    case ObjectsView(inner) => (if name in inner then Plain(inner[name]) else Missing, {Object(name)})
    case Plain(Obj(fields)) => (if name in fields then Plain(fields[name]) else Missing, {})
    case _ => (Missing, {})
  }

  function IndexAll(found: Found, names: seq<string>): (Found, set<Dep>)
    decreases |names|
  {
    if names == [] then (found, {})
    else
      var (next, noted) := Index(found, names[0]);
      var (last, more) := IndexAll(next, names[1..]);
      (last, noted + more)
  }

  /** The overlay's entries, then the shared ones it does not shadow. */
  function Merged(l: Layers): map<string, Value> {
    l.base + l.overlay
  }

  /* ---- Templates ---- */

  datatype Node =
    | Text(text: string)
    | Output(root: string, rest: seq<string>)
    | If(root: string, rest: seq<string>, yes: Template, no: Template)
    | IfEmpty(root: string, rest: seq<string>, yes: Template, no: Template)
    | For(item: string, root: string, rest: seq<string>, body: Template)
    | ListContext
    | Include(partial: string)

  datatype Template = End | Then(head: Node, tail: Template)

  /** The template language's own functions on values: any functions will do. */
  datatype Language = Language(
    parse: string -> Option<Template>,
    show: Value -> string,
    truthy: Value -> bool,
    empty: Value -> bool,
    iterate: Value -> Option<seq<Value>>)

  datatype Outcome = Rendered(text: string, noted: set<Dep>) | Failed(noted: set<Dep>)

  function AddNoted(o: Outcome, noted: set<Dep>): Outcome {
    match o
    case Rendered(text, more) => Rendered(text, noted + more)
    case Failed(more) => Failed(noted + more)
  }

  function Append(o: Outcome, next: Outcome): Outcome {
    if o.Failed? then o
    else if next.Failed? then Failed(o.noted + next.noted)
    else Rendered(o.text + next.text, o.noted + next.noted)
  }

  /** A loop variable is found before the context is asked, and is not recorded. */
  function Lookup(l: Layers, locals: map<string, Value>, root: string, rest: seq<string>): (Found, set<Dep>) {
    var (first, noted) := if root in locals then (Plain(locals[root]), {}) else Get(l, root);
    var (last, more) := IndexAll(first, rest);
    (last, noted + more)
  }

  predicate TakesIf(lang: Language, found: Found) {
    found.ObjectsView? || (found.Plain? && lang.truthy(found.value))
  }

  predicate TakesIfEmpty(lang: Language, found: Found) {
    match found
    case Missing => false
    case Plain(v) => lang.empty(v)
    case ObjectsView(inner) => inner == map[]
  }

  /** Renders `t`, noting every read of the shared context.  Printing or iterating
      `objects` enumerates it; asking whether it is truthy or empty notes nothing. */
  function Render(lang: Language, partials: map<string, string>, t: Template,
                  l: Layers, locals: map<string, Value>, depth: nat): Outcome
    decreases depth, t, 0
  {
    match t
    case End => Rendered("", {})
    case Then(node, tail) =>
      var o := RenderNode(lang, partials, node, l, locals, depth);
      if o.Failed? then o else Append(o, Render(lang, partials, tail, l, locals, depth))
  }

  function RenderNode(lang: Language, partials: map<string, string>, node: Node,
                      l: Layers, locals: map<string, Value>, depth: nat): Outcome
    decreases depth, node, 0
  {
    match node {
      case Text(text) => Rendered(text, {})
      case Output(root, rest) =>
        var (found, noted) := Lookup(l, locals, root, rest);
        match found {
          case Missing => Failed(noted)
          case Plain(v) => Rendered(lang.show(v), noted)
          case ObjectsView(inner) => Rendered(lang.show(Obj(inner)), noted + {Everything})
        }
      case If(root, rest, yes, no) =>
        var (found, noted) := Lookup(l, locals, root, rest);
        if TakesIf(lang, found) then AddNoted(Render(lang, partials, yes, l, locals, depth), noted)
        else AddNoted(Render(lang, partials, no, l, locals, depth), noted)
      case IfEmpty(root, rest, yes, no) =>
        var (found, noted) := Lookup(l, locals, root, rest);
        if TakesIfEmpty(lang, found) then AddNoted(Render(lang, partials, yes, l, locals, depth), noted)
        else AddNoted(Render(lang, partials, no, l, locals, depth), noted)
      case For(item, root, rest, body) =>
        var (found, noted) := Lookup(l, locals, root, rest);
        match found {
          case Missing => Failed(noted)
          case Plain(v) =>
            var items := lang.iterate(v);
            if items.None? then Failed(noted)
            else AddNoted(RenderEach(lang, partials, item, items.value, body, l, locals, depth), noted)
          case ObjectsView(inner) =>
            var items := lang.iterate(Obj(inner));
            if items.None? then Failed(noted + {Everything})
            else AddNoted(RenderEach(lang, partials, item, items.value, body, l, locals, depth),
                          noted + {Everything})
        }
      case ListContext => Rendered(lang.show(Obj(Merged(l))), {Everything})
      case Include(name) =>
        if depth == 0 || name !in partials then Failed({})
        else
          var parsed := lang.parse(partials[name]);
          if parsed.None? then Failed({})
          else Render(lang, partials, parsed.value, l, locals, depth - 1)
    }
  }

  function RenderEach(lang: Language, partials: map<string, string>, item: string, items: seq<Value>,
                      body: Template, l: Layers, locals: map<string, Value>, depth: nat): Outcome
    decreases depth, body, |items| + 1
  {
    if items == [] then Rendered("", {})
    else
      var o := Render(lang, partials, body, l, locals[item := items[0]], depth);
      if o.Failed? then o
      else Append(o, RenderEach(lang, partials, item, items[1..], body, l, locals, depth))
  }

  /* ---- Renders depend on nothing but what they note ---- */

  /** Two views of the shared context that sign alike on `noted`.  Whether there are any
      object types at all is read without being noted, so it has to be the same. */
  ghost predicate SignAlike(l: Layers, s: ContextSignatures, l': Layers, s': ContextSignatures, noted: set<Dep>) {
    && l.overlay == l'.overlay
    && Signs(s, l.base) && Signs(s', l'.base)
    && (s.objects == map[] <==> s'.objects == map[])
    && (forall dep | dep in noted :: Agree(s, s', dep))
  }

  /** The same value found twice, or the `objects` view of each context. */
  ghost predicate SameFound(found: Found, l: Layers, found': Found, l': Layers) {
    if found.ObjectsView?
    then HasObjects(l) && HasObjects(l') && found == ObjectsView(l.base[OBJECTS_KEY].fields)
         && found' == ObjectsView(l'.base[OBJECTS_KEY].fields)
    else found == found'
  }

  lemma GetAgrees(l: Layers, s: ContextSignatures, l': Layers, s': ContextSignatures, key: string)
    requires SignAlike(l, s, l', s', Get(l, key).1)
    ensures SameFound(Get(l, key).0, l, Get(l', key).0, l')
    ensures Get(l, key).1 == Get(l', key).1
  {
    if key !in l.overlay && key != OBJECTS_KEY {
      assert Agree(s, s', Key(key));
    }
  }

  lemma IndexAgrees(l: Layers, s: ContextSignatures, l': Layers, s': ContextSignatures,
                    found: Found, found': Found, name: string)
    requires SameFound(found, l, found', l')
    requires SignAlike(l, s, l', s', Index(found, name).1)
    ensures SameFound(Index(found, name).0, l, Index(found', name).0, l')
    ensures Index(found, name).1 == Index(found', name).1
  {
    if found.ObjectsView? {
      assert Agree(s, s', Object(name));
      assert s.objects[name] == s'.objects[name];
    }
  }

  lemma {:induction false} IndexAllAgrees(l: Layers, s: ContextSignatures, l': Layers, s': ContextSignatures,
                                          found: Found, found': Found, names: seq<string>)
    requires SameFound(found, l, found', l')
    requires SignAlike(l, s, l', s', IndexAll(found, names).1)
    ensures SameFound(IndexAll(found, names).0, l, IndexAll(found', names).0, l')
    ensures IndexAll(found, names).1 == IndexAll(found', names).1
    decreases |names|
  {
    if names != [] {
      IndexAgrees(l, s, l', s', found, found', names[0]);
      IndexAllAgrees(l, s, l', s', Index(found, names[0]).0, Index(found', names[0]).0, names[1..]);
    }
  }

  lemma LookupAgrees(l: Layers, s: ContextSignatures, l': Layers, s': ContextSignatures,
                     locals: map<string, Value>, root: string, rest: seq<string>)
    requires SignAlike(l, s, l', s', Lookup(l, locals, root, rest).1)
    ensures SameFound(Lookup(l, locals, root, rest).0, l, Lookup(l', locals, root, rest).0, l')
    ensures Lookup(l, locals, root, rest).1 == Lookup(l', locals, root, rest).1
  {
    if root in locals {
      IndexAllAgrees(l, s, l', s', Plain(locals[root]), Plain(locals[root]), rest);
    } else {
      GetAgrees(l, s, l', s', root);
      IndexAllAgrees(l, s, l', s', Get(l, root).0, Get(l', root).0, rest);
    }
  }

  /** The theorem: a render's outcome, text and reads alike, is determined by its template,
      the partials, its overlay and the signatures of what it noted. */
  lemma {:induction false} RenderAgrees(lang: Language, partials: map<string, string>, t: Template,
                                        l: Layers, s: ContextSignatures, l': Layers, s': ContextSignatures,
                                        locals: map<string, Value>, depth: nat)
    requires SignAlike(l, s, l', s', Render(lang, partials, t, l, locals, depth).noted)
    ensures Render(lang, partials, t, l', locals, depth) == Render(lang, partials, t, l, locals, depth)
    decreases depth, t, 0
  {
    match t
    case End =>
    case Then(node, tail) =>
      var o := RenderNode(lang, partials, node, l, locals, depth);
      assert o.noted <= Render(lang, partials, t, l, locals, depth).noted;
      RenderNodeAgrees(lang, partials, node, l, s, l', s', locals, depth);
      if !o.Failed? {
        RenderAgrees(lang, partials, tail, l, s, l', s', locals, depth);
      }
  }

  lemma {:induction false} RenderNodeAgrees(lang: Language, partials: map<string, string>, node: Node,
                                            l: Layers, s: ContextSignatures, l': Layers, s': ContextSignatures,
                                            locals: map<string, Value>, depth: nat)
    requires SignAlike(l, s, l', s', RenderNode(lang, partials, node, l, locals, depth).noted)
    ensures RenderNode(lang, partials, node, l', locals, depth) == RenderNode(lang, partials, node, l, locals, depth)
    decreases depth, node, 1
  {
    match node {
      case Text(_) =>
      case Output(root, rest) =>
        LookupAgrees(l, s, l', s', locals, root, rest);
        if Lookup(l, locals, root, rest).0.ObjectsView? {
          EverythingPinsContext(s, l.base, s', l'.base);
        }
      case If(_, _, _, _) => ChoiceAgrees(lang, partials, node, l, s, l', s', locals, depth);
      case IfEmpty(_, _, _, _) => ChoiceAgrees(lang, partials, node, l, s, l', s', locals, depth);
      case For(_, _, _, _) => LoopAgrees(lang, partials, node, l, s, l', s', locals, depth);
      case ListContext =>
        EverythingPinsContext(s, l.base, s', l'.base);
      case Include(name) =>
        if depth != 0 && name in partials && lang.parse(partials[name]).Some? {
          RenderAgrees(lang, partials, lang.parse(partials[name]).value, l, s, l', s', locals, depth - 1);
        }
    }
  }

  lemma {:induction false} ChoiceAgrees(lang: Language, partials: map<string, string>, node: Node,
                                        l: Layers, s: ContextSignatures, l': Layers, s': ContextSignatures,
                                        locals: map<string, Value>, depth: nat)
    requires node.If? || node.IfEmpty?
    requires SignAlike(l, s, l', s', RenderNode(lang, partials, node, l, locals, depth).noted)
    ensures RenderNode(lang, partials, node, l', locals, depth) == RenderNode(lang, partials, node, l, locals, depth)
    decreases depth, node, 0
  {
    var found := Lookup(l, locals, node.root, node.rest).0;
    assert Lookup(l, locals, node.root, node.rest).1 <= RenderNode(lang, partials, node, l, locals, depth).noted;
    LookupAgrees(l, s, l', s', locals, node.root, node.rest);
    EmptinessAgrees(l, s, l', s');
    var b := if node.If? then TakesIf(lang, found) else TakesIfEmpty(lang, found);
    assert Render(lang, partials, if b then node.yes else node.no, l, locals, depth).noted
        <= RenderNode(lang, partials, node, l, locals, depth).noted;
    RenderAgrees(lang, partials, if b then node.yes else node.no, l, s, l', s', locals, depth);
  }

  lemma {:induction false} LoopAgrees(lang: Language, partials: map<string, string>, node: Node,
                                      l: Layers, s: ContextSignatures, l': Layers, s': ContextSignatures,
                                      locals: map<string, Value>, depth: nat)
    requires node.For?
    requires SignAlike(l, s, l', s', RenderNode(lang, partials, node, l, locals, depth).noted)
    ensures RenderNode(lang, partials, node, l', locals, depth) == RenderNode(lang, partials, node, l, locals, depth)
    decreases depth, node, 0
  {
    var (found, noted) := Lookup(l, locals, node.root, node.rest);
    assert noted <= RenderNode(lang, partials, node, l, locals, depth).noted;
    LookupAgrees(l, s, l', s', locals, node.root, node.rest);
    if found.ObjectsView? {
      assert Everything in RenderNode(lang, partials, node, l, locals, depth).noted;
      EverythingPinsContext(s, l.base, s', l'.base);
    }
    if !found.Missing? {
      var items := lang.iterate(if found.Plain? then found.value else Obj(found.inner));
      if items.Some? {
        assert RenderEach(lang, partials, node.item, items.value, node.body, l, locals, depth).noted
            <= RenderNode(lang, partials, node, l, locals, depth).noted;
        RenderEachAgrees(lang, partials, node.item, items.value, node.body, l, s, l', s', locals, depth);
      }
    }
  }

  lemma {:induction false} RenderEachAgrees(lang: Language, partials: map<string, string>, item: string,
                                            items: seq<Value>, body: Template,
                                            l: Layers, s: ContextSignatures, l': Layers, s': ContextSignatures,
                                            locals: map<string, Value>, depth: nat)
    requires SignAlike(l, s, l', s', RenderEach(lang, partials, item, items, body, l, locals, depth).noted)
    ensures RenderEach(lang, partials, item, items, body, l', locals, depth)
         == RenderEach(lang, partials, item, items, body, l, locals, depth)
    decreases depth, body, |items| + 1
  {
    if items != [] {
      RenderAgrees(lang, partials, body, l, s, l', s', locals[item := items[0]], depth);
      if !Render(lang, partials, body, l, locals[item := items[0]], depth).Failed? {
        RenderEachAgrees(lang, partials, item, items[1..], body, l, s, l', s', locals, depth);
      }
    }
  }

  lemma EmptinessAgrees(l: Layers, s: ContextSignatures, l': Layers, s': ContextSignatures)
    requires SignAlike(l, s, l', s', {})
    ensures l.base[OBJECTS_KEY].fields == map[] <==> l'.base[OBJECTS_KEY].fields == map[]
  {
    assert s.objects == map[] <==> s.objects.Keys == {};
    assert s'.objects == map[] <==> s'.objects.Keys == {};
    assert l.base[OBJECTS_KEY].fields == map[] <==> l.base[OBJECTS_KEY].fields.Keys == {};
    assert l'.base[OBJECTS_KEY].fields == map[] <==> l'.base[OBJECTS_KEY].fields.Keys == {};
  }
}
