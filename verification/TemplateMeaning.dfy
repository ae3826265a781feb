/** What the layered, recording context means: a template renders as it would over one plain map,
    and notes no read it cannot have made. */
module TemplateMeanings {
  import opened Wrappers
  import opened Templates
  import opened Context

  /* ---- Rendering over one map ---- */

  /** A nested value followed by name. */
  function At(v: Value, names: seq<string>): Option<Value>
    decreases |names|
  {
    if names == [] then Some(v)
    else if v.Obj? && names[0] in v.fields then At(v.fields[names[0]], names[1..])
    else None
  }

  function Read(context: map<string, Value>, root: string, rest: seq<string>): Option<Value> {
    if root in context then At(context[root], rest) else None
  }

  /** A template over one context, loop variables and all: its text, or None when it fails. */
  function Text(lang: Language, partials: map<string, string>, t: Template, globals: map<string, Value>,
                locals: map<string, Value>, depth: nat): Option<string>
    decreases depth, t, 0
  {
    match t
    case End => Some("")
    case Then(node, tail) =>
      var first := NodeText(lang, partials, node, globals, locals, depth);
      var rest := Text(lang, partials, tail, globals, locals, depth);
      if first.Some? && rest.Some? then Some(first.value + rest.value) else None
  }

  function NodeText(lang: Language, partials: map<string, string>, node: Node, globals: map<string, Value>,
                    locals: map<string, Value>, depth: nat): Option<string>
    decreases depth, node, 0
  {
    match node
    case Text(text) => Some(text)
    case Output(root, rest) =>
      var v := Read(globals + locals, root, rest);
      if v.Some? then Some(lang.show(v.value)) else None
    case If(root, rest, yes, no) =>
      var v := Read(globals + locals, root, rest);
      if v.Some? && lang.truthy(v.value) then Text(lang, partials, yes, globals, locals, depth)
      else Text(lang, partials, no, globals, locals, depth)
    case IfEmpty(root, rest, yes, no) =>
      var v := Read(globals + locals, root, rest);
      if v.Some? && lang.empty(v.value) then Text(lang, partials, yes, globals, locals, depth)
      else Text(lang, partials, no, globals, locals, depth)
    case For(item, root, rest, body) =>
      var v := Read(globals + locals, root, rest);
      if v.None? || lang.iterate(v.value).None? then None
      else EachText(lang, partials, item, lang.iterate(v.value).value, body, globals, locals, depth)
    case ListContext => Some(lang.show(Obj(globals)))
    case Include(name) =>
      if depth == 0 || name !in partials || lang.parse(partials[name]).None? then None
      else Text(lang, partials, lang.parse(partials[name]).value, globals, locals, depth - 1)
  }

  function EachText(lang: Language, partials: map<string, string>, item: string, items: seq<Value>, body: Template,
                    globals: map<string, Value>, locals: map<string, Value>, depth: nat): Option<string>
    decreases depth, body, |items| + 1
  {
    if items == [] then Some("")
    else
      var first := Text(lang, partials, body, globals, locals[item := items[0]], depth);
      var rest := EachText(lang, partials, item, items[1..], body, globals, locals, depth);
      if first.Some? && rest.Some? then Some(first.value + rest.value) else None
  }

  /** Liquid's objects are true, and empty when they have no members. */
  ghost predicate OrdinaryObjects(lang: Language) {
    forall fields :: lang.truthy(Obj(fields)) && (lang.empty(Obj(fields)) <==> fields == map[])
  }

  /** What was found, as a value. */
  function Seen(found: Found): Option<Value> {
    match found
    case Missing => None
    case Plain(v) => Some(v)
    case ObjectsView(inner) => Some(Obj(inner))
  }

  function TextOf(o: Outcome): Option<string> {
    if o.Rendered? then Some(o.text) else None
  }

  /** A layered lookup finds what the page's own layer holds, and what the shared one holds where
      it does not. */
  lemma GetIsOverlayThenBase(l: Layers, key: string)
    ensures Seen(Get(l, key).0) == if key in l.overlay then Some(l.overlay[key]) else if key in l.base then Some(l.base[key]) else None
  {
  }

  lemma {:induction false} IndexAllIsAt(found: Found, names: seq<string>)
    ensures Seen(IndexAll(found, names).0) == if Seen(found).Some? then At(Seen(found).value, names) else None
    decreases |names|
  {
    if names != [] {
      IndexAllIsAt(Index(found, names[0]).0, names[1..]);
    }
  }

  lemma LookupIsRead(l: Layers, locals: map<string, Value>, root: string, rest: seq<string>)
    ensures Seen(Lookup(l, locals, root, rest).0) == Read(l.base + l.overlay + locals, root, rest)
  {
    hide IndexAll, Get;
    GetIsOverlayThenBase(l, root);
    IndexAllIsAt(if root in locals then Plain(locals[root]) else Get(l, root).0, rest);
  }

  /** However it is layered and whatever it records, a template renders as over the one map that
      puts the page's own layer over the shared one, and fails just when that fails. */
  lemma {:induction false} RendersAsOneMap(lang: Language, partials: map<string, string>, t: Template, l: Layers,
                                           locals: map<string, Value>, depth: nat)
    requires OrdinaryObjects(lang)
    ensures TextOf(Render(lang, partials, t, l, locals, depth)) == Text(lang, partials, t, l.base + l.overlay, locals, depth)
    decreases depth, t, 1
  {
    match t
    case End =>
    case Then(node, tail) =>
      NodeRendersAsOneMap(lang, partials, node, l, locals, depth);
      RendersAsOneMap(lang, partials, tail, l, locals, depth);
  }

  lemma {:induction false} NodeRendersAsOneMap(lang: Language, partials: map<string, string>, node: Node, l: Layers,
                                               locals: map<string, Value>, depth: nat)
    requires OrdinaryObjects(lang)
    ensures TextOf(RenderNode(lang, partials, node, l, locals, depth)) == NodeText(lang, partials, node, l.base + l.overlay, locals, depth)
    decreases depth, node, 1
  {
    hide Lookup, Read;
    match node
    case Text(_) =>
    case Output(root, rest) => LookupIsRead(l, locals, root, rest);
    case If(root, rest, yes, no) =>
      LookupIsRead(l, locals, root, rest);
      RendersAsOneMap(lang, partials, yes, l, locals, depth);
      RendersAsOneMap(lang, partials, no, l, locals, depth);
    case IfEmpty(root, rest, yes, no) =>
      LookupIsRead(l, locals, root, rest);
      RendersAsOneMap(lang, partials, yes, l, locals, depth);
      RendersAsOneMap(lang, partials, no, l, locals, depth);
    case For(item, root, rest, body) =>
      LookupIsRead(l, locals, root, rest);
      var found := Lookup(l, locals, root, rest).0;
      if Seen(found).Some? && lang.iterate(Seen(found).value).Some? {
        EachRendersAsOneMap(lang, partials, item, lang.iterate(Seen(found).value).value, body, l, locals, depth);
      }
    case ListContext =>
    case Include(name) =>
      if depth > 0 && name in partials && lang.parse(partials[name]).Some? {
        RendersAsOneMap(lang, partials, lang.parse(partials[name]).value, l, locals, depth - 1);
      }
  }

  lemma {:induction false} EachRendersAsOneMap(lang: Language, partials: map<string, string>, item: string, items: seq<Value>,
                                               body: Template, l: Layers, locals: map<string, Value>, depth: nat)
    requires OrdinaryObjects(lang)
    ensures TextOf(RenderEach(lang, partials, item, items, body, l, locals, depth))
         == EachText(lang, partials, item, items, body, l.base + l.overlay, locals, depth)
    decreases depth, body, |items| + 1
  {
    if items != [] {
      RendersAsOneMap(lang, partials, body, l, locals[item := items[0]], depth);
      EachRendersAsOneMap(lang, partials, item, items[1..], body, l, locals, depth);
    }
  }

  /* ---- What can be noted ---- */

  /** The reads that following a name can make. */
  function ReadsOf(root: string, rest: seq<string>): set<Dep> {
    if root != OBJECTS_KEY then {Key(root)}
    else if rest == [] then {Key(root), Everything}
    else {Key(root), Dep.Object(rest[0])}
  }

  /** The reads a template can make, through the partials it can reach. */
  function MayRead(lang: Language, partials: map<string, string>, t: Template, depth: nat): set<Dep>
    decreases depth, t, 0
  {
    match t
    case End => {}
    case Then(node, tail) => NodeMayRead(lang, partials, node, depth) + MayRead(lang, partials, tail, depth)
  }

  function NodeMayRead(lang: Language, partials: map<string, string>, node: Node, depth: nat): set<Dep>
    decreases depth, node, 0
  {
    match node
    case Text(_) => {}
    case Output(root, rest) => ReadsOf(root, rest)
    case If(root, rest, yes, no) => ReadsOf(root, rest) + MayRead(lang, partials, yes, depth) + MayRead(lang, partials, no, depth)
    case IfEmpty(root, rest, yes, no) => ReadsOf(root, rest) + MayRead(lang, partials, yes, depth) + MayRead(lang, partials, no, depth)
    case For(_, root, rest, body) => ReadsOf(root, rest) + MayRead(lang, partials, body, depth)
    case ListContext => {Everything}
    case Include(name) =>
      if depth == 0 || name !in partials || lang.parse(partials[name]).None? then {}
      else MayRead(lang, partials, lang.parse(partials[name]).value, depth - 1)
  }

  lemma {:induction false} PlainNotesNothing(found: Found, names: seq<string>)
    requires !found.ObjectsView?
    ensures IndexAll(found, names).1 == {} && !IndexAll(found, names).0.ObjectsView?
    decreases |names|
  {
    if names != [] {
      PlainNotesNothing(Index(found, names[0]).0, names[1..]);
    }
  }

  lemma LookupNotes(l: Layers, locals: map<string, Value>, root: string, rest: seq<string>)
    ensures Lookup(l, locals, root, rest).1 <= ReadsOf(root, rest)
    ensures Lookup(l, locals, root, rest).0.ObjectsView? ==> Everything in ReadsOf(root, rest)
    ensures root in locals || root in l.overlay ==> Lookup(l, locals, root, rest).1 == {}
  {
    var first := if root in locals then Plain(locals[root]) else Get(l, root).0;
    if !first.ObjectsView? {
      PlainNotesNothing(first, rest);
    } else if rest != [] {
      PlainNotesNothing(Index(first, rest[0]).0, rest[1..]);
    }
  }

  /** Nothing is noted that the template does not read: a page depends on a type, or on the whole
      context, only if it names it. */
  lemma {:induction false} NotesOnlyReads(lang: Language, partials: map<string, string>, t: Template, l: Layers,
                                          locals: map<string, Value>, depth: nat)
    ensures Render(lang, partials, t, l, locals, depth).noted <= MayRead(lang, partials, t, depth)
    decreases depth, t, 1
  {
    match t
    case End =>
    case Then(node, tail) =>
      NodeNotesOnlyReads(lang, partials, node, l, locals, depth);
      NotesOnlyReads(lang, partials, tail, l, locals, depth);
  }

  lemma {:induction false} NodeNotesOnlyReads(lang: Language, partials: map<string, string>, node: Node, l: Layers,
                                              locals: map<string, Value>, depth: nat)
    ensures RenderNode(lang, partials, node, l, locals, depth).noted <= NodeMayRead(lang, partials, node, depth)
    decreases depth, node, 1
  {
    hide Lookup, ReadsOf;
    match node
    case Text(_) =>
    case Output(root, rest) => LookupNotes(l, locals, root, rest);
    case If(root, rest, yes, no) =>
      LookupNotes(l, locals, root, rest);
      NotesOnlyReads(lang, partials, yes, l, locals, depth);
      NotesOnlyReads(lang, partials, no, l, locals, depth);
    case IfEmpty(root, rest, yes, no) =>
      LookupNotes(l, locals, root, rest);
      NotesOnlyReads(lang, partials, yes, l, locals, depth);
      NotesOnlyReads(lang, partials, no, l, locals, depth);
    case For(item, root, rest, body) =>
      LookupNotes(l, locals, root, rest);
      var found := Lookup(l, locals, root, rest).0;
      if Seen(found).Some? && lang.iterate(Seen(found).value).Some? {
        EachNotesOnlyReads(lang, partials, item, lang.iterate(Seen(found).value).value, body, l, locals, depth);
      }
    case ListContext =>
    case Include(name) =>
      if depth > 0 && name in partials && lang.parse(partials[name]).Some? {
        NotesOnlyReads(lang, partials, lang.parse(partials[name]).value, l, locals, depth - 1);
      }
  }

  lemma {:induction false} EachNotesOnlyReads(lang: Language, partials: map<string, string>, item: string, items: seq<Value>,
                                              body: Template, l: Layers, locals: map<string, Value>, depth: nat)
    ensures RenderEach(lang, partials, item, items, body, l, locals, depth).noted <= MayRead(lang, partials, body, depth)
    decreases depth, body, |items| + 1
  {
    if items != [] {
      NotesOnlyReads(lang, partials, body, l, locals[item := items[0]], depth);
      EachNotesOnlyReads(lang, partials, item, items[1..], body, l, locals, depth);
    }
  }

  /* ---- The shared context ---- */


  lemma {:induction false} PluralsHold(pluralize: Pluralize, entries: Entries, i: nat)
    requires i < |entries| && forall j | i < j < |entries| :: PluralOf(pluralize, entries[j]) != PluralOf(pluralize, entries[i])
    ensures PluralOf(pluralize, entries[i]) in ByPlural(pluralize, entries)
    ensures ByPlural(pluralize, entries)[PluralOf(pluralize, entries[i])] == EntryValue(entries[i].1)
    decreases |entries|
  {
    var n := |entries| - 1;
    if i < n {
      assert forall j | 0 <= j < n :: entries[..n][j] == entries[j];
      PluralsHold(pluralize, entries[..n], i);
    }
  }

  lemma {:induction false} NamesHold(entries: Entries, i: nat)
    requires i < |entries| && forall j | i < j < |entries| :: entries[j].0 != entries[i].0
    ensures entries[i].0 in ByName(entries) && ByName(entries)[entries[i].0] == EntryValue(entries[i].1)
    decreases |entries|
  {
    var n := |entries| - 1;
    if i < n {
      assert forall j | 0 <= j < n :: entries[..n][j] == entries[j];
      NamesHold(entries[..n], i);
    }
  }

  lemma {:induction false} NoOthers(pluralize: Pluralize, entries: Entries, key: string)
    ensures key in ByPlural(pluralize, entries) <==> exists i :: 0 <= i < |entries| && PluralOf(pluralize, entries[i]) == key
    ensures key in ByName(entries) <==> exists i :: 0 <= i < |entries| && entries[i].0 == key
  {
    if entries != [] {
      var n := |entries| - 1;
      NoOthers(pluralize, entries[..n], key);
      assert forall j | 0 <= j < n :: entries[..n][j] == entries[j];
    }
  }

  /** A template reads the site's url, each type under its plural, and each type under its own name
      in `objects`; a list as the objects in their order, a single object as itself. */
  lemma ContextHolds(pluralize: Pluralize, entries: Entries, siteUrl: string, i: nat)
    requires i < |entries| && forall j | i < j < |entries| :: entries[j].0 != entries[i].0
    ensures var context := BaseContext(pluralize, entries, siteUrl);
            && Read(context, "site_url", []) == Some(Scalar(siteUrl))
            && Read(context, "objects", [entries[i].0])
               == Some(if entries[i].1.List? then Array(LiquidObjects(EntryObjects(entries[i].1))) else LiquidObject(EntryObjects(entries[i].1)[0]))
    ensures var plural := pluralize(entries[i].0, entries[i].1.List?);
            plural !in {"site_url", "objects"} && (forall j | i < j < |entries| :: PluralOf(pluralize, entries[j]) != plural) ==>
              Read(BaseContext(pluralize, entries, siteUrl), plural, []) == Read(BaseContext(pluralize, entries, siteUrl), "objects", [entries[i].0])
  {
    NamesHold(entries, i);
    var plural := PluralOf(pluralize, entries[i]);
    assert "site_url" != "objects" by {
      assert |"site_url"| == 8 && |"objects"| == 7;
    }
    assert [entries[i].0][1..] == [];
    var context, v := BaseContext(pluralize, entries, siteUrl), EntryValue(entries[i].1);
    assert At(v, []) == Some(v);
    assert context["objects"] == Obj(ByName(entries));
    assert At(context["objects"], [entries[i].0]) == Some(v);
    assert v == if entries[i].1.List? then Array(LiquidObjects(EntryObjects(entries[i].1))) else LiquidObject(EntryObjects(entries[i].1)[0]);
    if forall j | i < j < |entries| :: PluralOf(pluralize, entries[j]) != plural {
      PluralsHold(pluralize, entries, i);
    }
  }

  /** An object carries its values, the path it is built to, and its order. */
  lemma ObjectHolds(o: Object, key: string)
    ensures At(LiquidObject(o), ["path"]) == Some(Scalar(o.objectName + "/" + o.filename))
    ensures At(LiquidObject(o), ["order"]) == Some(o.order)
    ensures key !in {"path", "order"} ==> At(LiquidObject(o), [key]) == if key in o.values then Some(o.values[key]) else None
  {
    assert |"path"| == 4 && |"order"| == 5;
    assert ["path"][1..] == [] && ["order"][1..] == [] && [key][1..] == [];
  }
}
