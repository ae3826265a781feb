/** The context of one build, the signatures built beside it, and when they are true of it. */
module Context {
  import opened Wrappers
  import opened Templates

  /** One object file, its fields already converted to template values. */
  datatype Object = Object(filename: string, objectName: string, order: Value, values: map<string, Value>)

  datatype Entry = List(objects: seq<Object>) | Root(object: Object)

  type Entries = seq<(string, Entry)>

  /** Names an object type in templates: plural for a list, singular for a root object. */
  type Pluralize = (string, bool) -> string

  const SITE_URL := "site_url"

  function UrlPath(o: Object): Value {
    Scalar(o.objectName + "/" + o.filename)
  }

  /** An object as a value: its own fields, overridden by its path and order. */
  function LiquidObject(o: Object): (v: Value)
    ensures v.Obj?
  {
    Obj(o.values["path" := UrlPath(o)]["order" := o.order])
  }

  function LiquidObjects(objects: seq<Object>): seq<Value> {
    seq(|objects|, i requires 0 <= i < |objects| => LiquidObject(objects[i]))
  }

  function EntryValue(entry: Entry): (v: Value)
    ensures !v.Scalar?
  {
    match entry
    case List(objects) => Array(LiquidObjects(objects))
    case Root(o) => LiquidObject(o)
  }

  function EntryObjects(entry: Entry): seq<Object> {
    match entry
    case List(objects) => objects
    case Root(o) => [o]
  }

  function PluralOf(pluralize: Pluralize, e: (string, Entry)): string {
    pluralize(e.0, e.1.List?)
  }

  /** Every entry under its template name; a later entry replaces an earlier one. */
  function ByPlural(pluralize: Pluralize, entries: Entries): map<string, Value> {
    if entries == [] then map[]
    else
      var last := entries[|entries| - 1];
      ByPlural(pluralize, entries[..|entries| - 1])[PluralOf(pluralize, last) := EntryValue(last.1)]
  }

  lemma {:induction false} ByPluralKeys(pluralize: Pluralize, entries: Entries, key: string)
    ensures key in ByPlural(pluralize, entries)
       <==> exists i :: 0 <= i < |entries| && PluralOf(pluralize, entries[i]) == key
    ensures key in ByPlural(pluralize, entries) ==> !ByPlural(pluralize, entries)[key].Scalar?
  {
    if entries != [] {
      var n := |entries| - 1;
      ByPluralKeys(pluralize, entries[..n], key);
      if i :| 0 <= i < n && PluralOf(pluralize, entries[..n][i]) == key {
        assert PluralOf(pluralize, entries[i]) == key;
      }
      if i :| 0 <= i < n && PluralOf(pluralize, entries[i]) == key {
        assert PluralOf(pluralize, entries[..n][i]) == key;
      }
    }
  }

  function ByName(entries: Entries): map<string, Value> {
    if entries == [] then map[]
    else
      var last := entries[|entries| - 1];
      ByName(entries[..|entries| - 1])[last.0 := EntryValue(last.1)]
  }

  function SignAll(m: map<string, Value>): map<string, Signature> {
    map key | key in m :: OfValue(m[key])
  }

  function SignEach(m: map<(string, string), Signature>, name: string, objects: seq<Object>):
      map<(string, string), Signature>
  {
    if objects == [] then m
    else
      var last := objects[|objects| - 1];
      SignEach(m, name, objects[..|objects| - 1])[(name, last.filename) := OfValue(LiquidObject(last))]
  }

  function PerObject(entries: Entries): map<(string, string), Signature> {
    if entries == [] then map[]
    else
      var last := entries[|entries| - 1];
      SignEach(PerObject(entries[..|entries| - 1]), last.0, EntryObjects(last.1))
  }

  function BaseContext(pluralize: Pluralize, entries: Entries, siteUrl: string): map<string, Value> {
    ByPlural(pluralize, entries)[SITE_URL := Scalar(siteUrl)][OBJECTS_KEY := Obj(ByName(entries))]
  }

  function SignaturesOf(pluralize: Pluralize, entries: Entries, siteUrl: string): ContextSignatures {
    var byPlural := SignAll(ByPlural(pluralize, entries));
    var withGlobals := if SITE_URL in byPlural then byPlural else byPlural[SITE_URL := OfValue(Scalar(siteUrl))];
    var objects := SignAll(ByName(entries));
    var keys := withGlobals[OBJECTS_KEY := OfObjects(objects)];
    ContextSignatures(keys, objects, PerObject(entries), OfKeys(keys))
  }

  /** No object type is named `site_url` in templates. */
  predicate NoSiteUrlType(pluralize: Pluralize, entries: Entries) {
    forall i | 0 <= i < |entries| :: PluralOf(pluralize, entries[i]) != SITE_URL
  }

  /** The signatures describe the context exactly when no object type takes the name
      `site_url`: the context then holds the global, but the key keeps the signature of
      the object type, because the globals are only signed where no key is signed yet. */
  lemma SignsIffNoSiteUrlType(pluralize: Pluralize, entries: Entries, siteUrl: string)
    ensures Signs(SignaturesOf(pluralize, entries, siteUrl), BaseContext(pluralize, entries, siteUrl))
       <==> NoSiteUrlType(pluralize, entries)
  {
    var s := SignaturesOf(pluralize, entries, siteUrl);
    var base := BaseContext(pluralize, entries, siteUrl);
    var byPlural := ByPlural(pluralize, entries);
    ByPluralKeys(pluralize, entries, SITE_URL);
    assert SITE_URL != OBJECTS_KEY;
    if SITE_URL in byPlural {
      assert s.keys[SITE_URL] == OfValue(byPlural[SITE_URL]);
    } else {
      assert s.keys.Keys == base.Keys;
    }
  }

  /** What goes wrong otherwise: a page printing `site_url` signs the same before and after
      the site moves, though what it prints does not. */
  lemma SiteUrlTypeHidesTheGlobal(pluralize: Pluralize, entries: Entries, lang: Language, before: string, after: string)
    requires !NoSiteUrlType(pluralize, entries)
    ensures var page := Then(Output(SITE_URL, []), End);
            var l := Layers(map[], BaseContext(pluralize, entries, before));
            var l' := Layers(map[], BaseContext(pluralize, entries, after));
            && Render(lang, map[], page, l, map[], 0) == Rendered(lang.show(Scalar(before)), {Key(SITE_URL)})
            && Render(lang, map[], page, l', map[], 0) == Rendered(lang.show(Scalar(after)), {Key(SITE_URL)})
            && Agree(SignaturesOf(pluralize, entries, before), SignaturesOf(pluralize, entries, after), Key(SITE_URL))
  {
    var page := Then(Output(SITE_URL, []), End);
    forall url ensures
      Render(lang, map[], page, Layers(map[], BaseContext(pluralize, entries, url)), map[], 0)
        == Rendered(lang.show(Scalar(url)), {Key(SITE_URL)})
    {
      var l := Layers(map[], BaseContext(pluralize, entries, url));
      assert SITE_URL != OBJECTS_KEY;
      assert Get(l, SITE_URL) == (Plain(Scalar(url)), {Key(SITE_URL)});
      var noted: set<Dep> := {};
      assert IndexAll(Plain(Scalar(url)), []) == (Plain(Scalar(url)), noted);
      assert {Key(SITE_URL)} + noted == {Key(SITE_URL)};
      assert Lookup(l, map[], SITE_URL, []) == (Plain(Scalar(url)), {Key(SITE_URL)});
      assert Render(lang, map[], End, l, map[], 0) == Rendered("", {});
      assert lang.show(Scalar(url)) + "" == lang.show(Scalar(url));
    }
    ByPluralKeys(pluralize, entries, SITE_URL);
  }

  /** An object is signed by its own value when no later object of its type shares its filename. */
  lemma {:induction false} SignEachFinds(m: map<(string, string), Signature>, name: string, objects: seq<Object>, i: nat)
    requires i < |objects|
    requires forall j | i < j < |objects| :: objects[j].filename != objects[i].filename
    ensures (name, objects[i].filename) in SignEach(m, name, objects)
    ensures SignEach(m, name, objects)[(name, objects[i].filename)] == OfValue(LiquidObject(objects[i]))
  {
    if i < |objects| - 1 {
      SignEachFinds(m, name, objects[..|objects| - 1], i);
    }
  }

  lemma {:induction false} SignEachKeeps(m: map<(string, string), Signature>, name: string, objects: seq<Object>,
                                         key: (string, string))
    requires key in m && key.0 != name
    ensures key in SignEach(m, name, objects) && SignEach(m, name, objects)[key] == m[key]
  {
    if objects != [] {
      SignEachKeeps(m, name, objects[..|objects| - 1], key);
    }
  }

  /** Object types are named once. */
  predicate DistinctNames(entries: Entries) {
    forall i, j | 0 <= i < j < |entries| :: entries[i].0 != entries[j].0
  }

  lemma {:induction false} PerObjectFinds(entries: Entries, n: nat, i: nat)
    requires DistinctNames(entries)
    requires n < |entries| && i < |EntryObjects(entries[n].1)|
    requires forall j | i < j < |EntryObjects(entries[n].1)| ::
      EntryObjects(entries[n].1)[j].filename != EntryObjects(entries[n].1)[i].filename
    ensures var key := (entries[n].0, EntryObjects(entries[n].1)[i].filename);
            && key in PerObject(entries)
            && PerObject(entries)[key] == OfValue(LiquidObject(EntryObjects(entries[n].1)[i]))
  {
    var init, last := entries[..|entries| - 1], entries[|entries| - 1];
    if n == |entries| - 1 {
      SignEachFinds(PerObject(init), last.0, EntryObjects(last.1), i);
    } else {
      assert init[n] == entries[n];
      PerObjectFinds(init, n, i);
      SignEachKeeps(PerObject(init), last.0, EntryObjects(last.1),
                    (entries[n].0, EntryObjects(entries[n].1)[i].filename));
    }
  }

  method SignMembers(before: map<(string, string), Signature>, name: string, members: seq<Object>)
    returns (perObject: map<(string, string), Signature>)
    ensures perObject == SignEach(before, name, members)
  {
    perObject := before;
    for i := 0 to |members|
      invariant perObject == SignEach(before, name, members[..i])
    {
      assert members[..i + 1][..i] == members[..i];
      perObject := perObject[(name, members[i].filename) := OfValue(LiquidObject(members[i]))];
    }
    assert members[..|members|] == members;
  }

  /** Builds both in one pass over the entries, then signs whatever the globals added. */
  method BuildContext(pluralize: Pluralize, entries: Entries, siteUrl: string)
    returns (context: map<string, Value>, signatures: ContextSignatures)
    ensures context == BaseContext(pluralize, entries, siteUrl)
    ensures signatures == SignaturesOf(pluralize, entries, siteUrl)
    ensures Signs(signatures, context) <==> NoSiteUrlType(pluralize, entries)
  {
    var objects: map<string, Value> := map[];
    var keys: map<string, Signature> := map[];
    var objectKeys: map<string, Signature> := map[];
    var perObject: map<(string, string), Signature> := map[];
    context := map[];
    for n := 0 to |entries|
      invariant context == ByPlural(pluralize, entries[..n]) && keys == SignAll(context)
      invariant objects == ByName(entries[..n]) && objectKeys == SignAll(objects)
      invariant perObject == PerObject(entries[..n])
    {
      assert entries[..n + 1][..n] == entries[..n];
      var (name, entry) := entries[n];
      perObject := SignMembers(perObject, name, EntryObjects(entry));
      var value := EntryValue(entry);
      objectKeys := objectKeys[name := OfValue(value)];
      keys := keys[PluralOf(pluralize, entries[n]) := OfValue(value)];
      objects := objects[name := value];
      context := context[PluralOf(pluralize, entries[n]) := value];
    }
    assert entries[..|entries|] == entries;
    context := context[SITE_URL := Scalar(siteUrl)];
    if SITE_URL !in keys {
      keys := keys[SITE_URL := OfValue(context[SITE_URL])];
    }
    keys := keys[OBJECTS_KEY := OfObjects(objectKeys)];
    context := context[OBJECTS_KEY := Obj(objects)];
    signatures := ContextSignatures(keys, objectKeys, perObject, OfKeys(keys));
    SignsIffNoSiteUrlType(pluralize, entries, siteUrl);
  }
}
