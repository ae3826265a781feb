/** Field types with their aliases, the rules a value is validated by, and the TOML form values
    are written to and read back from. */
module FieldValues {
  import opened Wrappers

  datatype FieldType =
    | StringType | SecretType | NumberType | DateType | MarkdownType | BooleanType
    | ImageType | VideoType | UploadType | AudioType | MetaType
    | EnumType(values: seq<string>)
    | OneofType(options: seq<OneofOption>)
    | Alias(of: FieldType, name: string)

  datatype OneofOption = OneofOption(name: string, fieldType: FieldType)

  datatype DisplayType = Image | Video | Audio | Download

  datatype File = File(displayType: DisplayType, filename: string, sha: string, mime: string, name: Option<string>, description: Option<string>)

  /** A number stands for a float; dates and meta values are opaque. */
  datatype FieldValue =
    | String(text: string) | Secret(text: string) | Enum(text: string) | Markdown(text: string)
    | Number(number: real) | Boolean(flag: bool)
    | Date(stamp: string) | Meta(content: string)
    | Upload(file: File)
    | Oneof(name: string, value: Option<FieldValue>)
    | Null

  datatype Toml =
    | Str(s: string) | Float(f: real) | Integer(i: int) | Bool(b: bool) | Datetime(stamp: string)
    | Array(items: seq<Toml>) | Table(entries: seq<Entry>)

  /** A table keeps its entries in the order they were written. */
  datatype Entry = Entry(key: string, value: Toml)

  function Last(entries: seq<Entry>, key: string): Option<Toml> {
    if entries == [] then None
    else if entries[|entries| - 1].key == key then Some(entries[|entries| - 1].value)
    else Last(entries[..|entries| - 1], key)
  }

  /** Conversions of dates and meta values, which are not modelled. */
  datatype Foreign = Foreign(
    dateToToml: string -> Toml, dateFromToml: Toml -> Option<string>,
    metaToToml: string -> seq<Entry>, metaFromToml: seq<Entry> -> string)

  /* ---- Types ---- */

  /** The built-in type at the end of an alias chain. */
  function BaseOf(t: FieldType): (base: FieldType)
    ensures !base.Alias?
  {
    if t.Alias? then BaseOf(t.of) else t
  }

  method BaseType(t: FieldType) returns (base: FieldType)
    ensures base == BaseOf(t)
  {
    base := t;
    while base.Alias?
      invariant BaseOf(base) == BaseOf(t)
      decreases base
    {
      base := base.of;
    }
  }

  function IsSecret(t: FieldType): bool {
    match t
    case SecretType => true
    case Alias(of, _) => IsSecret(of)
    case _ => false
  }

  /** A type is secret if and only if its base type is, however it is aliased. */
  lemma {:induction false} SecretThroughAliases(t: FieldType)
    ensures IsSecret(t) <==> BaseOf(t).SecretType?
  {
    if t.Alias? {
      SecretThroughAliases(t.of);
    }
  }

  /** Editor types: what each name is an alias of. */
  type EditorTypes = map<string, string>

  function BuiltIn(name: string): Option<FieldType> {
    match name
    case "string" => Some(StringType)
    case "secret" => Some(SecretType)
    case "number" => Some(NumberType)
    case "date" => Some(DateType)
    case "markdown" => Some(MarkdownType)
    case "boolean" => Some(BooleanType)
    case "image" => Some(ImageType)
    case "video" => Some(VideoType)
    case "audio" => Some(AudioType)
    case "upload" => Some(UploadType)
    case "meta" => Some(MetaType)
    case _ => None
  }

  /** Reading a type name recurses along the chain of aliases; `depth` is how many calls it gets. */
  datatype Parsed = Found(fieldType: FieldType) | Unrecognized | OutOfDepth

  function ParseType(name: string, types: EditorTypes, depth: nat): Parsed
    decreases depth
  {
    if BuiltIn(name).Some? then Found(BuiltIn(name).value)
    else if name !in types then Unrecognized
    else if depth == 0 then OutOfDepth
    else
      match ParseType(types[name], types, depth - 1)
      case Found(of) => Found(Alias(of, name))
      case other => other
  }

  /** The names a chain of aliases goes through. */
  function ChainEnd(name: string, types: EditorTypes, steps: nat): string
    decreases steps
  {
    if steps == 0 || BuiltIn(name).Some? || name !in types then name else ChainEnd(types[name], types, steps - 1)
  }

  /** A type that is found has as its base the built-in its chain ends in. */
  lemma {:induction false} FoundBase(name: string, types: EditorTypes, depth: nat)
    ensures ParseType(name, types, depth).Found? <==> BuiltIn(ChainEnd(name, types, depth)).Some?
    ensures ParseType(name, types, depth).Found? ==> BuiltIn(ChainEnd(name, types, depth)) == Some(BaseOf(ParseType(name, types, depth).fieldType))
    decreases depth
  {
    if BuiltIn(name).None? && name in types && depth > 0 {
      FoundBase(types[name], types, depth - 1);
    }
  }

  /** A name that leads back to itself is never read, however deep the reading goes. */
  lemma {:induction false} CyclicAliasNeverEnds(names: seq<string>, types: EditorTypes, k: nat, depth: nat)
    requires k < |names| && forall i | 0 <= i < |names| :: BuiltIn(names[i]).None? && names[i] in types
    requires forall i | 0 <= i < |names| :: types[names[i]] == names[if i + 1 < |names| then i + 1 else 0]
    ensures ParseType(names[k], types, depth).OutOfDepth?
    decreases depth
  {
    if depth > 0 {
      CyclicAliasNeverEnds(names, types, if k + 1 < |names| then k + 1 else 0, depth - 1);
    }
  }

  /** More depth changes nothing once the chain has ended. */
  lemma {:induction false} DepthIsEnough(name: string, types: EditorTypes, d: nat, e: nat)
    requires d <= e && !ParseType(name, types, d).OutOfDepth?
    ensures ParseType(name, types, e) == ParseType(name, types, d)
    decreases d
  {
    if BuiltIn(name).None? && name in types {
      DepthIsEnough(types[name], types, d - 1, e - 1);
    }
  }

  /** A chain that needs every one of `d` steps goes through `d` different editor types. */
  lemma {:induction false} NamesOnTheWay(name: string, types: EditorTypes, d: nat) returns (names: set<string>)
    requires !ParseType(name, types, d).OutOfDepth? && (d > 0 ==> ParseType(name, types, d - 1).OutOfDepth?)
    ensures names <= types.Keys && |names| == d
    ensures forall n | n in names :: !ParseType(n, types, d).OutOfDepth?
    decreases d
  {
    names := {};
    if d > 0 {
      var rest := NamesOnTheWay(types[name], types, d - 1);
      forall n | n in rest
        ensures !ParseType(n, types, d).OutOfDepth?
      {
        DepthIsEnough(n, types, d - 1, d);
      }
      assert name !in rest;
      names := rest + {name};
    }
  }

  lemma {:induction false} SubsetIsNoLarger(a: set<string>, b: set<string>)
    requires a <= b
    ensures |a| <= |b|
  {
    if a != {} {
      var x :| x in a;
      SubsetIsNoLarger(a - {x}, b - {x});
    }
  }

  /** A chain that ends at all ends within as many steps as there are editor types. */
  lemma {:induction false} EndsWithinTypes(name: string, types: EditorTypes, d: nat)
    requires !ParseType(name, types, d).OutOfDepth?
    ensures !ParseType(name, types, |types|).OutOfDepth?
    decreases d
  {
    if d > 0 && !ParseType(name, types, d - 1).OutOfDepth? {
      EndsWithinTypes(name, types, d - 1);
    } else {
      var names := NamesOnTheWay(name, types, d);
      SubsetIsNoLarger(names, types.Keys);
      DepthIsEnough(name, types, d, |types|);
    }
  }

  /** A name that is neither built in nor the end of its chain. */
  predicate StillAlias(name: string, types: EditorTypes) {
    BuiltIn(name).None? && name in types
  }

  lemma {:induction false} OutOfDepthOnAlias(name: string, types: EditorTypes, depth: nat)
    ensures ParseType(name, types, depth).OutOfDepth? <==> StillAlias(ChainEnd(name, types, depth), types)
    decreases depth
  {
    if StillAlias(name, types) && depth > 0 {
      OutOfDepthOnAlias(types[name], types, depth - 1);
    }
  }

  /** Reading a name never ends if and only if following its chain for as many steps as there
      are editor types still stands on an alias. */
  lemma NeverEndsIff(name: string, types: EditorTypes)
    ensures (forall d: nat :: ParseType(name, types, d).OutOfDepth?) <==> StillAlias(ChainEnd(name, types, |types|), types)
  {
    OutOfDepthOnAlias(name, types, |types|);
    if d: nat :| !ParseType(name, types, d).OutOfDepth? {
      EndsWithinTypes(name, types, d);
    }
  }

  /* ---- Validation ---- */

  datatype Invalid = TypeMismatch | InvalidEnumValue | InvalidFileType | InvalidOneofName | CannotValidateType | FailedValidation

  /** What an alias name's validators accept. */
  type Validators = (string, FieldValue) -> bool

  function CustomValidation(v: FieldValue, t: FieldType, custom: Validators): Result<(), Invalid> {
    if t.Alias? && !custom(t.name, v) then Err(FailedValidation) else Ok(())
  }

  function Accept(matches: bool): Result<(), Invalid> {
    if matches then Ok(()) else Err(TypeMismatch)
  }

  function FileField(d: DisplayType): FieldType {
    match d
    case Image => ImageType
    case Video => VideoType
    case Audio => AudioType
    case Download => UploadType
  }

  function ValidateType(v: FieldValue, t: FieldType): Result<(), Invalid> {
    match v
    case Enum(text) => if !t.EnumType? then Err(TypeMismatch) else if text in t.values then Ok(()) else Err(InvalidEnumValue)
    case String(_) => Accept(t.StringType?)
    case Secret(_) => Accept(t.SecretType?)
    case Markdown(_) => Accept(t.MarkdownType?)
    case Number(_) => Accept(t.NumberType?)
    case Date(_) => Accept(t.DateType?)
    case Boolean(_) => Accept(t.BooleanType?)
    case Upload(file) =>
      if !(t.AudioType? || t.ImageType? || t.VideoType? || t.UploadType?) then Err(TypeMismatch)
      else if t == FileField(file.displayType) then Ok(())
      else Err(InvalidFileType)
    case Meta(_) => Accept(t.MetaType?)
    case Null => Ok(())
    case Oneof(_, _) => Err(CannotValidateType)
  }

  function FindOption(options: seq<OneofOption>, name: string): Option<FieldType> {
    if options == [] then None
    else if options[0].name == name then Some(options[0].fieldType)
    else FindOption(options[1..], name)
  }

  function Validate(v: FieldValue, t: FieldType, custom: Validators): Result<(), Invalid> {
    if CustomValidation(v, t, custom).Err? then CustomValidation(v, t, custom)
    else
      var base := BaseOf(t);
      if !v.Oneof? then ValidateType(v, base)
      else if !base.OneofType? then Err(TypeMismatch)
      else
        match FindOption(base.options, v.name)
        case None => Err(InvalidOneofName)
        case Some(option) =>
          if v.value.None? then Ok(())
          else if CustomValidation(v.value.value, option, custom).Err? then CustomValidation(v.value.value, option, custom)
          else ValidateType(v.value.value, BaseOf(option))
  }

  /* ---- To TOML ---- */

  function DisplayName(d: DisplayType): string {
    match d
    case Image => "image"
    case Video => "video"
    case Audio => "audio"
    case Download => "upload"
  }

  function Optional(key: string, value: Option<string>): seq<Entry> {
    match value
    case Some(s) => [Entry(key, Str(s))]
    case None => []
  }

  function FileToToml(f: File): seq<Entry> {
    [Entry("display_type", Str(DisplayName(f.displayType))), Entry("filename", Str(f.filename)),
     Entry("sha", Str(f.sha)), Entry("mime", Str(f.mime))]
    + Optional("name", f.name) + Optional("description", f.description)
  }

  function OneofTable(name: string, inner: Option<Toml>): seq<Entry> {
    [Entry("type", Str(name))] + if inner.Some? then [Entry("value", inner.value)] else []
  }

  function ToToml(v: FieldValue, foreign: Foreign): Option<Toml> {
    match v
    case String(text) => Some(Str(text))
    case Secret(text) => Some(Str(text))
    case Enum(text) => Some(Str(text))
    case Markdown(text) => Some(Str(text))
    case Number(n) => Some(Float(n))
    case Boolean(b) => Some(Bool(b))
    case Date(stamp) => Some(foreign.dateToToml(stamp))
    case Meta(content) => Some(Table(foreign.metaToToml(content)))
    case Upload(file) => Some(Table(FileToToml(file)))
    case Oneof(name, value) =>
      var inner := if value.Some? then ToToml(value.value, foreign) else None;
      Some(Table(OneofTable(name, inner)))
    case Null => None
  }

  /* ---- From TOML ---- */

  datatype Unreadable = Mismatch | EnumMismatch | MissingField | InvalidDate | Panicked

  function EmptyFile(d: DisplayType): File {
    var mime := match d case Image => "image/*" case Video => "video/*" case Audio => "audio/*" case Download => "*/*";
    File(d, "", "", mime, None, None)
  }

  const FILE_KEYS := {"sha", "name", "description", "filename", "mime", "display_type"}

  function DisplayNamed(name: string): Option<DisplayType> {
    match name
    case "image" => Some(Image)
    case "video" => Some(Video)
    case "audio" => Some(Audio)
    case "upload" => Some(Download)
    case _ => None
  }

  /** One field set by its key; other keys are passed over, whatever they hold. */
  function FillField(f: File, key: string, value: Toml): Result<File, Unreadable> {
    if key !in FILE_KEYS then Ok(f)
    else if !value.Str? then Err(MissingField)
    else
      match key
      case "sha" => Ok(f.(sha := value.s))
      case "name" => Ok(f.(name := Some(value.s)))
      case "description" => Ok(f.(description := Some(value.s)))
      case "filename" => Ok(f.(filename := value.s))
      case "mime" => Ok(f.(mime := value.s))
      case _ => if DisplayNamed(value.s).Some? then Ok(f.(displayType := DisplayNamed(value.s).value)) else Err(Panicked)
  }

  predicate Readable(e: Entry) {
    e.key in FILE_KEYS ==> e.value.Str? && (e.key == "display_type" ==> DisplayNamed(e.value.s).Some?)
  }

  /** The entries set one after the other; the first that cannot be set ends it. */
  function FillAll(f: File, entries: seq<Entry>): Result<File, Unreadable> {
    if entries == [] then Ok(f)
    else
      var last := entries[|entries| - 1];
      match FillAll(f, entries[..|entries| - 1])
      case Ok(g) => FillField(g, last.key, last.value)
      case Err(e) => Err(e)
  }

  function TextOr(entries: seq<Entry>, key: string, otherwise: string): string {
    var found := Last(entries, key);
    if found.Some? && found.value.Str? then found.value.s else otherwise
  }

  function TextIn(entries: seq<Entry>, key: string, otherwise: Option<string>): Option<string> {
    var found := Last(entries, key);
    if found.Some? && found.value.Str? then Some(found.value.s) else otherwise
  }

  /** A file with each field a table names replaced. */
  function Filled(f: File, entries: seq<Entry>): File {
    var display := DisplayNamed(TextOr(entries, "display_type", ""));
    File(if display.Some? then display.value else f.displayType,
         TextOr(entries, "filename", f.filename), TextOr(entries, "sha", f.sha), TextOr(entries, "mime", f.mime),
         TextIn(entries, "name", f.name), TextIn(entries, "description", f.description))
  }

  function FromToml(t: FieldType, toml: Toml, foreign: Foreign): Result<FieldValue, Unreadable>
    decreases t
  {
    match t
    case StringType => if toml.Str? then Ok(String(toml.s)) else Err(Mismatch)
    case SecretType => if toml.Str? then Ok(Secret(toml.s)) else Err(Mismatch)
    case MarkdownType => if toml.Str? then Ok(Markdown(toml.s)) else Err(Mismatch)
    case EnumType(values) =>
      if !toml.Str? then Err(Mismatch) else if toml.s in values then Ok(Enum(toml.s)) else Err(EnumMismatch)
    case NumberType =>
      if toml.Float? then Ok(Number(toml.f)) else if toml.Integer? then Ok(Number(toml.i as real)) else Err(Mismatch)
    case BooleanType => if toml.Bool? then Ok(Boolean(toml.b)) else Err(Mismatch)
    case DateType =>
      if !toml.Datetime? && !toml.Str? then Err(Mismatch)
      else if foreign.dateFromToml(toml).Some? then Ok(Date(foreign.dateFromToml(toml).value)) else Err(InvalidDate)
    case MetaType => if toml.Table? then Ok(Meta(foreign.metaFromToml(toml.entries))) else Err(Mismatch)
    case ImageType => ReadUpload(Image, toml)
    case VideoType => ReadUpload(Video, toml)
    case AudioType => ReadUpload(Audio, toml)
    case UploadType => ReadUpload(Download, toml)
    case OneofType(options) =>
      if !toml.Table? || Last(toml.entries, "type").None? || !Last(toml.entries, "type").value.Str? then Err(Mismatch)
      else
        var name := Last(toml.entries, "type").value.s;
        if FindOption(options, name).None? then Err(Mismatch)
        else if Last(toml.entries, "value").None? then Ok(Oneof(name, None))
        else
          FoundAmong(options, name);
          var inner := FromToml(FindOption(options, name).value, Last(toml.entries, "value").value, foreign);
          if inner.Ok? then Ok(Oneof(name, Some(inner.value)))
          else if inner.error.Panicked? then Err(Panicked)
          else Err(Mismatch)
    case Alias(of, _) => FromToml(of, toml, foreign)
  }

  function ReadUpload(d: DisplayType, toml: Toml): Result<FieldValue, Unreadable> {
    if !toml.Table? then Err(Mismatch)
    else
      match FillAll(EmptyFile(d), toml.entries)
      case Ok(file) => Ok(Upload(file))
      case Err(e) => Err(e)
  }

  lemma {:induction false} FoundAmong(options: seq<OneofOption>, name: string)
    requires FindOption(options, name).Some?
    ensures exists k :: 0 <= k < |options| && options[k].name == name && options[k].fieldType == FindOption(options, name).value
  {
    if options[0].name != name {
      FoundAmong(options[1..], name);
      var k :| 0 <= k < |options[1..]| && options[1..][k].name == name && options[1..][k].fieldType == FindOption(options[1..], name).value;
      assert options[k + 1] == options[1..][k];
    }
  }

  /* ---- The round trip ---- */

  predicate HoldsForeign(v: FieldValue) {
    v.Date? || v.Meta? || (v.Oneof? && v.value.Some? && (v.value.value.Date? || v.value.value.Meta?))
  }

  lemma FillsNext(f: File, entries: seq<Entry>, e: Entry)
    ensures FillAll(f, entries + [e]) == if FillAll(f, entries).Err? then FillAll(f, entries) else FillField(FillAll(f, entries).value, e.key, e.value)
  {
    assert (entries + [e])[..|entries|] == entries;
  }

  lemma FillsOptional(f: File, entries: seq<Entry>, key: string, value: Option<string>)
    requires FillAll(f, entries).Ok?
    ensures FillAll(f, entries + Optional(key, value))
            == if value.None? then FillAll(f, entries) else FillField(FillAll(f, entries).value, key, Str(value.value))
  {
    if value.None? {
      assert entries + Optional(key, value) == entries;
    } else {
      FillsNext(f, entries, Entry(key, Str(value.value)));
    }
  }

  lemma FillsText(f: File, text: string)
    ensures FillField(f, "filename", Str(text)) == Ok(f.(filename := text))
    ensures FillField(f, "sha", Str(text)) == Ok(f.(sha := text))
    ensures FillField(f, "mime", Str(text)) == Ok(f.(mime := text))
    ensures FillField(f, "name", Str(text)) == Ok(f.(name := Some(text)))
    ensures FillField(f, "description", Str(text)) == Ok(f.(description := Some(text)))
  {
  }

  lemma FillsDisplay(f: File, d: DisplayType)
    ensures FillField(f, "display_type", Str(DisplayName(d))) == Ok(f.(displayType := d))
  {
    assert DisplayNamed(DisplayName(d)) == Some(d);
  }

  /** Filling goes on from where the first entries left it. */
  lemma {:induction false} FillsOn(f: File, entries: seq<Entry>, more: seq<Entry>)
    ensures FillAll(f, entries + more) == if FillAll(f, entries).Err? then FillAll(f, entries) else FillAll(FillAll(f, entries).value, more)
  {
    if more == [] {
      assert entries + more == entries;
    } else {
      FillsOn(f, entries, more[..|more| - 1]);
      assert entries + more == entries + more[..|more| - 1] + [more[|more| - 1]];
      FillsNext(f, entries + more[..|more| - 1], more[|more| - 1]);
    }
  }

  lemma FillsTwo(f: File, a: Entry, b: Entry)
    requires FillField(f, a.key, a.value).Ok?
    ensures FillAll(f, [a, b]) == FillField(FillField(f, a.key, a.value).value, b.key, b.value)
  {
    hide FillField;
    FillsNext(f, [], a);
    FillsNext(f, [a], b);
    assert [] + [a] == [a] && [a] + [b] == [a, b];
  }

  lemma FillsRequired(f: File, file: File)
    ensures FillAll(f, FileToToml(file)[..4]) == Ok(File(file.displayType, file.filename, file.sha, file.mime, f.name, f.description))
  {
    hide FillAll, FillField;
    var m := FileToToml(file);
    var g := f.(displayType := file.displayType);
    var h := g.(filename := file.filename);
    FillsDisplay(f, file.displayType);
    FillsText(g, file.filename);
    FillsTwo(f, m[0], m[1]);
    FillsText(h, file.sha);
    FillsText(h.(sha := file.sha), file.mime);
    FillsTwo(h, m[2], m[3]);
    FillsOn(f, [m[0], m[1]], [m[2], m[3]]);
    assert m[..4] == [m[0], m[1]] + [m[2], m[3]];
  }

  /** Whatever upload type it is read as, a file survives its table. */
  lemma FileReadsBack(file: File, d: DisplayType)
    ensures FillAll(EmptyFile(d), FileToToml(file)) == Ok(file)
  {
    hide FillAll, FillField;
    var f, m := EmptyFile(d), FileToToml(file);
    FillsRequired(f, file);
    var g := FillAll(f, m[..4]).value;
    FillsOptional(f, m[..4], "name", file.name);
    var named := m[..4] + Optional("name", file.name);
    if file.name.Some? {
      FillsText(g, file.name.value);
      g := g.(name := file.name);
    }
    FillsOptional(f, named, "description", file.description);
    if file.description.Some? {
      FillsText(g, file.description.value);
    }
    assert m == named + Optional("description", file.description);
  }

  lemma {:induction false} ReadThroughAliases(t: FieldType, toml: Toml, foreign: Foreign)
    ensures FromToml(t, toml, foreign) == FromToml(BaseOf(t), toml, foreign)
  {
    if t.Alias? {
      ReadThroughAliases(t.of, toml, foreign);
    }
  }

  /** What the type rules accept for a plain type reads back unchanged. */
  lemma PlainReadsBack(v: FieldValue, t: FieldType, foreign: Foreign)
    requires ValidateType(v, BaseOf(t)).Ok? && !v.Null? && !HoldsForeign(v)
    ensures ToToml(v, foreign).Some?
    ensures FromToml(t, ToToml(v, foreign).value, foreign) == Ok(v)
  {
    hide FillAll, FileToToml;
    ReadThroughAliases(t, ToToml(v, foreign).value, foreign);
    if v.Upload? {
      FileReadsBack(v.file, v.file.displayType);
    }
  }

  lemma OneofEntries(name: string, inner: Option<Toml>)
    ensures Last(OneofTable(name, inner), "type") == Some(Str(name))
    ensures Last(OneofTable(name, inner), "value") == inner
  {
    if inner.Some? {
      assert OneofTable(name, inner)[..1] == [Entry("type", Str(name))];
    }
  }

  /** Every value the type rules accept, through any chain of aliases, is read back unchanged
      from its TOML form, if and only if it holds no null. */
  lemma RoundTripIff(v: FieldValue, t: FieldType, custom: Validators, foreign: Foreign)
    requires Validate(v, t, custom).Ok? && !HoldsForeign(v)
    ensures ToToml(v, foreign).Some? && FromToml(t, ToToml(v, foreign).value, foreign) == Ok(v)
            <==> v != Null && !(v.Oneof? && v.value == Some(Null))
  {
    if v.Oneof? {
      var base := BaseOf(t);
      var toml := ToToml(v, foreign).value;
      ReadThroughAliases(t, toml, foreign);
      OneofEntries(v.name, if v.value.Some? then ToToml(v.value.value, foreign) else None);
      if v.value.Some? && !v.value.value.Null? {
        PlainReadsBack(v.value.value, FindOption(base.options, v.name).value, foreign);
      }
    } else if !v.Null? {
      PlainReadsBack(v, t, foreign);
    }
  }

  /* ---- The fill loop ---- */

  /** The place of the first entry that cannot be read. */
  predicate BreaksAt(entries: seq<Entry>, k: nat) {
    k < |entries| && !Readable(entries[k]) && forall j | 0 <= j < k :: Readable(entries[j])
  }

  /** A display type that is text, read before anything else goes wrong, and names none. */
  predicate NamesNoDisplay(entries: seq<Entry>) {
    exists k | 0 <= k < |entries| :: BreaksAt(entries, k) && entries[k].key == "display_type" && entries[k].value.Str?
  }

  /** Filling succeeds when every known key can be read; then the last entry of each key is
      what its field holds. */
  lemma {:induction false} FillAllIsFilled(f: File, entries: seq<Entry>)
    ensures FillAll(f, entries).Ok? <==> forall k | 0 <= k < |entries| :: Readable(entries[k])
    ensures FillAll(f, entries).Ok? ==> FillAll(f, entries).value == Filled(f, entries)
  {
    if entries != [] {
      var init, last := entries[..|entries| - 1], entries[|entries| - 1];
      FillAllIsFilled(f, init);
      assert forall k | 0 <= k < |init| :: entries[k] == init[k];
      if FillAll(f, init).Ok? {
        FillsIfReadable(FillAll(f, init).value, last);
        if Readable(last) {
          FillIsFilled(f, entries);
        }
      }
    }
  }

  lemma FillsIfReadable(f: File, e: Entry)
    ensures FillField(f, e.key, e.value).Ok? <==> Readable(e)
    ensures FillField(f, e.key, e.value) == Err(Panicked) <==> !Readable(e) && e.key == "display_type" && e.value.Str?
  {
  }

  lemma FillIsFilled(f: File, entries: seq<Entry>)
    requires entries != [] && Readable(entries[|entries| - 1])
    ensures FillField(Filled(f, entries[..|entries| - 1]), entries[|entries| - 1].key, entries[|entries| - 1].value) == Ok(Filled(f, entries))
  {
  }

  /** Filling panics if and only if the first entry it cannot read is a display type that is
      text and names none; an entry of another known key that is not text, met first, ends it
      with an error instead. */
  lemma {:induction false} FillPanicsIff(f: File, entries: seq<Entry>)
    ensures FillAll(f, entries) == Err(Panicked) <==> NamesNoDisplay(entries)
  {
    if entries != [] {
      var init, last := entries[..|entries| - 1], entries[|entries| - 1];
      FillPanicsIff(f, init);
      FillAllIsFilled(f, init);
      assert forall k | 0 <= k < |init| :: entries[k] == init[k];
      if FillAll(f, init).Ok? {
        FillsIfReadable(FillAll(f, init).value, last);
        assert !Readable(last) ==> BreaksAt(entries, |init|);
        assert forall k: nat | BreaksAt(entries, k) :: k == |init|;
      } else {
        assert forall k: nat :: BreaksAt(entries, k) ==> BreaksAt(init, k);
        assert forall k: nat :: BreaksAt(init, k) ==> BreaksAt(entries, k);
      }
    }
  }

  /** The table an upload is read from, behind any aliases and the options of any unions. */
  function UploadRead(t: FieldType, toml: Toml): Option<seq<Entry>>
    decreases t
  {
    match t
    case Alias(of, _) => UploadRead(of, toml)
    case OneofType(options) =>
      if !toml.Table? then None
      else
        var name, value := Last(toml.entries, "type"), Last(toml.entries, "value");
        if name.None? || !name.value.Str? || FindOption(options, name.value.s).None? || value.None? then None
        else
          FoundAmong(options, name.value.s);
          UploadRead(FindOption(options, name.value.s).value, value.value)
    case _ => if (t.ImageType? || t.VideoType? || t.AudioType? || t.UploadType?) && toml.Table? then Some(toml.entries) else None
  }

  /** Reading a value of any type panics if and only if it comes to an upload whose table
      names no display type. */
  lemma {:induction false} ReadPanicsIff(t: FieldType, toml: Toml, foreign: Foreign)
    ensures FromToml(t, toml, foreign) == Err(Panicked) <==> UploadRead(t, toml).Some? && NamesNoDisplay(UploadRead(t, toml).value)
    decreases t
  {
    hide FillAll, NamesNoDisplay, Last, FindOption;
    match t
    case Alias(of, _) => ReadPanicsIff(of, toml, foreign);
    case OneofType(options) =>
      if toml.Table? && Last(toml.entries, "type").Some? && Last(toml.entries, "type").value.Str? {
        var name := Last(toml.entries, "type").value.s;
        if FindOption(options, name).Some? && Last(toml.entries, "value").Some? {
          FoundAmong(options, name);
          ReadPanicsIff(FindOption(options, name).value, Last(toml.entries, "value").value, foreign);
        }
      }
    case ImageType => if toml.Table? { FillPanicsIff(EmptyFile(Image), toml.entries); }
    case VideoType => if toml.Table? { FillPanicsIff(EmptyFile(Video), toml.entries); }
    case AudioType => if toml.Table? { FillPanicsIff(EmptyFile(Audio), toml.entries); }
    case UploadType => if toml.Table? { FillPanicsIff(EmptyFile(Download), toml.entries); }
    case _ =>
  }

  /** The order of the keys decides between a panic and an error. */
  lemma UnknownDisplayTypePanics(d: DisplayType)
    ensures FillAll(EmptyFile(d), [Entry("display_type", Str("x")), Entry("sha", Integer(3))]) == Err(Panicked)
    ensures FillAll(EmptyFile(d), [Entry("sha", Integer(3)), Entry("display_type", Str("x"))]) == Err(MissingField)
  {
    var display, sha := Entry("display_type", Str("x")), Entry("sha", Integer(3));
    FillsNext(EmptyFile(d), [display], sha);
    FillsNext(EmptyFile(d), [sha], display);
    assert [display] + [sha] == [display, sha] && [sha] + [display] == [sha, display];
    FillsNext(EmptyFile(d), [], display);
    FillsNext(EmptyFile(d), [], sha);
  }

  lemma {:induction false} FailureStands(f: File, entries: seq<Entry>, k: nat)
    requires k <= |entries| && FillAll(f, entries[..k]).Err?
    ensures FillAll(f, entries) == FillAll(f, entries[..k])
  {
    if k == |entries| {
      assert entries[..k] == entries;
    } else {
      var init := entries[..|entries| - 1];
      assert init[..k] == entries[..k];
      FailureStands(f, init, k);
    }
  }

  method FillFromTomlMap(file: File, entries: seq<Entry>) returns (r: Result<File, Unreadable>)
    ensures r == FillAll(file, entries)
  {
    var f := file;
    for i := 0 to |entries|
      invariant FillAll(file, entries[..i]) == Ok(f)
    {
      assert entries[..i + 1] == entries[..i] + [entries[i]];
      FillsNext(file, entries[..i], entries[i]);
      var next := FillField(f, entries[i].key, entries[i].value);
      if next.Err? {
        FailureStands(file, entries, i + 1);
        return next;
      }
      f := next.value;
    }
    assert entries[..|entries|] == entries;
    r := Ok(f);
  }
}
