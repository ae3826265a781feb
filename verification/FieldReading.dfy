/** What reading a value from TOML and validating one come to, type by type. */
module FieldReadings {
  import opened Wrappers
  import opened FieldValues

  /* ---- Type names ---- */

  /** How a built-in type that has a name of its own is written. */
  function TypeName(t: FieldType): Option<string> {
    match t
    case StringType => Some("string")
    case SecretType => Some("secret")
    case NumberType => Some("number")
    case DateType => Some("date")
    case MarkdownType => Some("markdown")
    case BooleanType => Some("boolean")
    case ImageType => Some("image")
    case VideoType => Some("video")
    case AudioType => Some("audio")
    case UploadType => Some("upload")
    case MetaType => Some("meta")
    case _ => None
  }

  /** A name is built in exactly when it is how some type is written, and reads as that type. */
  lemma BuiltInIsWritten(name: string, t: FieldType)
    ensures BuiltIn(name) == Some(t) <==> TypeName(t) == Some(name)
  {
  }

  /* ---- Plain values ---- */

  /** A type whose values are read from a single TOML value and depend on no table. */
  predicate IsScalar(base: FieldType) {
    base.StringType? || base.SecretType? || base.MarkdownType? || base.EnumType? || base.NumberType? || base.BooleanType?
  }

  /** Through any aliases, a plain type reads exactly the values it accepts, from exactly what they
      are written as; a number is read from an integer as well. */
  lemma ScalarReadsIff(t: FieldType, toml: Toml, v: FieldValue, foreign: Foreign)
    requires IsScalar(BaseOf(t))
    ensures FromToml(t, toml, foreign) == Ok(v) <==>
            && v != Null && ValidateType(v, BaseOf(t)).Ok?
            && (ToToml(v, foreign) == Some(toml) || (v.Number? && toml.Integer? && v.number == toml.i as real))
  {
    hide FindOption, FillAll, FileToToml;
    ReadThroughAliases(t, toml, foreign);
  }

  /** An integer is read as the number it is, just as a float of the same value is. */
  lemma IntegerReadsAsNumber(t: FieldType, i: int, foreign: Foreign)
    requires BaseOf(t).NumberType?
    ensures FromToml(t, Integer(i), foreign) == Ok(Number(i as real))
    ensures FromToml(t, Integer(i), foreign) == FromToml(t, Float(i as real), foreign)
  {
    ReadThroughAliases(t, Integer(i), foreign);
    ReadThroughAliases(t, Float(i as real), foreign);
  }

  /** An enumeration turns away a text it does not list by its own error, and anything else as a
      mismatch; the other plain types know only the mismatch. */
  lemma ScalarErrors(t: FieldType, toml: Toml, foreign: Foreign)
    requires IsScalar(BaseOf(t)) && FromToml(t, toml, foreign).Err?
    ensures FromToml(t, toml, foreign).error == if BaseOf(t).EnumType? && toml.Str? then EnumMismatch else Mismatch
  {
    ReadThroughAliases(t, toml, foreign);
  }

  /** Dates are read from a datetime or a text, meta values from a table, by their own conversions. */
  lemma ForeignReads(t: FieldType, toml: Toml, foreign: Foreign)
    ensures BaseOf(t).DateType? ==>
              forall stamp :: FromToml(t, toml, foreign) == Ok(Date(stamp)) <==>
                              (toml.Datetime? || toml.Str?) && foreign.dateFromToml(toml) == Some(stamp)
    ensures BaseOf(t).MetaType? ==>
              forall content :: FromToml(t, toml, foreign) == Ok(Meta(content)) <==>
                                toml.Table? && foreign.metaFromToml(toml.entries) == content
  {
    ReadThroughAliases(t, toml, foreign);
  }

  /* ---- Uploads ---- */

  predicate IsUpload(base: FieldType) {
    base.ImageType? || base.VideoType? || base.AudioType? || base.UploadType?
  }

  /** An empty table reads as an empty file of its own type, which that type accepts. */
  lemma EmptyTableReads(t: FieldType, foreign: Foreign)
    requires IsUpload(BaseOf(t))
    ensures FromToml(t, Table([]), foreign).Ok? && FromToml(t, Table([]), foreign).value.Upload?
    ensures ValidateType(FromToml(t, Table([]), foreign).value, BaseOf(t)).Ok?
    ensures var file := FromToml(t, Table([]), foreign).value.file;
            && file.filename == "" && file.sha == "" && file.name.None? && file.description.None?
            && file.mime == if BaseOf(t).ImageType? then "image/*" else if BaseOf(t).VideoType? then "video/*"
                            else if BaseOf(t).AudioType? then "audio/*" else "*/*"
  {
    ReadThroughAliases(t, Table([]), foreign);
  }

  /** A table that names no display type leaves the one its field is for, and fills in the rest. */
  lemma TableReads(t: FieldType, entries: seq<Entry>, foreign: Foreign)
    requires IsUpload(BaseOf(t)) && FromToml(t, Table(entries), foreign).Ok?
    ensures FromToml(t, Table([]), foreign).Ok? && FromToml(t, Table([]), foreign).value.Upload?
    ensures FromToml(t, Table(entries), foreign).value
         == Upload(Filled(FromToml(t, Table([]), foreign).value.file, entries))
  {
    EmptyTableReads(t, foreign);
    ReadThroughAliases(t, Table([]), foreign);
    ReadThroughAliases(t, Table(entries), foreign);
    var file := FromToml(t, Table([]), foreign).value.file;
    hide ValidateType, Filled;
    FillAllIsFilled(file, entries);
  }

  /* ---- Unions ---- */

  predicate FirstNamed(options: seq<OneofOption>, name: string, k: nat) {
    k < |options| && options[k].name == name && forall j | 0 <= j < k :: options[j].name != name
  }

  /** Of several options with one name the first is meant. */
  lemma {:induction false} FoundIsFirst(options: seq<OneofOption>, name: string, k: nat)
    requires FirstNamed(options, name, k)
    ensures FindOption(options, name) == Some(options[k].fieldType)
  {
    if k > 0 {
      assert options[0].name != name;
      assert forall j | 0 <= j < k :: options[1..][j] == options[j + 1];
      FoundIsFirst(options[1..], name, k - 1);
    }
  }

  lemma {:induction false} FoundOnlyIfNamed(options: seq<OneofOption>, name: string)
    ensures FindOption(options, name).Some? <==> exists k :: 0 <= k < |options| && options[k].name == name
  {
    if options != [] {
      FoundOnlyIfNamed(options[1..], name);
      assert forall j | 0 <= j < |options| - 1 :: options[1..][j] == options[j + 1];
      if k :| 0 <= k < |options| && options[k].name == name {
        assert k > 0 ==> options[1..][k - 1].name == name;
      }
    }
  }

  /** A union reads a table whose `type` names an option, with the value its own type reads, or
      with none where the table has none. */
  lemma OneofReadsIff(t: FieldType, toml: Toml, v: FieldValue, foreign: Foreign)
    requires BaseOf(t).OneofType?
    ensures FromToml(t, toml, foreign) == Ok(v) <==>
            && v.Oneof? && toml.Table? && Last(toml.entries, "type") == Some(Str(v.name))
            && var option, value := FindOption(BaseOf(t).options, v.name), Last(toml.entries, "value");
               && option.Some? && (value.Some? <==> v.value.Some?)
               && (value.Some? ==> FromToml(option.value, value.value, foreign) == Ok(v.value.value))
  {
    ReadThroughAliases(t, toml, foreign);
    hide FindOption, Last;
  }

  /* ---- Validation ---- */

  /** A plain value is accepted by a plain type exactly when that type reads it back. */
  lemma AcceptedIsReadBack(v: FieldValue, t: FieldType, foreign: Foreign)
    requires IsScalar(BaseOf(t)) && v != Null && ToToml(v, foreign).Some? && !v.Oneof?
    ensures ValidateType(v, BaseOf(t)).Ok? <==> FromToml(t, ToToml(v, foreign).value, foreign) == Ok(v)
  {
    ScalarReadsIff(t, ToToml(v, foreign).value, v, foreign);
  }

  /** The validators an alias names. */
  predicate Approves(custom: Validators, t: FieldType, v: FieldValue) {
    t.Alias? ==> custom(t.name, v)
  }

  /** Validation asks the validators of the outermost alias, then the type behind all of them; for
      a union's value it asks both again of the option its name picks. */
  lemma ValidateOkIff(v: FieldValue, t: FieldType, custom: Validators)
    ensures Validate(v, t, custom).Ok? <==>
            && Approves(custom, t, v)
            && if !v.Oneof? then ValidateType(v, BaseOf(t)).Ok?
               else
                 && BaseOf(t).OneofType? && FindOption(BaseOf(t).options, v.name).Some?
                 && var option := FindOption(BaseOf(t).options, v.name).value;
                    v.value.Some? ==> Approves(custom, option, v.value.value) && ValidateType(v.value.value, BaseOf(option)).Ok?
  {
    hide FindOption;
  }

  /** What the validators turn away is reported as theirs, whatever else is wrong. */
  lemma ValidatorsComeFirst(v: FieldValue, t: FieldType, custom: Validators)
    ensures !Approves(custom, t, v) ==> Validate(v, t, custom) == Err(FailedValidation)
    ensures !v.Oneof? && Validate(v, t, custom) == Err(FailedValidation) ==> !Approves(custom, t, v)
  {
    hide FindOption;
  }

  /** Null is accepted everywhere; an upload by the one type that is for it. */
  lemma NullAndUploads(v: FieldValue, t: FieldType)
    ensures ValidateType(Null, t).Ok?
    ensures v.Upload? && IsUpload(t) ==>
              (ValidateType(v, t).Ok? <==> TypeName(t) == Some(DisplayName(v.file.displayType)))
    ensures v.Upload? && !IsUpload(t) ==> ValidateType(v, t) == Err(TypeMismatch)
  {
  }
}
