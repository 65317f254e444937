/**
 Field definitions written as a JSON Schema and read back from one
 (internal/cli/config.go, internal/config/jsonschema.go).
*/
module SchemaExport {
  import opened Text
  import Inheritance

  datatype Json =
    | Null
    | Bool(value: bool)
    | Str(text: string)
    | Number(token: string)
    | List(items: seq<Json>)
    | Obj(fields: Schema)

  type Schema = map<string, Json>

  datatype Field = Field(
    typ: string, refs: seq<string>, required: bool, repeated: bool, choices: seq<string>,
    properties: map<string, Field>, propertyOrder: seq<string>, description: string,
    format: string, pattern: string, default: Option<Json>, derived: bool)

  datatype Error =
    | Union | Malformed | MissingType | UnsupportedType | BadName
    | UnknownRequired | HasRef | BadRef | TooDeep

  function Strs(xs: seq<string>): (r: seq<Json>)
    ensures |r| == |xs| && forall i :: 0 <= i < |r| ==> r[i] == Str(xs[i])
  {
    seq(|xs|, i requires 0 <= i < |xs| => Str(xs[i]))
  }

  predicate IsSpace(c: char) {
    || c == ' ' || '\t' <= c <= '\r' || c == '\U{0085}' || c == '\U{00a0}' || c == '\U{1680}'
    || '\U{2000}' <= c <= '\U{200a}' || c == '\U{2028}' || c == '\U{2029}' || c == '\U{202f}'
    || c == '\U{205f}' || c == '\U{3000}'
  }

  function TrimLeft(s: string): string {
    if s != "" && IsSpace(s[0]) then TrimLeft(s[1..]) else s
  }

  function TrimRight(s: string): string {
    if s != "" && IsSpace(s[|s| - 1]) then TrimRight(s[..|s| - 1]) else s
  }

  function Trim(s: string): string {
    TrimRight(TrimLeft(s))
  }

  const Scalars := {"string", "integer", "number", "boolean"}

  function ReferenceLabel(f: Field): string {
    if f.refs == [] then f.typ else Join(f.refs, " | ")
  }

  // ---------- export ----------

  /** What the export writes before an array is put around it. */
  ghost predicate IsBaseSchema(f: Field, s: Schema)
    decreases f, 0
  {
    if f.typ in Scalars then s == map["type" := Str(f.typ)]
    else if f.typ == "enum" then
      s == if f.choices != [] then map["type" := Str("string"), "enum" := List(Strs(f.choices))]
          else map["type" := Str("string")]
    else if f.typ == "object" then IsObjectSchema(f, "", s)
    else |f.refs| <= 1 && s == map["type" := Str("string"), "x-reference-type" := Str(ReferenceLabel(f))]
  }

  /** The schema of an object with the field's properties; required names may come in any order and more than once. */
  ghost predicate IsObjectSchema(f: Field, description: string, s: Schema)
    decreases f, 0, 0
  {
    && "properties" in s && s["properties"].Obj? && s["properties"].fields.Keys == f.properties.Keys
    && s == ObjectSchema(s["properties"], description, if "required" in s then Some(s["required"]) else None)
    && ("required" in s <==> exists n :: n in f.properties && f.properties[n].required)
    && (forall n :: n in f.properties ==> IsPropertySchema(f.properties[n], s["properties"].fields[n]))
    && ("required" in s ==> ListsRequired(f.properties, s["required"]))
  }

  function Draft(): string {
    "https://json-schema.org/draft/2020-12/schema"
  }

  function ObjectSchema(properties: Json, description: string, required: Option<Json>): Schema {
    map["$schema" := Str(Draft()), "type" := Str("object"), "properties" := properties]
    + (if description != "" then map["description" := Str(description)] else map[])
    + (if required.Some? then map["required" := required.value] else map[])
  }

  ghost predicate ListsRequired(fields: map<string, Field>, v: Json) {
    && v.List? && (forall x :: x in v.items ==> x.Str?)
    && forall n :: Str(n) in v.items <==> n in fields && fields[n].required
  }

  function Decorated(f: Field, base: Schema): Schema {
    (if f.repeated then map["type" := Str("array"), "items" := Obj(base)] else base)
    + (if f.description != "" then map["description" := Str(f.description)] else map[])
    + (if f.derived then map["readOnly" := Bool(true)] else map[])
  }

  ghost predicate IsPropertySchema(f: Field, v: Json)
    decreases f, 1
  {
    v.Obj? && exists base :: IsBaseSchema(f, base) && v.fields == Decorated(f, base)
  }

  // ---------- import ----------

  function StringValue(s: Schema, key: string): string {
    if key in s && s[key].Str? then Trim(s[key].text) else ""
  }

  function Texts(items: seq<Json>): Result<seq<string>, Error> {
    if items == [] then Ok([])
    else if !items[0].Str? then Err(Malformed)
    else match Texts(items[1..]) case Err(e) => Err(e) case Ok(rest) => Ok([items[0].text] + rest)
  }

  /** The type names of a list, without null. */
  function TypeNames(items: seq<Json>): Result<seq<string>, Error> {
    if items == [] then Ok([])
    else if !items[0].Str? then Err(Malformed)
    else
      match TypeNames(items[1..])
      case Err(e) => Err(e)
      case Ok(rest) => Ok((if items[0].text == "null" then [] else [Trim(items[0].text)]) + rest)
  }

  function ExtractSchemaType(s: Schema): Result<string, Error> {
    if "type" !in s || s["type"] == Null then Ok("")
    else match s["type"]
      case Str(text) => Ok(Trim(text))
      case List(items) =>
        (match TypeNames(items)
         case Err(e) => Err(e)
         case Ok(names) => if names == [] then Ok("") else if |names| == 1 then Ok(names[0]) else Err(Malformed))
      case _ => Err(Malformed)
  }

  function ExtractEnum(s: Schema): Result<seq<string>, Error> {
    if "enum" !in s || s["enum"] == Null then Ok([])
    else if !s["enum"].List? then Err(Malformed)
    else Texts(s["enum"].items)
  }

  function HasReference(s: Schema): bool {
    "$ref" in s && s["$ref"].Str? && s["$ref"].text != ""
  }

  /** The choice that an option of a oneOf list stands for. */
  function OptionText(option: Schema): Result<string, Error> {
    if "const" in option && !option["const"].Str? then Err(Malformed)
    else
      var here := if "const" in option then Ok([option["const"].text]) else ExtractEnum(option);
      if here.Err? then Err(here.error) else if |here.value| == 1 then Ok(here.value[0]) else Err(Malformed)
  }

  function OneOfOptions(options: seq<Json>): Result<seq<string>, Error> {
    if options == [] then Ok([])
    else if !options[0].Obj? then Err(Malformed)
    else if HasReference(options[0].fields) then Err(HasRef)
    else match OptionText(options[0].fields)
      case Err(e) => Err(e)
      case Ok(text) => match OneOfOptions(options[1..]) case Err(e) => Err(e) case Ok(rest) => Ok([text] + rest)
  }

  function ExtractEnumFromOneOf(s: Schema): Result<seq<string>, Error> {
    if "oneOf" !in s || s["oneOf"] == Null then Ok([])
    else if !s["oneOf"].List? then Err(Malformed)
    else OneOfOptions(s["oneOf"].items)
  }

  function Elements(names: seq<string>): set<string> {
    set n | n in names
  }

  function RequiredSet(s: Schema): Result<set<string>, Error> {
    if "required" !in s || s["required"] == Null then Ok({})
    else if !s["required"].List? then Err(Malformed)
    else match Texts(s["required"].items)
      case Err(e) => Err(e)
      case Ok(names) => if "" in names then Err(Malformed) else Ok(Elements(names))
  }

  function Blank(s: Schema): Field {
    Field("", [], false, false, [], map[], [], StringValue(s, "description"), StringValue(s, "format"),
          StringValue(s, "pattern"), if "default" in s then Some(s["default"]) else None, false)
  }

  /** The choices of a field that is an enumeration in any of the three ways a schema can say so. */
  function Choices(s: Schema): Result<seq<string>, Error> {
    ChoicesFrom(s, ExtractEnumFromOneOf(s))
  }

  function ChoicesFrom(s: Schema, options: Result<seq<string>, Error>): Result<seq<string>, Error> {
    if options.Err? || options.value != [] then options
    else if "const" in s then (if s["const"].Str? then Ok([s["const"].text]) else Err(Malformed))
    else ExtractEnum(s)
  }

  lemma Inside(props: Schema, n: string)
    requires n in props && props[n].Obj?
    ensures Obj(props[n].fields) < Obj(props)
  {
    assert props[n] < Obj(props) && props[n] == Obj(props[n].fields);
  }

  /** A field from its schema, given what its choices, its properties and its items read as. */
  function FieldFrom(s: Schema, choices: Result<seq<string>, Error>, properties: Result<Properties, Error>,
                     item: Result<Field, Error>): Result<Field, Error>
  {
    match choices
    case Err(e) => Err(e)
    case Ok(choices) =>
      if choices != [] then Ok(Blank(s).(typ := "enum", choices := choices))
      else match ExtractSchemaType(s)
        case Err(e) => Err(e)
        case Ok(declared) =>
          var typ := if declared == "" && "properties" in s then "object" else declared;
          var target := StringValue(s, "x-reference-type");
          if target != "" then (if '|' in target then Err(Union) else Ok(Blank(s).(typ := target)))
          else if typ in Scalars then Ok(Blank(s).(typ := typ))
          else if typ == "object" then
            (match properties
             case Err(e) => Err(e)
             case Ok((fields, order)) => Ok(Blank(s).(typ := "object", properties := fields, propertyOrder := order)))
          else if typ == "array" then
            (match item
             case Err(e) => Err(e)
             case Ok(item) =>
               Ok(Blank(s).(typ := item.typ, format := item.format, choices := item.choices,
                            properties := item.properties,
                            propertyOrder := item.propertyOrder, pattern := item.pattern, repeated := true)))
          else if typ == "" then Err(MissingType)
          else Err(UnsupportedType)
  }

  type Properties = (map<string, Field>, seq<string>)

  function BuildField(s: Schema): Result<Field, Error>
    decreases Obj(s), 1
  {
    if HasReference(s) then Err(HasRef)
    else FieldFrom(s, Choices(s), BuildFields(s), BuildItem(s))
  }

  function BuildItem(s: Schema): Result<Field, Error>
    decreases Obj(s), 0
  {
    if "items" !in s || !s["items"].Obj? then Err(Malformed)
    else Inside(s, "items"); BuildField(s["items"].fields)
  }

  /** Properties in sorted order, given what each reads as. */
  function FieldsFrom(s: Schema, fields: Result<map<string, Field>, Error>): Result<Properties, Error> {
    if "properties" !in s || !s["properties"].Obj? then Err(Malformed)
    else match RequiredSet(s)
      case Err(e) => Err(e)
      case Ok(required) =>
        var props := s["properties"].fields;
        if props == map[] then Ok((map[], []))
        else match fields
          case Err(e) => Err(e)
          case Ok(fields) => if required <= fields.Keys then Ok((fields, SortedKeys(props.Keys)))
              else Err(UnknownRequired)
  }

  /** The properties that a schema declares, and which of them are required. */
  function Props(s: Schema): Schema {
    if "properties" in s && s["properties"].Obj? then s["properties"].fields else map[]
  }

  function Required(s: Schema): set<string> {
    match RequiredSet(s) case Ok(required) => required case Err(_) => {}
  }

  function BuildFields(s: Schema): Result<Properties, Error>
    decreases Obj(s), 0
  {
    if "properties" in s && s["properties"].Obj? then
      Inside(s, "properties");
      FieldsFrom(s, BuildNames(Props(s), SortedKeys(Props(s).Keys), Required(s)))
    else Err(Malformed)
  }

  /** One more property, given what it reads as. */
  function OneMore(fields: map<string, Field>, n: string, value: Json, required: set<string>,
                   field: Result<Field, Error>)
      : Result<map<string, Field>, Error>
  {
    if n == "" || !Inheritance.IsValidIdentifier(n) then Err(BadName)
    else if !value.Obj? then Err(Malformed)
    else match field
      case Err(e) => Err(e)
      case Ok(field) => Ok(fields[n := if n in required then field.(required := true) else field])
  }

  function BuildNames(props: Schema, names: seq<string>, required: set<string>): Result<map<string, Field>, Error>
    requires forall n :: n in names ==> n in props
    decreases Obj(props), 0, |names|
  {
    if names == [] then Ok(map[])
    else
      var n := names[|names| - 1];
      match BuildNames(props, names[..|names| - 1], required)
      case Err(e) => Err(e)
      case Ok(fields) =>
        OneMore(fields, n, props[n], required,
                if props[n].Obj? then Inside(props, n); BuildField(props[n].fields) else Err(Malformed))
  }

  /** A document describes an object, or says nothing of its type. */
  function ConvertObjectSchema(s: Schema): Result<Properties, Error> {
    if HasReference(s) then Err(HasRef)
    else match ExtractSchemaType(s)
      case Err(e) => Err(e)
      case Ok(typ) => if typ != "" && typ != "object" then Err(UnsupportedType) else BuildFields(s)
  }

  // ---------- what a round trip keeps ----------

  function KeptType(f: Field): string {
    if f.typ in Scalars || f.typ == "enum" || f.typ == "object" then f.typ else ReferenceLabel(f)
  }

  /** The parts that a schema carries; properties come back in sorted order. */
  function Kept(f: Field): Field {
    Field(KeptType(f), [], f.required, f.repeated, if f.typ == "enum" then f.choices else [],
          if f.typ == "object" then map n | n in f.properties :: Kept(f.properties[n]) else map[],
          if f.typ == "object" then SortedKeys(f.properties.Keys) else [], f.description, "", "", None, false)
  }

  ghost predicate BaseSurvives(f: Field)
    decreases f, 0
  {
    if f.typ in Scalars then true
    else if f.typ == "enum" then f.choices != []
    else if f.typ == "object" then forall n :: n in f.properties ==> NameSurvives(f, n)
    else ReferenceLabel(f) != "" && Trim(ReferenceLabel(f)) == ReferenceLabel(f) && '|' !in ReferenceLabel(f)
  }

  ghost predicate NameSurvives(f: Field, n: string)
    requires n in f.properties
    decreases f, 0, 0
  {
    Inheritance.IsValidIdentifier(n) && Survives(f.properties[n])
  }

  /** Enumerations have choices, reference labels and descriptions are trimmed, and property names are identifiers. */
  ghost predicate Survives(f: Field)
    decreases f, 1
  {
    Trim(f.description) == f.description && BaseSurvives(f)
  }

  /** What is read from the schema before the parent says that the field is required. */
  function Read(f: Field): Field {
    Kept(f).(required := false)
  }

  function ReadBase(f: Field): Field {
    Kept(f).(required := false, repeated := false, description := "")
  }

  // ---------- decorations ----------

  lemma {:induction false} StrsReadBack(xs: seq<string>)
    ensures Texts(Strs(xs)) == Ok(xs)
  {
    if xs != [] {
      StrsReadBack(xs[1..]);
      assert Strs(xs)[1..] == Strs(xs[1..]);
      assert [xs[0]] + xs[1..] == xs;
    }
  }

  /** The two schemas agree but for the keys that decorate a schema. */
  ghost predicate Alike(s: Schema, base: Schema) {
    forall k :: k !in {"description", "readOnly"} ==> (k in s <==> k in base) && (k in s ==> s[k] == base[k])
  }

  lemma AlikeChoices(s: Schema, base: Schema)
    requires Alike(s, base)
    ensures Choices(s) == Choices(base) && ExtractSchemaType(s) == ExtractSchemaType(base)
            && HasReference(s) == HasReference(base)
    ensures StringValue(s, "x-reference-type") == StringValue(base, "x-reference-type")
    ensures Blank(s) == Blank(base).(description := StringValue(s, "description"))
  {
    hide OneOfOptions, Texts, TypeNames, Trim;
    assert "oneOf" in s <==> "oneOf" in base;
    assert "enum" in s <==> "enum" in base;
    assert "const" in s <==> "const" in base;
    assert "default" in s <==> "default" in base;
    assert "format" in s <==> "format" in base;
    assert "pattern" in s <==> "pattern" in base;
  }

  lemma AlikeRequired(s: Schema, base: Schema)
    requires Alike(s, base)
    ensures RequiredSet(s) == RequiredSet(base)
  {
    hide Texts, Elements;
    assert "required" in s <==> "required" in base;
  }

  lemma AlikeFields(s: Schema, base: Schema)
    requires Alike(s, base)
    ensures BuildFields(s) == BuildFields(base)
  {
    AlikeRequired(s, base);
    assert "properties" in s <==> "properties" in base;
    hide RequiredSet, BuildNames, SortedKeys;
  }

  /** Nothing but the description is read from the keys that decorate a schema. */
  lemma DescriptionIsRead(s: Schema, base: Schema)
    requires Alike(s, base)
    ensures BuildField(s) ==
            match BuildField(base)
            case Err(e) => Err(e)
            case Ok(field) => Ok(field.(description := StringValue(s, "description")))
  {
    AlikeChoices(s, base);
    AlikeFields(s, base);
    assert "items" in s <==> "items" in base;
    assert "properties" in s <==> "properties" in base;
    hide Alike, Choices, ExtractSchemaType, HasReference, StringValue, Blank, BuildFields;
    if HasReference(base) || Choices(base).Err? || Choices(base).value != [] {
    } else if ExtractSchemaType(base).Err? || StringValue(base, "x-reference-type") != "" {
    } else {
      var typ := if ExtractSchemaType(base).value == "" && "properties" in base then "object"
          else ExtractSchemaType(base).value;
      if typ in Scalars {
      } else if typ == "object" {
      } else if typ == "array" {
      } else {
      }
    }
  }

  lemma TrimWords()
    ensures forall t :: t in Scalars + {"object", "array", ""} ==> Trim(t) == t
  {
    assert forall t :: t in Scalars + {"object", "array"} ==> t != "" && !IsSpace(t[0]) && !IsSpace(t[|t| - 1]);
  }

  lemma DecorationIsRead(f: Field, base: Schema)
    requires IsBaseSchema(f, base)
    ensures var r := BuildField(base);
            BuildField(Decorated(f, base)) ==
            if r.Err? then Err(r.error)
            else if f.repeated then
              var item := r.value;
              Ok(Blank(map[]).(typ := item.typ, format := item.format, choices := item.choices,
                               properties := item.properties,
                               propertyOrder := item.propertyOrder, pattern := item.pattern, repeated := true,
                               description := Trim(f.description)))
            else Ok(r.value.(description := Trim(f.description)))
  {
    var s := Decorated(f, base);
    var core := if f.repeated then map["type" := Str("array"), "items" := Obj(base)] else base;
    BaseIsBare(f, base);
    assert StringValue(s, "description") == Trim(f.description) by { TrimWords(); }
    assert Alike(s, core);
    DescriptionIsRead(s, core);
    if f.repeated { ArrayIsRead(base); }
  }

  lemma BaseIsBare(f: Field, base: Schema)
    requires IsBaseSchema(f, base)
    ensures base.Keys !! {"description", "readOnly"}
  {
  }

  // ---------- reading a schema that says little ----------

  lemma NoChoices(s: Schema)
    requires s.Keys !! {"oneOf", "const", "enum", "$ref"}
    ensures Choices(s) == Ok([]) && !HasReference(s)
  {
  }

  lemma TypeIs(s: Schema, t: string)
    requires "type" in s && s["type"] == Str(t) && t in Scalars + {"object", "array"}
    ensures ExtractSchemaType(s) == Ok(t)
  {
    TrimWords();
  }

  lemma BlankIs(s: Schema)
    requires s.Keys !! {"description", "format", "pattern", "default"}
    ensures Blank(s) == Blank(map[])
  {
  }

  /** A schema with a type and neither choices nor a reference. */
  lemma ReadsByType(s: Schema, t: string)
    requires Choices(s) == Ok([]) && !HasReference(s) && ExtractSchemaType(s) == Ok(t) && "x-reference-type" !in s
    requires t in Scalars + {"object", "array"}
    ensures t in Scalars ==> BuildField(s) == Ok(Blank(s).(typ := t))
    ensures t == "object" ==>
              BuildField(s) ==
              match BuildFields(s)
              case Err(e) => Err(e)
              case Ok((fields, order)) => Ok(Blank(s).(typ := "object", properties := fields, propertyOrder := order))
    ensures t == "array" && "items" in s && s["items"].Obj? ==>
              BuildField(s) ==
              match BuildField(s["items"].fields)
              case Err(e) => Err(e)
              case Ok(item) =>
                Ok(Blank(s).(typ := item.typ, format := item.format, choices := item.choices,
                             properties := item.properties,
                             propertyOrder := item.propertyOrder, pattern := item.pattern, repeated := true))
  {
    FieldByType(s, t, BuildFields(s), BuildItem(s));
    hide Choices, ExtractSchemaType, HasReference, Blank, StringValue, BuildFields, Trim, FieldFrom;
  }

  lemma FieldByType(s: Schema, t: string, properties: Result<Properties, Error>, item: Result<Field, Error>)
    requires ExtractSchemaType(s) == Ok(t) && "x-reference-type" !in s && t in Scalars + {"object", "array"}
    ensures var field := FieldFrom(s, Ok([]), properties, item);
            && (t in Scalars ==> field == Ok(Blank(s).(typ := t)))
            && (t == "object" ==> field == match properties
                  case Err(e) => Err(e)
                  case Ok((fields, order)) => Ok(Blank(s).(typ := "object", properties := fields,
                                                           propertyOrder := order)))
            && (t == "array" ==> field == match item
                  case Err(e) => Err(e)
                  case Ok(item) =>
                    Ok(Blank(s).(typ := item.typ, format := item.format, choices := item.choices,
                                 properties := item.properties,
                                 propertyOrder := item.propertyOrder, pattern := item.pattern, repeated := true)))
  {
    assert StringValue(s, "x-reference-type") == "" by { TrimWords(); }
    hide ExtractSchemaType, Blank, StringValue, Trim;
  }

  lemma ArrayIsRead(base: Schema)
    ensures var core := map["type" := Str("array"), "items" := Obj(base)];
            BuildField(core) ==
            match BuildField(base)
            case Err(e) => Err(e)
            case Ok(item) =>
              Ok(Blank(map[]).(typ := item.typ, format := item.format, choices := item.choices,
                               properties := item.properties,
                               propertyOrder := item.propertyOrder, pattern := item.pattern, repeated := true))
  {
    hide BuildField, Blank, Choices, ExtractSchemaType, HasReference;
    var core := map["type" := Str("array"), "items" := Obj(base)];
    NoChoices(core);
    TypeIs(core, "array");
    BlankIs(core);
    ReadsByType(core, "array");
  }

  // ---------- the round trip ----------

  lemma BaseForm(f: Field, s: Schema)
    requires IsBaseSchema(f, s) && f.typ != "object"
    ensures f.typ in Scalars ==> s == map["type" := Str(f.typ)]
    ensures f.typ == "enum" ==>
              s == if f.choices != [] then map["type" := Str("string"), "enum" := List(Strs(f.choices))]
                  else map["type" := Str("string")]
    ensures f.typ !in Scalars + {"enum"} ==>
            s == map["type" := Str("string"), "x-reference-type" := Str(ReferenceLabel(f))]
  {
    hide Strs, ReferenceLabel;
  }

  lemma ScalarReadsBack(f: Field, s: Schema)
    requires f.typ in Scalars && IsBaseSchema(f, s)
    ensures BuildField(s) == Ok(ReadBase(f))
  {
    BaseForm(f, s);
    hide BuildField, Choices, ExtractSchemaType, HasReference, IsBaseSchema;
    NoChoices(s);
    TypeIs(s, f.typ);
    BlankIs(s);
    ReadsByType(s, f.typ);
  }

  lemma EnumReadsBack(f: Field, s: Schema)
    requires f.typ == "enum" && IsBaseSchema(f, s)
    ensures BuildField(s) == Ok(ReadBase(f)) <==> f.choices != []
  {
    BaseForm(f, s);
    ReadBaseOfEnum(f);
    assert "string" in Scalars;
    hide *;
    BlankIs(s);
    if f.choices == [] {
      NoChoices(s);
      TypeIs(s, "string");
      ReadsByType(s, "string");
    } else {
      ChoicesAreRead(f.choices);
      ReadsChoices(s, f.choices);
    }
  }

  lemma ReadBaseOfEnum(f: Field)
    requires f.typ == "enum"
    ensures ReadBase(f) == Blank(map[]).(typ := "enum", choices := f.choices)
  {
    TrimWords();
  }

  lemma ReadsChoices(s: Schema, choices: seq<string>)
    requires Choices(s) == Ok(choices) && !HasReference(s) && choices != []
    ensures BuildField(s) == Ok(Blank(s).(typ := "enum", choices := choices))
  {
    hide Choices, ExtractSchemaType, HasReference, Blank, BuildFields;
  }

  lemma ChoicesAreRead(choices: seq<string>)
    requires choices != []
    ensures var s := map["type" := Str("string"), "enum" := List(Strs(choices))];
            Choices(s) == Ok(choices) && !HasReference(s)
  {
    StrsReadBack(choices);
  }

  lemma ReferenceReadsBack(f: Field, s: Schema)
    requires f.typ !in Scalars + {"enum", "object"} && IsBaseSchema(f, s)
    ensures BuildField(s) == Ok(ReadBase(f)) <==>
              ReferenceLabel(f) != "" && Trim(ReferenceLabel(f)) == ReferenceLabel(f) && '|' !in ReferenceLabel(f)
  {
    var text := ReferenceLabel(f);
    hide *;
    ReferenceKeys(f, s);
    NoChoices(s);
    TypeIs(s, "string");
    BlankIs(s);
    LabelIsRead(s, text);
    ReadBaseOfReference(f);
    LabelDecides(Blank(s), text, Trim(text));
  }

  lemma ReferenceKeys(f: Field, s: Schema)
    requires f.typ !in Scalars + {"enum", "object"} && IsBaseSchema(f, s)
    ensures s.Keys == {"type", "x-reference-type"} && s["type"] == Str("string")
            && s["x-reference-type"] == Str(ReferenceLabel(f))
    ensures "string" in Scalars + {"object", "array"} && Trim("string") == "string"
  {
    BaseForm(f, s);
    TrimWords();
    hide IsBaseSchema, ReferenceLabel, Trim;
  }

  lemma LabelDecides(field: Field, text: string, trimmed: string)
    requires text == "string" ==> trimmed == "string"
    ensures (if trimmed == "" then Ok(field.(typ := "string"))
             else if '|' in trimmed then Err(Union) else Ok(field.(typ := trimmed)))
            == Ok(field.(typ := text))
            <==> text != "" && trimmed == text && '|' !in text
  {
  }

  lemma ReadBaseOfReference(f: Field)
    requires f.typ !in Scalars + {"enum", "object"}
    ensures ReadBase(f) == Blank(map[]).(typ := ReferenceLabel(f))
    ensures Blank(map[]).typ == ""
  {
    TrimWords();
    hide ReferenceLabel;
  }

  lemma LabelIsRead(s: Schema, text: string)
    requires Choices(s) == Ok([]) && !HasReference(s) && ExtractSchemaType(s) == Ok("string")
    requires "x-reference-type" in s && s["x-reference-type"] == Str(text)
    ensures BuildField(s) ==
            if Trim(text) == "" then Ok(Blank(s).(typ := "string"))
            else if '|' in Trim(text) then Err(Union) else Ok(Blank(s).(typ := Trim(text)))
  {
    hide Choices, ExtractSchemaType, HasReference, Blank, BuildFields, Trim;
  }

  /** What the names read so far should give. */
  function KeptNames(fields: map<string, Field>, names: set<string>): map<string, Field>
    requires names <= fields.Keys
  {
    map n | n in names :: Kept(fields[n])
  }

  lemma RequiredReadsBack(f: Field, description: string, s: Schema)
    requires IsObjectSchema(f, description, s)
    ensures RequiredSet(s).Ok? <==> !("" in f.properties && f.properties[""].required)
    ensures RequiredSet(s).Ok? ==> RequiredSet(s).value == set n | n in f.properties && f.properties[n].required
  {
    hide IsPropertySchema;
    if "required" in s {
      TextsOfStrs(s["required"].items);
      var names := Texts(s["required"].items).value;
      assert forall n :: n in names <==> Str(n) in s["required"].items;
    }
  }

  lemma {:induction false} TextsOfStrs(items: seq<Json>)
    requires forall x :: x in items ==> x.Str?
    ensures Texts(items).Ok? && |Texts(items).value| == |items|
    ensures forall i :: 0 <= i < |items| ==> items[i] == Str(Texts(items).value[i])
    ensures forall n :: n in Texts(items).value <==> Str(n) in items
  {
    if items != [] {
      TextsOfStrs(items[1..]);
      assert items == [items[0]] + items[1..];
      assert Texts(items).value == [items[0].text] + Texts(items[1..]).value;
    }
  }

  /** Reading the names of an object gives what is kept of each exactly if each one survives. */
  lemma {:induction false} NamesReadBack(f: Field, props: Schema, names: seq<string>, required: set<string>)
    requires props.Keys == f.properties.Keys && Inheritance.Distinct(names) && forall n :: n in names ==> n in props
    requires forall n :: n in f.properties ==> IsPropertySchema(f.properties[n], props[n])
    requires forall n :: n in required <==> n in f.properties && f.properties[n].required
    ensures BuildNames(props, names, required) == Ok(KeptNames(f.properties, Elements(names))) <==>
              forall n :: n in names ==> NameSurvives(f, n)
    decreases f, 0, 0, |names|
  {
    if names == [] {
      assert KeptNames(f.properties, Elements(names)) == map[];
    } else {
      hide Survives, BuildField, BuildNames, KeptNames, Elements;
      var n := names[|names| - 1];
      var most := names[..|names| - 1];
      assert names == most + [n] && n !in most;
      NamesReadBack(f, props, most, required);
      PropertyReadsBack(f.properties[n], props[n].fields);
      assert Elements(most) <= f.properties.Keys && n !in Elements(most) && Elements(names) == Elements(most) + {n} by {
        ElementsStep(most, n);
      }
      NameReadsBack(f.properties, props, most, n, required, Elements(most));
    }
  }

  lemma ElementsStep(most: seq<string>, n: string)
    ensures Elements(most + [n]) == Elements(most) + {n} && forall m :: m in Elements(most) <==> m in most
  {
  }

  /** One more name: the listing is what is kept exactly if the shorter one was and the name's field is. */
  lemma NameReadsBack(fields: map<string, Field>, props: Schema, most: seq<string>, n: string, required: set<string>,
                      some: set<string>)
    requires n in props && props[n].Obj? && n in fields && (n in required <==> fields[n].required)
    requires some == Elements(most) && some <= fields.Keys && n !in some && forall m :: m in most ==> m in props
    ensures BuildNames(props, most + [n], required) == Ok(KeptNames(fields, some + {n})) <==>
              && BuildNames(props, most, required) == Ok(KeptNames(fields, some))
              && Inheritance.IsValidIdentifier(n) && BuildField(props[n].fields) == Ok(Read(fields[n]))
  {
    NamesStep(props, most, n, required);
    BuildNamesKeys(props, most, required);
    NeverRequired(props[n].fields);
    hide BuildField, Kept, BuildNames, KeptNames, Read, Elements;
    var before := BuildNames(props, most, required);
    var field := BuildField(props[n].fields);
    if before.Ok? && Inheritance.IsValidIdentifier(n) && field.Ok? {
      OnlyRequired(fields[n], field.value);
      AddedName(fields, some, n, before.value, if n in required then field.value.(required := true) else field.value);
    }
  }

  lemma NamesStep(props: Schema, most: seq<string>, n: string, required: set<string>)
    requires n in props && props[n].Obj? && forall m :: m in most ==> m in props
    ensures var before := BuildNames(props, most, required);
            var field := BuildField(props[n].fields);
            BuildNames(props, most + [n], required) ==
            if before.Err? then before
            else if n == "" || !Inheritance.IsValidIdentifier(n) then Err(BadName)
            else match field
              case Err(e) => Err(e)
              case Ok(read) => Ok(before.value[n := if n in required then read.(required := true) else read])
    ensures !Inheritance.IsValidIdentifier("")
  {
    hide BuildField;
    var names := most + [n];
    assert names[..|names| - 1] == most && names[|names| - 1] == n;
  }

  lemma OnlyRequired(f: Field, read: Field)
    requires !read.required
    ensures (if f.required then read.(required := true) else read) == Kept(f) <==> read == Read(f)
  {
    hide Kept;
    var kept := Kept(f);
    assert kept.required == f.required by { KeptParts(f); }
  }

  lemma KeptParts(f: Field)
    ensures Kept(f).required == f.required && Kept(f).repeated == f.repeated && Kept(f).description == f.description
  {
  }

  lemma NeverRequired(s: Schema)
    ensures BuildField(s).Ok? ==> !BuildField(s).value.required
  {
    hide Choices, ExtractSchemaType, StringValue, BuildFields;
  }

  lemma {:induction false} BuildNamesKeys(props: Schema, names: seq<string>, required: set<string>)
    requires forall n :: n in names ==> n in props
    ensures BuildNames(props, names, required).Ok? ==>
              BuildNames(props, names, required).value.Keys == Elements(names)
    decreases |names|
  {
    hide BuildField;
    if names != [] {
      var n := names[|names| - 1];
      BuildNamesKeys(props, names[..|names| - 1], required);
      var most := names[..|names| - 1];
      assert names == most + [n];
      assert Elements(names) == Elements(most) + {n};
    }
  }

  lemma AddedName(fields: map<string, Field>, some: set<string>, n: string, m: map<string, Field>, here: Field)
    requires some <= fields.Keys && n in fields && n !in some && m.Keys == some
    ensures m[n := here] == KeptNames(fields, some + {n}) <==> m == KeptNames(fields, some) && here == Kept(fields[n])
  {
    hide Kept;
    var all := KeptNames(fields, some + {n});
    var most := KeptNames(fields, some);
    if m[n := here] == all {
      assert here == all[n];
      forall k | k in some ensures m[k] == most[k] { assert m[n := here][k] == all[k]; }
    }
  }

  lemma ObjectReadsBack(f: Field, s: Schema)
    requires f.typ == "object" && IsBaseSchema(f, s)
    ensures BuildField(s) == Ok(ReadBase(f)) <==> BaseSurvives(f)
    decreases f, 1, 0
  {
    ObjectFieldsReadBack(f, "", s);
    ObjectIsRead(f, s);
    hide BuildField, BuildFields, IsBaseSchema, NameSurvives;
  }

  lemma ObjectIsRead(f: Field, s: Schema)
    requires f.typ == "object" && IsObjectSchema(f, "", s)
    ensures BuildFields(s) == Ok((KeptNames(f.properties, f.properties.Keys), SortedKeys(f.properties.Keys)))
            <==> BuildField(s) == Ok(ReadBase(f))
  {
    ObjectKeys(f, "", s);
    ObjectReads(s);
    ReadBaseOfObject(f);
    hide *;
    var kept := (KeptNames(f.properties, f.properties.Keys), SortedKeys(f.properties.Keys));
    var read := BuildFields(s);
    if read.Ok? && BuildField(s) == Ok(ReadBase(f)) {
      assert read.value == kept;
    }
  }

  lemma ObjectReads(s: Schema)
    requires s.Keys <= {"$schema", "type", "properties", "required"} && "type" in s && s["type"] == Str("object")
    ensures BuildField(s) ==
            match BuildFields(s)
            case Err(e) => Err(e)
            case Ok((fields, order)) => Ok(Blank(map[]).(typ := "object", properties := fields, propertyOrder := order))
  {
    hide BuildField, BuildFields, Choices, ExtractSchemaType, HasReference;
    NoChoices(s);
    TypeIs(s, "object");
    BlankIs(s);
    ReadsByType(s, "object");
  }

  lemma ReadBaseOfObject(f: Field)
    requires f.typ == "object"
    ensures ReadBase(f) == Blank(map[]).(typ := "object", properties := KeptNames(f.properties, f.properties.Keys),
                                         propertyOrder := SortedKeys(f.properties.Keys))
  {
    TrimWords();
    assert Kept(f).properties == KeptNames(f.properties, f.properties.Keys);
  }

  lemma ObjectKeys(f: Field, description: string, s: Schema)
    requires IsObjectSchema(f, description, s)
    ensures s.Keys <= {"$schema", "type", "properties", "required", "description"}
    ensures description == "" ==> "description" !in s
    ensures "type" in s && s["type"] == Str("object")
  {
    hide IsPropertySchema, ListsRequired, Draft;
  }

  /** An object's schema gives back its properties, sorted, exactly if every one of them survives. */
  lemma ObjectFieldsReadBack(f: Field, description: string, s: Schema)
    requires IsObjectSchema(f, description, s)
    ensures BuildFields(s) == Ok((KeptNames(f.properties, f.properties.Keys), SortedKeys(f.properties.Keys)))
            <==> forall n :: n in f.properties ==> NameSurvives(f, n)
    decreases f, 0, 1
  {
    RequiredReadsBack(f, description, s);
    var props := s["properties"].fields;
    assert props.Keys == f.properties.Keys && "properties" in s;
    if RequiredSet(s).Err? {
      assert !NameSurvives(f, "");
    } else if props == map[] {
      assert KeptNames(f.properties, f.properties.Keys) == map[];
      assert SortedKeys(f.properties.Keys) == [];
    } else {
      var required := RequiredSet(s).value;
      var names := SortedKeys(props.Keys);
      NamesAreDistinct(props.Keys);
      assert forall n :: n in f.properties ==> IsPropertySchema(f.properties[n], props[n]);
      hide IsObjectSchema;
      NamesReadBack(f, props, names, required);
      FieldsOfNames(f, s, required);
    }
  }

  lemma FieldsOfNames(f: Field, s: Schema, required: set<string>)
    requires "properties" in s && s["properties"].Obj? && s["properties"].fields != map[]
             && s["properties"].fields.Keys == f.properties.Keys
    requires RequiredSet(s) == Ok(required) && required <= f.properties.Keys
    ensures var props := s["properties"].fields;
            var names := SortedKeys(props.Keys);
            BuildFields(s) == Ok((KeptNames(f.properties, f.properties.Keys), names)) <==>
              BuildNames(props, names, required) == Ok(KeptNames(f.properties, Elements(names)))
  {
    var props := s["properties"].fields;
    var names := SortedKeys(props.Keys);
    BuildNamesKeys(props, names, required);
    assert Elements(names) == f.properties.Keys;
    hide BuildNames, RequiredSet, KeptNames;
  }

  lemma NamesAreDistinct(names: set<string>)
    ensures Inheritance.Distinct(SortedKeys(names))
  {
    hide Leq;
    var listed := SortedKeys(names);
    forall i, j | 0 <= i < j < |listed| ensures listed[i] != listed[j] { assert Less(listed[i], listed[j]); }
  }

  /** Nothing else is read from what the export writes before decorating it. */
  lemma BaseParts(f: Field, base: Schema)
    requires IsBaseSchema(f, base)
    ensures BuildField(base).Ok? ==>
              var read := BuildField(base).value;
              && read.refs == [] && !read.required && !read.repeated && read.description == "" && read.default == None
                  && !read.derived
  {
    BaseKeys(f, base);
    hide IsBaseSchema, Choices, StringValue, BuildFields, Trim, ExtractSchemaType, BuildField;
    TypeIs(base, base["type"].text);
    PartsOf(base);
    TrimWords();
  }

  lemma BaseKeys(f: Field, base: Schema)
    requires IsBaseSchema(f, base)
    ensures "default" !in base && "description" !in base && "type" in base && base["type"].Str?
            && base["type"].text in Scalars + {"object"}
  {
    hide IsPropertySchema, ListsRequired;
  }

  lemma PartsOf(base: Schema)
    requires "default" !in base && "description" !in base && ExtractSchemaType(base).Ok?
             && ExtractSchemaType(base).value in Scalars + {"object"}
    ensures BuildField(base).Ok? ==>
              var read := BuildField(base).value;
              && read.refs == [] && !read.required && !read.repeated && read.description == "" && read.default == None
                  && !read.derived
  {
    assert Blank(base).description == "" && Blank(base).default == None by { TrimWords(); }
    hide Choices, ExtractSchemaType, StringValue, BuildFields, Trim;
  }

  /** A property's schema gives back what is kept of it, but for the required mark, exactly if it survives. */
  lemma PropertyReadsBack(f: Field, s: Schema)
    requires IsPropertySchema(f, Obj(s))
    ensures BuildField(s) == Ok(Read(f)) <==> Survives(f)
    decreases f, 2
  {
    var base :| IsBaseSchema(f, base) && Obj(s).fields == Decorated(f, base);
    BaseReadsBack(f, base);
    DecorationIsRead(f, base);
    BaseParts(f, base);
    KeptParts(f);
    assert Read(f) == ReadBase(f).(repeated := f.repeated, description := f.description);
    hide IsBaseSchema, BuildField, Kept, BaseSurvives, Trim, Decorated;
    if BuildField(base).Ok? {
      assert ReadBase(f).refs == [] && ReadBase(f).default == None && !ReadBase(f).derived && ReadBase(f).format == ""
             && ReadBase(f).pattern == "";
    }
  }

  lemma BaseReadsBack(f: Field, s: Schema)
    requires IsBaseSchema(f, s)
    ensures BuildField(s) == Ok(ReadBase(f)) <==> BaseSurvives(f)
    decreases f, 1, 1
  {
    if f.typ in Scalars {
      ScalarReadsBack(f, s);
    } else if f.typ == "enum" {
      EnumReadsBack(f, s);
    } else if f.typ == "object" {
      ObjectReadsBack(f, s);
    } else {
      ReferenceReadsBack(f, s);
    }
  }

  /**
   Reading an exported document gives what is kept of every field, to every depth and in sorted order,
   exactly if every field survives.
  */
  lemma DocumentReadsBack(f: Field, description: string, s: Schema)
    requires IsObjectSchema(f, description, s)
    ensures ConvertObjectSchema(s) == Ok((KeptNames(f.properties, f.properties.Keys), SortedKeys(f.properties.Keys)))
            <==> forall n :: n in f.properties ==> NameSurvives(f, n)
  {
    hide *;
    ObjectFieldsReadBack(f, description, s);
    ObjectKeys(f, description, s);
    DocumentIsObject(s);
  }

  lemma DocumentIsObject(s: Schema)
    requires "$ref" !in s && "type" in s && s["type"] == Str("object")
    ensures ConvertObjectSchema(s) == BuildFields(s)
  {
    TypeIs(s, "object");
    hide BuildFields, ExtractSchemaType;
  }

  /** An enumeration without choices comes back as plain text. */
  lemma EmptyEnumIsText(f: Field, s: Schema)
    requires f.typ == "enum" && f.choices == [] && !f.repeated && Trim(f.description) == f.description
    requires IsPropertySchema(f, Obj(s))
    ensures BuildField(s) == Ok(Read(f.(typ := "string")))
  {
    var base :| IsBaseSchema(f, base) && Obj(s).fields == Decorated(f, base);
    var g := f.(typ := "string");
    assert IsBaseSchema(g, base) && Decorated(g, base) == Decorated(f, base);
    assert IsPropertySchema(g, Obj(s));
    PropertyReadsBack(g, s);
  }

  // ---------- the exporter ----------

  predicate HasUnion(f: Field) {
    if f.typ in Scalars || f.typ == "enum" then false
    else if f.typ == "object" then exists n :: n in f.properties && HasUnion(f.properties[n])
    else |f.refs| > 1
  }

  /** What is written for a field before its description, and before an array is put around it. */
  method BaseSchema(f: Field) returns (r: Result<Schema, Error>)
    ensures r.Ok? <==> !HasUnion(f)
    ensures r.Ok? ==> IsBaseSchema(f, r.value)
    decreases f, 1
  {
    if f.typ in Scalars {
      return Ok(map["type" := Str(f.typ)]);
    }
    if f.typ == "enum" {
      var prop := map["type" := Str("string")];
      if |f.choices| > 0 {
        prop := prop["enum" := List(Strs(f.choices))];
      }
      return Ok(prop);
    }
    if f.typ == "object" {
      r := BuildJSONSchema(f, "");
      return;
    }
    if |f.refs| > 1 { return Err(Union); }
    return Ok(map["type" := Str("string"), "x-reference-type" := Str(ReferenceLabel(f))]);
  }

  method Decorate(f: Field, base: Schema) returns (prop: Schema)
    ensures prop == Decorated(f, base)
  {
    prop := base;
    if f.repeated {
      prop := map["type" := Str("array"), "items" := Obj(prop)];
    }
    if f.description != "" {
      prop := prop["description" := Str(f.description)];
    }
    if f.derived {
      prop := prop["readOnly" := Bool(true)];
    }
  }

  /** A field can be exported exactly if no reference in it is a union. */
  method AppendFieldSchema(f: Field) returns (r: Result<Schema, Error>)
    ensures r.Ok? <==> !HasUnion(f)
    ensures r.Ok? ==> IsPropertySchema(f, Obj(r.value))
    decreases f, 2
  {
    var base := BaseSchema(f);
    if base.Err? { return base; }
    var prop := Decorate(f, base.value);
    hide IsBaseSchema, HasUnion, Decorated;
    assert Obj(prop).fields == Decorated(f, base.value);
    return Ok(prop);
  }

  /** One more property, which the required list names if it is required. */
  method AddProperty(f: Field, name: string, properties: Schema, required: seq<string>)
      returns (r: Result<(Schema, seq<string>), Error>)
    requires name in f.properties && Built(f, properties, required)
    ensures r.Ok? <==> !HasUnion(f.properties[name])
    ensures r.Ok? ==> Built(f, r.value.0, r.value.1) && r.value.0.Keys == properties.Keys + {name}
    decreases f, 0, 0
  {
    hide IsPropertySchema, HasUnion;
    var prop := AppendFieldSchema(f.properties[name]);
    if prop.Err? { return Err(prop.error); }
    return Ok((properties[name := Obj(prop.value)],
               if f.properties[name].required then required + [name] else required));
  }

  /** The properties in their order, then any that the order leaves out. */
  method AddProperties(f: Field) returns (r: Result<(Schema, seq<string>), Error>)
    ensures r.Ok? <==> forall n :: n in f.properties ==> !HasUnion(f.properties[n])
    ensures r.Ok? ==> Built(f, r.value.0, r.value.1) && r.value.0.Keys == f.properties.Keys
    decreases f, 0, 2
  {
    hide Built, HasUnion;
    var properties: Schema := map[];
    var required: seq<string> := [];
    assert Built(f, properties, required) by { NothingBuilt(f); }
    for i := 0 to |f.propertyOrder|
      invariant Built(f, properties, required) && properties.Keys <= f.properties.Keys
    {
      var name := f.propertyOrder[i];
      if name !in f.properties { continue; }
      var more := AddProperty(f, name, properties, required);
      if more.Err? { return more; }
      properties, required := more.value.0, more.value.1;
    }
    r := AddOthers(f, properties, required);
  }

  /** The properties not added yet, in any order. */
  method AddOthers(f: Field, some: Schema, names: seq<string>) returns (r: Result<(Schema, seq<string>), Error>)
    requires Built(f, some, names)
    ensures r.Ok? <==> forall n :: n in f.properties ==> !HasUnion(f.properties[n])
    ensures r.Ok? ==> Built(f, r.value.0, r.value.1) && r.value.0.Keys == f.properties.Keys
    decreases f, 0, 1
  {
    BuiltIsWithin(f, some, names);
    hide Built, HasUnion, Missing;
    var properties, required := some, names;
    var todo := Missing(f, properties);
    while todo != {}
      invariant Built(f, properties, required) && todo == Missing(f, properties)
      invariant properties.Keys <= f.properties.Keys
      decreases |todo|
    {
      var name :| name in todo;
      assert name in f.properties by { MissingStep(f, properties, name); }
      var more := AddProperty(f, name, properties, required);
      if more.Err? { return more; }
      MissingStep(f, properties, name);
      MissingOf(f, properties, more.value.0, name);
      properties, required := more.value.0, more.value.1;
      todo := todo - {name};
    }
    NothingMissing(f, properties);
    BuiltHasNoUnion(f, properties, required);
    return Ok((properties, required));
  }

  /** The properties that are still to be exported. */
  function Missing(f: Field, properties: Schema): set<string> {
    f.properties.Keys - properties.Keys
  }

  lemma MissingStep(f: Field, properties: Schema, name: string)
    requires name in Missing(f, properties)
    ensures name in f.properties
  {
  }

  lemma MissingOf(f: Field, properties: Schema, more: Schema, name: string)
    requires more.Keys == properties.Keys + {name}
    ensures Missing(f, more) == Missing(f, properties) - {name}
  {
  }

  lemma NothingMissing(f: Field, properties: Schema)
    requires Missing(f, properties) == {} && properties.Keys <= f.properties.Keys
    ensures properties.Keys == f.properties.Keys
  {
    forall n | n in f.properties ensures n in properties {
      assert n !in Missing(f, properties);
    }
  }

  lemma BuiltIsWithin(f: Field, properties: Schema, required: seq<string>)
    requires Built(f, properties, required)
    ensures properties.Keys <= f.properties.Keys
  {
  }

  lemma NothingBuilt(f: Field)
    ensures Built(f, map[], [])
  {
  }

  lemma BuiltHasNoUnion(f: Field, properties: Schema, required: seq<string>)
    requires Built(f, properties, required)
    ensures forall n :: n in properties ==> !HasUnion(f.properties[n])
  {
    hide HasUnion, IsPropertySchema;
  }

  method BuildJSONSchema(f: Field, description: string) returns (r: Result<Schema, Error>)
    ensures r.Ok? <==> forall n :: n in f.properties ==> !HasUnion(f.properties[n])
    ensures r.Ok? ==> IsObjectSchema(f, description, r.value)
    decreases f, 0, 3
  {
    hide HasUnion, IsObjectSchema;
    var built := AddProperties(f);
    if built.Err? { return Err(built.error); }
    var properties, required := built.value.0, built.value.1;
    BuiltIsSchema(f, description, properties, required);
    r := Ok(Assemble(properties, description, required));
    assert r.value == ObjectSchema(Obj(properties), description,
                                   if required != [] then Some(List(Strs(required))) else None);
  }

  function Assemble(properties: Schema, description: string, required: seq<string>): (schema: Schema)
    ensures schema == ObjectSchema(Obj(properties), description,
                                   if required != [] then Some(List(Strs(required))) else None)
  {
    hide Draft;
    var base: Schema := map["$schema" := Str(Draft()), "type" := Str("object"), "properties" := Obj(properties)];
    var described := if description != "" then base["description" := Str(description)] else base;
    if |required| > 0 then described["required" := List(Strs(required))] else described
  }

  /** The properties exported so far, and the required ones among them. */
  ghost predicate Built(f: Field, properties: Schema, required: seq<string>) {
    && properties.Keys <= f.properties.Keys
    && (forall n :: n in properties ==> IsPropertySchema(f.properties[n], properties[n]) && !HasUnion(f.properties[n]))
    && (forall n :: n in required <==> n in properties && f.properties[n].required)
  }

  lemma RequiredIsListed(f: Field, properties: Schema, required: seq<string>)
    requires Built(f, properties, required) && properties.Keys == f.properties.Keys
    ensures ListsRequired(f.properties, List(Strs(required)))
    ensures required != [] <==> exists n :: n in f.properties && f.properties[n].required
  {
    hide IsPropertySchema, HasUnion;
    var items := Strs(required);
    forall n ensures Str(n) in items <==> n in required {
      if n in required { var i :| 0 <= i < |required| && required[i] == n; assert items[i] == Str(n); }
    }
    if required != [] { assert required[0] in required; }
  }

  lemma BuiltIsSchema(f: Field, description: string, properties: Schema, required: seq<string>)
    requires Built(f, properties, required) && properties.Keys == f.properties.Keys
    ensures IsObjectSchema(f, description,
                           ObjectSchema(Obj(properties), description,
                                        if required != [] then Some(List(Strs(required))) else None))
  {
    RequiredIsListed(f, properties, required);
    var list := if required != [] then Some(List(Strs(required))) else None;
    ObjectSchemaKeys(Obj(properties), description, list);
    hide IsPropertySchema, HasUnion, ListsRequired, Strs, ObjectSchema;
  }

  lemma ObjectSchemaKeys(properties: Json, description: string, required: Option<Json>)
    ensures var s := ObjectSchema(properties, description, required);
            && "properties" in s && s["properties"] == properties
            && ("required" in s <==> required.Some?) && (required.Some? ==> s["required"] == required.value)
  {
    hide Draft;
  }
}
