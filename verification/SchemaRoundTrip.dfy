/**
 A field written out with all that a schema can say of it comes back from the importer as it was
 (internal/config/jsonschema.go).
*/
module SchemaRoundTrip {
  import opened Text
  import Inheritance
  import opened SchemaExport
  import opened SchemaImport
  import JsonPointer

  // ---------- writing everything ----------

  function Marks(f: Field): set<string> {
    set n | n in f.properties && f.properties[n].required
  }

  function RequiredNames(f: Field): seq<string> {
    SortedKeys(Marks(f))
  }

  function PropertiesOf(f: Field, names: seq<string>): map<string, Field>
    requires forall n :: n in names ==> n in f.properties
  {
    map n | n in names :: f.properties[n]
  }

  /** The schema of one value of the field: its type and what goes with it. */
  function Core(f: Field): Schema
    decreases f, 0
  {
    if f.typ in {"string", "integer", "number", "boolean"} then map["type" := Str(f.typ)]
    else if f.typ == "enum" then map["type" := Str("string"), "enum" := List(Strs(f.choices))]
    else if f.typ == "object" then
      map["type" := Str("object"), "properties" := Obj(Parts(f)), "required" := List(Strs(RequiredNames(f)))]
    else map["type" := Str("string"), "x-reference-type" := Str(f.typ)]
  }

  function Parts(f: Field): Schema
    decreases f, 0, 0
  {
    map n | n in f.properties :: Obj(Full(f.properties[n]))
  }

  /** With its format and its pattern. */
  function Marked(f: Field): Schema
    decreases f, 1
  {
    Core(f)["format" := Str(f.format)]["pattern" := Str(f.pattern)]
  }

  /** The whole schema: an array of such values if the field is repeated, with its description and its default. */
  function Full(f: Field): Schema
    decreases f, 2
  {
    var s := if f.repeated then map["type" := Str("array"), "items" := Obj(Marked(f))] else Marked(f);
    var described := s["description" := Str(f.description)];
    if f.default.Some? then described["default" := f.default.value] else described
  }

  /** A field that a schema can say in full: texts are trimmed, names are identifiers, and nothing is superfluous. */
  ghost predicate Tidy(f: Field) {
    && Trim(f.description) == f.description && Trim(f.format) == f.format && Trim(f.pattern) == f.pattern
    && f.refs == [] && !f.derived && (f.typ == "enum" <==> f.choices != [])
    && (f.typ != "object" ==> f.properties == map[] && f.propertyOrder == [])
    && (f.typ == "object" ==> f.propertyOrder == SortedKeys(f.properties.Keys)
                              && forall n :: n in f.properties ==>
                                  Inheritance.IsValidIdentifier(n) && Tidy(f.properties[n]))
    && (f.typ !in {"string", "integer", "number", "boolean", "enum", "object"} ==>
          f.typ != "" && Trim(f.typ) == f.typ && '|' !in f.typ)
  }

  // ---------- reading it back ----------

  /** What the texts and the default of a schema say. */
  ghost predicate Says(s: Schema, description: string, format: string, pattern: string, default: Option<Json>) {
    && (if "description" in s then s["description"] == Str(description) else description == "")
    && (if "format" in s then s["format"] == Str(format) else format == "")
    && (if "pattern" in s then s["pattern"] == Str(pattern) else pattern == "")
    && (if "default" in s then default == Some(s["default"]) else default == None)
    && Trim(description) == description && Trim(format) == format && Trim(pattern) == pattern
  }

  lemma BlankSays(s: Schema, description: string, format: string, pattern: string, default: Option<Json>)
    requires Says(s, description, format, pattern, default)
    ensures Blank(s) == Field("", [], false, false, [], map[], [], description, format, pattern, default, false)
  {
    hide Trim;
  }

  /** The kind of a schema: what the importer looks at besides the texts. */
  ghost predicate Kind(f: Field, s: Schema) {
    forall k ::
      k in {"type", "enum", "properties", "required", "x-reference-type"} + {"oneOf", "const", "$ref", "items"} ==>
      (k in s <==> k in Core(f)) && (k in s ==> s[k] == Core(f)[k])
  }

  /** One value of the field reads back with the texts its schema says. */
  lemma {:induction false} KindReadsBack(f: Field, s: Schema, d: string, format: string, pattern: string,
                                         default: Option<Json>)
    requires Tidy(f) && Kind(f, s) && Says(s, d, format, pattern, default)
    ensures BuildField(s) == Ok(Field(f.typ, [], false, false, f.choices, f.properties, f.propertyOrder, d, format,
                                      pattern, default, false))
    decreases f, 3
  {
    hide *;
    BlankSays(s, d, format, pattern, default);
    if f.typ == "object" {
      TidyObject(f);
      PartsReadBack(f, f.propertyOrder);
      AllProperties(f);
      ObjectKind(f, s);
    } else {
      PlainKind(f, s);
    }
  }

  lemma PlainKind(f: Field, s: Schema)
    requires Tidy(f) && f.typ != "object" && Kind(f, s)
    ensures BuildField(s) == Ok(Blank(s).(typ := f.typ, choices := f.choices))
    ensures f.properties == map[] && f.propertyOrder == []
    ensures Blank(s).choices == []
  {
    TidyPlain(f);
    BlankHasNoChoices(s);
    assert "enum" !in Scalars && Scalars + {"enum", "object"} == Scalars + {"enum"} + {"object"};
    hide Tidy, Kind, BuildField, Trim, Blank;
    if f.typ in Scalars {
      ScalarKind(f, s);
    } else if f.typ == "enum" {
      EnumKind(f, s);
    } else {
      ReferenceKind(f, s);
    }
  }

  lemma TidyPlain(f: Field)
    requires Tidy(f) && f.typ != "object"
    ensures (f.typ == "enum" <==> f.choices != []) && f.properties == map[] && f.propertyOrder == []
  {
    hide Trim;
  }

  lemma BlankHasNoChoices(s: Schema)
    ensures Blank(s).choices == []
  {
  }

  lemma AllProperties(f: Field)
    requires f.propertyOrder == SortedKeys(f.properties.Keys)
    ensures (forall n :: n in f.propertyOrder ==> n in f.properties) && PropertiesOf(f, f.propertyOrder) == f.properties
  {
  }

  lemma TidyObject(f: Field)
    requires Tidy(f) && f.typ == "object"
    ensures f.choices == [] && f.propertyOrder == SortedKeys(f.properties.Keys)
    ensures forall n :: n in f.properties ==> n != "" && Inheritance.IsValidIdentifier(n) && Tidy(f.properties[n])
    ensures "" !in f.properties && forall n :: n in f.propertyOrder ==> n in f.properties
  {
    hide Trim;
  }

  lemma ScalarKind(f: Field, s: Schema)
    requires f.typ in Scalars && Kind(f, s)
    ensures BuildField(s) == Ok(Blank(s).(typ := f.typ))
  {
    assert s.Keys !! {"oneOf", "const", "enum", "$ref", "x-reference-type"} && "type" in s && s["type"] == Str(f.typ);
    hide *;
    NoChoices(s);
    TypeIs(s, f.typ);
    ReadsByType(s, f.typ);
  }

  lemma EnumKind(f: Field, s: Schema)
    requires f.typ == "enum" && f.choices != [] && Kind(f, s)
    ensures BuildField(s) == Ok(Blank(s).(typ := "enum", choices := f.choices))
  {
    StrsReadBack(f.choices);
    assert Choices(s) == Ok(f.choices) && !HasReference(s);
    hide *;
    ReadsChoices(s, f.choices);
  }

  lemma ReferenceKeys(f: Field, s: Schema)
    requires f.typ !in Scalars + {"enum", "object"} && Kind(f, s)
    ensures s.Keys !! {"oneOf", "const", "enum", "$ref"} && "type" in s && s["type"] == Str("string")
    ensures "x-reference-type" in s && s["x-reference-type"] == Str(f.typ)
    ensures "string" in Scalars + {"object", "array"}
  {
    hide Parts, Strs, RequiredNames;
    assert Core(f) == map["type" := Str("string"), "x-reference-type" := Str(f.typ)];
  }

  lemma TidyName(f: Field)
    requires Tidy(f) && f.typ !in Scalars + {"enum", "object"}
    ensures f.typ != "" && Trim(f.typ) == f.typ && '|' !in f.typ
  {
    hide Trim;
  }

  lemma ReferenceKind(f: Field, s: Schema)
    requires Tidy(f) && f.typ !in Scalars + {"enum", "object"} && Kind(f, s)
    ensures BuildField(s) == Ok(Blank(s).(typ := f.typ))
  {
    ReferenceKeys(f, s);
    TidyName(f);
    hide *;
    NoChoices(s);
    TypeIs(s, "string");
    LabelIsRead(s, f.typ);
  }

  lemma ObjectKind(f: Field, s: Schema)
    requires f.typ == "object" && Kind(f, s) && f.propertyOrder == SortedKeys(f.properties.Keys)
    requires BuildNames(Parts(f), f.propertyOrder, Marks(f)) == Ok(f.properties) && "" !in f.properties
    ensures BuildField(s) == Ok(Blank(s).(typ := "object", properties := f.properties,
                                          propertyOrder := f.propertyOrder))
  {
    ObjectKeysOf(f, s);
    hide *;
    ObjectReads(f, s);
    NoChoices(s);
    TypeIs(s, "object");
    ReadsByType(s, "object");
  }

  lemma ObjectKeysOf(f: Field, s: Schema)
    requires f.typ == "object" && Kind(f, s)
    ensures s.Keys !! {"oneOf", "const", "enum", "$ref", "x-reference-type"} && "type" in s
            && s["type"] == Str("object")
    ensures "properties" in s && s["properties"] == Obj(Parts(f))
    ensures "required" in s && s["required"] == List(Strs(RequiredNames(f)))
    ensures "object" in Scalars + {"object", "array"}
  {
    hide Parts, Strs, RequiredNames;
  }

  lemma ObjectReads(f: Field, s: Schema)
    requires "properties" in s && s["properties"] == Obj(Parts(f))
    requires "required" in s && s["required"] == List(Strs(RequiredNames(f)))
    requires f.propertyOrder == SortedKeys(f.properties.Keys) && "" !in f.properties
    requires BuildNames(Parts(f), f.propertyOrder, Marks(f)) == Ok(f.properties)
    ensures BuildFields(s) == Ok((f.properties, f.propertyOrder))
  {
    RequiredReads(f, s);
    PartsKeys(f);
    assert Marks(f) <= f.properties.Keys;
    hide *;
    PropertiesRead(s, Parts(f), Marks(f), f.properties);
  }

  lemma PropertiesRead(s: Schema, props: Schema, marks: set<string>, fields: map<string, Field>)
    requires "properties" in s && s["properties"] == Obj(props) && RequiredSet(s) == Ok(marks)
    requires BuildNames(props, SortedKeys(props.Keys), marks) == Ok(fields) && marks <= fields.Keys == props.Keys
    ensures BuildFields(s) == Ok((fields, SortedKeys(props.Keys)))
  {
    hide RequiredSet, BuildNames;
    assert Props(s) == props && Required(s) == marks;
  }

  lemma PartsKeys(f: Field)
    ensures Parts(f).Keys == f.properties.Keys
  {
    hide Full;
  }

  lemma RequiredReads(f: Field, s: Schema)
    requires "required" in s && s["required"] == List(Strs(RequiredNames(f))) && "" !in f.properties
    ensures RequiredSet(s) == Ok(Marks(f))
  {
    StrsReadBack(RequiredNames(f));
    hide Texts, Strs;
    assert "" !in Marks(f) && Elements(RequiredNames(f)) == Marks(f);
  }

  /** The properties read back as they are. */
  lemma {:induction false} PartsReadBack(f: Field, names: seq<string>)
    requires Tidy(f) && f.typ == "object" && forall n :: n in names ==> n in f.properties
    ensures forall n :: n in names ==> n in Parts(f)
    ensures BuildNames(Parts(f), names, Marks(f)) == Ok(PropertiesOf(f, names))
    decreases f, 0, |names|
  {
    PartsKeys(f);
    hide *;
    if names == [] {
      NoParts(f);
    } else {
      var n, most := names[|names| - 1], names[..|names| - 1];
      TidyObject(f);
      PartsReadBack(f, most);
      FullBuilds(f.properties[n]);
      BuildLast(Parts(f), names, Marks(f));
      OnePart(f, n);
      PropertiesStep(f, most, n);
      assert names == most + [n];
    }
  }

  lemma NoParts(f: Field)
    ensures BuildNames(Parts(f), [], Marks(f)) == Ok(PropertiesOf(f, []))
  {
  }

  lemma OnePart(f: Field, n: string)
    requires n in f.properties && Inheritance.IsValidIdentifier(n)
             && BuildField(Full(f.properties[n])) == Ok(f.properties[n].(required := false))
    ensures n in Parts(f) && Parts(f)[n] == Obj(Full(f.properties[n]))
    ensures forall fields ::
              OneMore(fields, n, Parts(f)[n], Marks(f), BuildField(Full(f.properties[n])))
              == Ok(fields[n := f.properties[n]])
  {
    hide Full, BuildField;
    assert n in Marks(f) <==> f.properties[n].required;
  }

  lemma PropertiesStep(f: Field, most: seq<string>, n: string)
    requires forall m :: m in most + [n] ==> m in f.properties
    ensures PropertiesOf(f, most + [n]) == PropertiesOf(f, most)[n := f.properties[n]]
  {
  }

  /** The whole schema reads back as the field, but for the required mark, which its owner keeps. */
  lemma {:induction false} FullBuilds(f: Field)
    requires Tidy(f)
    ensures BuildField(Full(f)) == Ok(f.(required := false))
    decreases f, 4
  {
    FullSays(f);
    hide *;
    if f.repeated {
      KindReadsBack(f, Marked(f), "", f.format, f.pattern, None);
      BlankSays(Full(f), f.description, "", "", f.default);
      ArrayKind(f, Full(f));
    } else {
      KindReadsBack(f, Full(f), f.description, f.format, f.pattern, f.default);
    }
  }

  lemma CoreKeys(f: Field)
    ensures Core(f).Keys <= {"type", "enum", "properties", "required", "x-reference-type"}
  {
    hide Parts, Strs, RequiredNames;
  }

  lemma FullSays(f: Field)
    requires Tidy(f)
    ensures f.refs == [] && !f.derived
    ensures f.repeated ==> Kind(f, Marked(f)) && Says(Marked(f), "", f.format, f.pattern, None)
                           && Says(Full(f), f.description, "", "", f.default)
    ensures !f.repeated ==> Kind(f, Full(f)) && Says(Full(f), f.description, f.format, f.pattern, f.default)
  {
    TidyTexts(f);
    MarkedSays(f);
    hide *;
    if f.repeated {
      ArraySays(f);
    } else {
      OneSays(f);
    }
  }

  lemma ArraySays(f: Field)
    requires f.repeated && Trim(f.description) == f.description && Trim("") == ""
    ensures Says(Full(f), f.description, "", "", f.default)
  {
    hide Trim, Marked;
    assert Full(f).Keys <= {"type", "items", "description", "default"};
  }

  lemma OneSays(f: Field)
    requires !f.repeated && Trim(f.description) == f.description
    requires Kind(f, Marked(f)) && Says(Marked(f), "", f.format, f.pattern, None)
    requires "description" !in Marked(f) && "default" !in Marked(f)
    ensures Kind(f, Full(f)) && Says(Full(f), f.description, f.format, f.pattern, f.default)
  {
    FullKeys(f);
    hide *;
    SameKind(f, Marked(f), Full(f));
    SameTexts(f, Marked(f), Full(f));
  }

  /** Description and default are all that the whole schema adds. */
  ghost predicate Adds(f: Field, s: Schema, full: Schema) {
    && (forall k :: k !in {"description", "default"} ==> (k in full <==> k in s) && (k in s ==> full[k] == s[k]))
    && "description" in full && full["description"] == Str(f.description)
    && ("default" in full <==> f.default.Some?) && ("default" in full ==> f.default == Some(full["default"]))
  }

  lemma FullKeys(f: Field)
    requires !f.repeated && "default" !in Marked(f)
    ensures Adds(f, Marked(f), Full(f))
  {
    hide Marked;
  }

  lemma SameKind(f: Field, s: Schema, full: Schema)
    requires Adds(f, s, full) && Kind(f, s)
    ensures Kind(f, full)
  {
    hide Core;
  }

  lemma SameTexts(f: Field, s: Schema, full: Schema)
    requires Adds(f, s, full) && Trim(f.description) == f.description
    requires Says(s, "", f.format, f.pattern, None)
    ensures Says(full, f.description, f.format, f.pattern, f.default)
  {
    hide Trim;
    assert ("format" in full <==> "format" in s) && ("pattern" in full <==> "pattern" in s);
  }

  lemma TidyTexts(f: Field)
    requires Tidy(f)
    ensures Trim(f.description) == f.description && Trim(f.format) == f.format && Trim(f.pattern) == f.pattern
    ensures f.refs == [] && !f.derived && Trim("") == ""
  {
    TrimWords();
    hide Trim;
  }

  lemma MarkedSays(f: Field)
    requires Trim(f.format) == f.format && Trim(f.pattern) == f.pattern && Trim("") == ""
    ensures Kind(f, Marked(f)) && Says(Marked(f), "", f.format, f.pattern, None)
    ensures "description" !in Marked(f) && "default" !in Marked(f)
  {
    CoreKeys(f);
    MarkedKeys(f);
    hide *;
    MarkedKind(f);
    MarkedTexts(f);
  }

  lemma MarkedKeys(f: Field)
    requires Core(f).Keys <= {"type", "enum", "properties", "required", "x-reference-type"}
    ensures Marked(f).Keys == Core(f).Keys + {"format", "pattern"}
    ensures Marked(f)["format"] == Str(f.format) && Marked(f)["pattern"] == Str(f.pattern)
    ensures forall k :: k in Core(f) ==> Marked(f)[k] == Core(f)[k]
    ensures "description" !in Marked(f) && "default" !in Marked(f)
  {
    hide Core;
  }

  lemma MarkedKind(f: Field)
    requires Marked(f).Keys == Core(f).Keys + {"format", "pattern"}
    requires forall k :: k in Core(f) ==> Marked(f)[k] == Core(f)[k]
    ensures Kind(f, Marked(f))
  {
    hide Core, Marked;
  }

  lemma MarkedTexts(f: Field)
    requires Trim(f.format) == f.format && Trim(f.pattern) == f.pattern && Trim("") == ""
    requires "format" in Marked(f) && Marked(f)["format"] == Str(f.format)
    requires "pattern" in Marked(f) && Marked(f)["pattern"] == Str(f.pattern)
    requires "description" !in Marked(f) && "default" !in Marked(f)
    ensures Says(Marked(f), "", f.format, f.pattern, None)
  {
    hide Marked, Trim;
  }

  lemma ArrayKind(f: Field, s: Schema)
    requires s == Full(f) && f.repeated
    ensures BuildField(s) ==
            match BuildField(Marked(f))
            case Err(e) => Err(e)
            case Ok(item) =>
              Ok(Blank(s).(typ := item.typ, format := item.format, choices := item.choices,
                           properties := item.properties, propertyOrder := item.propertyOrder, pattern := item.pattern,
                           repeated := true))
  {
    assert s.Keys !! {"oneOf", "const", "enum", "$ref", "x-reference-type"} && "type" in s && s["type"] == Str("array");
    assert "items" in s && s["items"] == Obj(Marked(f)) && "array" in Scalars + {"object", "array"};
    hide *;
    NoChoices(s);
    TypeIs(s, "array");
    ReadsByType(s, "array");
  }

  // ---------- through the importer ----------

  /** Nothing in it is given by a reference. */
  lemma {:induction false} FullIsRefFree(f: Field)
    ensures RefFree(Full(f))
    decreases f, 1
  {
    MarkedIsRefFree(f);
    hide *;
    if f.repeated {
      ArrayOfMarked(f);
    } else {
      OneOfMarked(f);
    }
  }

  lemma ArrayOfMarked(f: Field)
    requires f.repeated && RefFree(Marked(f))
    ensures RefFree(Full(f))
  {
    hide Marked, RefFree;
    ArrayIsRefFree(Full(f), Marked(f));
  }

  lemma OneOfMarked(f: Field)
    requires !f.repeated && RefFree(Marked(f))
    ensures RefFree(Full(f))
  {
    hide Marked, RefFree;
    AlikeRefFree(Marked(f), Full(f));
  }

  lemma {:induction false} MarkedIsRefFree(f: Field)
    ensures RefFree(Marked(f))
    decreases f, 0
  {
    AlikeCore(f);
    CoreKeys(f);
    if f.typ == "object" {
      forall n | n in f.properties ensures RefFree(Full(f.properties[n])) { FullIsRefFree(f.properties[n]); }
      CoreOfObject(f);
    } else {
      hide RefFree, Strs, Parts;
      assert Core(f).Keys !! {"$ref", "oneOf", "properties", "items"};
      PlainIsRefFree(Core(f));
    }
  }

  lemma AlikeCore(f: Field)
    ensures RefFree(Marked(f)) <==> RefFree(Core(f))
  {
    hide Core, RefFree;
    AlikeRefFree(Core(f), Marked(f));
  }

  lemma CoreOfObject(f: Field)
    requires f.typ == "object" && forall n :: n in f.properties ==> RefFree(Full(f.properties[n]))
    ensures RefFree(Core(f))
  {
    hide RefFree, Full, Strs, RequiredNames;
    assert Core(f)["properties"] == Obj(Parts(f));
    assert forall n :: n in Parts(f) ==> Parts(f)[n] == Obj(Full(f.properties[n]));
    PropertiesAreRefFree(Core(f));
  }

  /**
   Whatever the document, the importer gives back a field written in full: its type, choices, properties, format,
   pattern, description and default. Format and pattern of a repeated field stand with its items, description and
   default with the array.
  */
  lemma FullReadsBack(f: Field, document: Json, fuel: nat)
    requires Tidy(f) && Depth(Full(f)) <= fuel
    ensures ReadField(document, Full(f), fuel) == Ok(f.(required := false))
  {
    hide *;
    FullIsRefFree(f);
    RefFreeReads(document, Full(f), fuel);
    FullBuilds(f);
  }

  // ---------- what schemas can say in other ways ----------

  ghost predicate IsBlank(c: char) {
    || c in " \t\n\U{b}\U{c}\r\U{85}\U{a0}\U{1680}\U{2028}\U{2029}\U{202f}\U{205f}\U{3000}"
    || c in "\U{2000}\U{2001}\U{2002}\U{2003}\U{2004}\U{2005}\U{2006}\U{2007}\U{2008}\U{2009}\U{200a}"
  }

  lemma SpacesAreBlanks()
    ensures forall c :: IsSpace(c) <==> IsBlank(c)
  {
    SpacesFrom('\t', "\t\n\U{b}\U{c}\r");
    SpacesFrom('\U{2000}', "\U{2000}\U{2001}\U{2002}\U{2003}\U{2004}\U{2005}\U{2006}\U{2007}\U{2008}\U{2009}\U{200a}");
  }

  lemma SpacesFrom(first: char, run: string)
    requires 0 < |run| < 20 && first < '\U{3000}' && forall i :: 0 <= i < |run| ==> run[i] as int == first as int + i
    ensures forall c: char :: first <= c <= run[|run| - 1] <==> c in run
  {
    forall c: char | first <= c <= run[|run| - 1] ensures c in run { assert run[c as int - first as int] == c; }
  }

  /** Trimming takes off the blanks at both ends, and all of them. */
  lemma TrimExactly(text: string) returns (left: string, right: string)
    ensures text == left + Trim(text) + right
    ensures forall c :: c in left || c in right ==> IsBlank(c)
    ensures Trim(text) != "" ==> !IsBlank(Trim(text)[0]) && !IsBlank(Trim(text)[|Trim(text)| - 1])
  {
    SpacesAreBlanks();
    hide IsSpace, IsBlank;
    left := LeftSpaces(text);
    right := RightSpaces(TrimLeft(text));
    assert text == left + (Trim(text) + right);
  }

  lemma {:induction false} LeftSpaces(text: string) returns (left: string)
    ensures text == left + TrimLeft(text) && (forall c :: c in left ==> IsSpace(c))
    ensures TrimLeft(text) != "" ==> !IsSpace(TrimLeft(text)[0])
  {
    left := "";
    if text != "" && IsSpace(text[0]) {
      hide IsSpace;
      var rest := LeftSpaces(text[1..]);
      left := [text[0]] + rest;
      assert text == [text[0]] + text[1..];
    }
  }

  lemma {:induction false} RightSpaces(text: string) returns (right: string)
    ensures text == TrimRight(text) + right && (forall c :: c in right ==> IsSpace(c))
    ensures TrimRight(text) != "" ==> !IsSpace(TrimRight(text)[|TrimRight(text)| - 1])
    ensures TrimRight(text) != "" ==> TrimRight(text)[0] == text[0]
  {
    right := "";
    if text != "" && IsSpace(text[|text| - 1]) {
      hide IsSpace;
      var rest := RightSpaces(text[..|text| - 1]);
      right := rest + [text[|text| - 1]];
      assert text == text[..|text| - 1] + [text[|text| - 1]];
    }
  }

  /** A schema given by a reference has the keys of its target and, over them, its own. */
  lemma MergedExactly(document: Json, s: Schema, target: Schema)
    requires "$ref" in s && s["$ref"].Str? && s["$ref"].text != ""
    requires JsonPointer.Resolve(document, s["$ref"].text) == Ok(Obj(target))
    ensures Merged(document, s).Ok?
    ensures var r := Merged(document, s).value;
            && (forall k :: k in r <==> k in target || (k in s && k != "$ref"))
            && forall k :: k in r ==> r[k] == if k in s && k != "$ref" then s[k] else target[k]
  {
  }

  /** A type is a text, or a list with one text besides null. */
  lemma TypeExactly(s: Schema, t: string)
    requires t != "null"
    ensures "type" in s && s["type"] == Str(t) ==> ExtractSchemaType(s) == Ok(Trim(t))
    ensures "type" in s && s["type"] == List([Str(t), Str("null")]) ==> ExtractSchemaType(s) == Ok(Trim(t))
    ensures "type" in s && s["type"] == List([Str("null"), Str(t)]) ==> ExtractSchemaType(s) == Ok(Trim(t))
    ensures "type" in s && s["type"] == List([Str(t), Str(t)]) ==> ExtractSchemaType(s) == Err(Malformed)
    ensures "type" !in s ==> ExtractSchemaType(s) == Ok("")
  {
    hide Trim;
    var a, b := Str(t), Str("null");
    var none: seq<string> := [];
    assert none + none == none;
    assert [a] + [b] == [a, b] && [b] + [a] == [b, a] && [a] + [a] == [a, a] && [a] + [] == [a] && [b] + [] == [b];
    assert [Trim(t)] + [] == [Trim(t)] && [] + [Trim(t)] == [Trim(t)] && |[Trim(t)] + [Trim(t)]| == 2;
    OneTypeName(t, [], []);
    OneTypeName("null", [], []);
    OneTypeName(t, [b], []);
    OneTypeName("null", [a], [Trim(t)]);
    OneTypeName(t, [a], [Trim(t)]);
    hide TypeNames;
  }

  lemma OneTypeName(t: string, rest: seq<Json>, names: seq<string>)
    requires TypeNames(rest) == Ok(names)
    ensures TypeNames([Str(t)] + rest) == Ok((if t == "null" then [] else [Trim(t)]) + names)
  {
    hide Trim;
    assert ([Str(t)] + rest)[1..] == rest;
  }

  /** The option says the choice, outright or as an enumeration of one. */
  ghost predicate SaysChoice(option: Schema, choice: string) {
    if "const" in option then option["const"] == Str(choice)
    else "enum" in option && option["enum"] == List([Str(choice)])
  }

  /** Choices come from the options of a oneOf list, else from a constant, else from an enumeration. */
  lemma ChoicesExactly(document: Json, s: Schema, choices: seq<string>)
    requires choices != []
    requires "oneOf" in s ==>
               && s["oneOf"].List? && |s["oneOf"].items| == |choices|
               && forall i :: 0 <= i < |choices| ==>
                    && s["oneOf"].items[i].Obj? && Merged(document, s["oneOf"].items[i].fields).Ok?
                    && SaysChoice(Merged(document, s["oneOf"].items[i].fields).value, choices[i])
    requires "oneOf" !in s && "const" in s ==> s["const"] == Str(choices[0]) && |choices| == 1
    requires "oneOf" !in s && "const" !in s ==> "enum" in s && s["enum"] == List(Strs(choices))
    ensures ChoicesFrom(s, ReadOneOf(document, s)) == Ok(choices)
  {
    hide SaysChoice, Merged;
    if "oneOf" in s {
      OptionsExactly(document, s["oneOf"].items, choices);
    } else if "const" in s {
      assert choices == [choices[0]];
    } else {
      StrsReadBack(choices);
    }
  }

  lemma {:induction false} OptionsExactly(document: Json, options: seq<Json>, choices: seq<string>)
    requires |options| == |choices|
    requires forall i :: 0 <= i < |choices| ==>
               && options[i].Obj? && Merged(document, options[i].fields).Ok?
               && SaysChoice(Merged(document, options[i].fields).value, choices[i])
    ensures ReadOptions(document, options) == Ok(choices)
  {
    if options != [] {
      OptionExactly(Merged(document, options[0].fields).value, choices[0]);
      hide SaysChoice, OptionText, Merged;
      OptionsExactly(document, options[1..], choices[1..]);
      assert [choices[0]] + choices[1..] == choices;
    }
  }

  lemma OptionExactly(option: Schema, choice: string)
    requires SaysChoice(option, choice)
    ensures OptionText(option) == Ok(choice)
  {
    assert [Str(choice)][1..] == [] && Texts([]) == Ok([]);
    assert Texts([Str(choice)]) == Ok([choice] + []) && [choice] + [] == [choice];
  }

  // ---------- what the importer refuses ----------

  /** The type a schema declares is the text, or none. */
  ghost predicate Declares(s: Schema, typ: string) {
    if "type" in s then s["type"].Str? && Trim(s["type"].text) == typ else typ == ""
  }

  /** A schema that says nothing of references or choices is refused for its type. */
  lemma TypeRefusals(document: Json, s: Schema, fuel: nat, typ: string)
    requires fuel > 0 && Declares(s, typ)
    requires s.Keys !! {"$ref", "oneOf", "const", "enum", "x-reference-type"}
    ensures typ == "" && "properties" !in s ==> ReadField(document, s, fuel) == Err(MissingType)
    ensures typ !in {"", "string", "integer", "number", "boolean", "object", "array"} ==>
              ReadField(document, s, fuel) == Err(UnsupportedType)
    ensures typ == "array" && ("items" !in s || !s["items"].Obj?) ==> ReadField(document, s, fuel) == Err(Malformed)
    ensures typ == "object" && ("properties" !in s || !s["properties"].Obj?) ==>
              ReadField(document, s, fuel) == Err(Malformed)
    ensures typ == "" && "properties" in s && !s["properties"].Obj? ==> ReadField(document, s, fuel) == Err(Malformed)
  {
    NothingToFollow(document, s, fuel);
    ByType(s, ReadFields(document, s, fuel - 1), ReadItem(document, s, fuel - 1), typ);
    if "properties" !in s || !s["properties"].Obj? { NoProperties(document, s, fuel - 1); }
    if "items" !in s || !s["items"].Obj? { NoItems(document, s, fuel - 1); }
    hide *;
  }

  lemma ByType(s: Schema, properties: Result<Properties, Error>, item: Result<Field, Error>, typ: string)
    requires Declares(s, typ) && "x-reference-type" !in s
    ensures var r := FieldFrom(s, Ok([]), properties, item);
            && (typ == "" && "properties" !in s ==> r == Err(MissingType))
            && (typ !in {"", "string", "integer", "number", "boolean", "object", "array"} ==> r == Err(UnsupportedType))
            && (typ == "array" && item.Err? ==> r == Err(item.error))
            && ((typ == "object" || (typ == "" && "properties" in s)) && properties.Err? ==> r == Err(properties.error))
  {
    assert ExtractSchemaType(s) == Ok(typ);
    hide ExtractSchemaType, Trim, Blank, Declares;
  }

  /** Neither a reference nor choices: the type decides. */
  lemma NothingToFollow(document: Json, s: Schema, fuel: nat)
    requires fuel > 0 && s.Keys !! {"$ref", "oneOf", "const", "enum"}
    ensures ReadField(document, s, fuel)
            == FieldFrom(s, Ok([]), ReadFields(document, s, fuel - 1), ReadItem(document, s, fuel - 1))
  {
    assert Merged(document, s) == Ok(s);
    ReadFieldUnfolds(document, s, s, fuel);
    assert ChoicesFrom(s, ReadOneOf(document, s)) == Ok([]);
  }

  lemma NoProperties(document: Json, s: Schema, fuel: nat)
    requires "properties" !in s || !s["properties"].Obj?
    ensures ReadFields(document, s, fuel) == Err(Malformed)
  {
    hide ReadNames;
  }

  lemma NoItems(document: Json, s: Schema, fuel: nat)
    requires "items" !in s || !s["items"].Obj?
    ensures ReadItem(document, s, fuel) == Err(Malformed)
  {
  }

  /** A reference to other objects names one type. */
  lemma LabelRefusals(document: Json, s: Schema, fuel: nat, typ: string, text: string)
    requires fuel > 0 && Declares(s, typ) && s.Keys !! {"$ref", "oneOf", "const", "enum"}
    requires "x-reference-type" in s && s["x-reference-type"] == Str(text) && Trim(text) != ""
    ensures '|' in Trim(text) ==> ReadField(document, s, fuel) == Err(Union)
    ensures '|' !in Trim(text) ==>
              ReadField(document, s, fuel).Ok? && ReadField(document, s, fuel).value.typ == Trim(text)
  {
    NothingToFollow(document, s, fuel);
    hide ReadField, ReadFields, ReadItem, Trim;
  }

  /** Whatever refers to nothing, or to something that is no schema, is refused. */
  lemma ReferenceRefusals(document: Json, s: Schema, fuel: nat)
    requires fuel > 0 && "$ref" in s && s["$ref"].Str? && s["$ref"].text != ""
    ensures var target := JsonPointer.Resolve(document, s["$ref"].text);
            target.Err? || !target.value.Obj? ==> ReadField(document, s, fuel) == Err(BadRef)
  {
    ReadFieldStops(document, s, fuel);
    hide ReadField;
  }

  /** The schema of one property can be read. */
  ghost predicate PropertyReads(document: Json, props: Schema, n: string, fuel: nat)
    requires n in props
  {
    Inheritance.IsValidIdentifier(n) && props[n].Obj? && ReadField(document, props[n].fields, fuel).Ok?
  }

  /** What the property reads as, with its mark. */
  ghost function PropertyRead(document: Json, props: Schema, n: string, fuel: nat, marks: set<string>): Field
    requires n in props && PropertyReads(document, props, n, fuel)
  {
    var field := ReadField(document, props[n].fields, fuel).value;
    if n in marks then field.(required := true) else field
  }

  ghost predicate EachReads(document: Json, props: Schema, fuel: nat) {
    forall n :: n in props ==> PropertyReads(document, props, n, fuel)
  }

  /** The fields are what the properties read as. */
  ghost predicate AreRead(document: Json, props: Schema, fuel: nat, marks: set<string>, fields: map<string, Field>) {
    && fields.Keys == props.Keys
    && forall n :: n in props ==>
         PropertyReads(document, props, n, fuel) && fields[n] == PropertyRead(document, props, n, fuel, marks)
  }

  /** Exactly when the properties of a schema are read, and as what. */
  lemma PropertiesExactly(document: Json, s: Schema, props: Schema, names: seq<string>, fuel: nat)
    requires "properties" in s && s["properties"] == Obj(props)
    requires if "required" in s then s["required"] == List(Strs(names)) else names == []
    requires "" !in names
    ensures var r := ReadFields(document, s, fuel);
            && (r.Ok? <==>
                  props == map[] || (EachReads(document, props, fuel) && forall n :: n in names ==> n in props))
            && (r.Ok? ==> r.value.1 == SortedKeys(props.Keys)
                          && AreRead(document, props, fuel, Elements(names), r.value.0))
  {
    var marks := Elements(names);
    var fields := ReadNames(document, props, SortedKeys(props.Keys), marks, fuel);
    MarksAre(s, names);
    SortedReads(document, props, marks, fuel);
    FieldsByNames(document, s, props, marks, fuel);
    assert AreRead(document, map[], fuel, marks, map[]);
    hide *;
    AllOrNone(s, props, names, fields);
  }

  lemma SortedReads(document: Json, props: Schema, marks: set<string>, fuel: nat)
    ensures forall n :: n in SortedKeys(props.Keys) <==> n in props
    ensures var r := ReadNames(document, props, SortedKeys(props.Keys), marks, fuel);
            (r.Ok? <==> EachReads(document, props, fuel))
            && (r.Ok? ==> AreRead(document, props, fuel, marks, r.value) && r.value.Keys == props.Keys)
  {
    var names := SortedKeys(props.Keys);
    assert forall n :: n in names <==> n in props;
    PropertyByProperty(document, props, names, marks, fuel);
    hide *;
    AllNames(document, props, names, marks, fuel, ReadNames(document, props, names, marks, fuel));
  }

  lemma AllNames(document: Json, props: Schema, names: seq<string>, marks: set<string>, fuel: nat,
                 r: Result<map<string, Field>, Error>)
    requires forall n :: n in names <==> n in props
    requires r.Ok? <==> forall n :: n in names ==> PropertyReads(document, props, n, fuel)
    requires r.Ok? ==>
               && (forall n :: n in r.value <==> n in names)
               && forall n :: n in names ==>
                    && PropertyReads(document, props, n, fuel)
                    && r.value[n] == PropertyRead(document, props, n, fuel, marks)
    ensures r.Ok? <==> EachReads(document, props, fuel)
    ensures r.Ok? ==> AreRead(document, props, fuel, marks, r.value) && r.value.Keys == props.Keys
  {
    hide PropertyReads, PropertyRead;
  }

  lemma FieldsByNames(document: Json, s: Schema, props: Schema, marks: set<string>, fuel: nat)
    requires "properties" in s && s["properties"] == Obj(props) && RequiredSet(s) == Ok(marks)
    ensures forall n :: n in SortedKeys(props.Keys) <==> n in props
    ensures ReadFields(document, s, fuel)
            == FieldsFrom(s, ReadNames(document, props, SortedKeys(props.Keys), marks, fuel))
  {
    hide ReadNames, FieldsFrom, RequiredSet;
  }

  lemma MarksAre(s: Schema, names: seq<string>)
    requires if "required" in s then s["required"] == List(Strs(names)) else names == []
    requires "" !in names
    ensures RequiredSet(s) == Ok(Elements(names))
  {
    StrsReadBack(names);
    assert names == [] ==> Elements(names) == {};
    hide Texts, Strs;
  }

  lemma AllOrNone(s: Schema, props: Schema, names: seq<string>, fields: Result<map<string, Field>, Error>)
    requires "properties" in s && s["properties"] == Obj(props) && RequiredSet(s) == Ok(Elements(names))
    requires fields.Ok? ==> fields.value.Keys == props.Keys
    ensures var r := FieldsFrom(s, fields);
            && (r.Ok? <==> props == map[] || (fields.Ok? && forall n :: n in names ==> n in props))
            && (r.Ok? ==> r.value.1 == SortedKeys(props.Keys) && r.value.0.Keys == props.Keys)
            && (r.Ok? ==> r.value.0 == if props == map[] then map[] else fields.value)
  {
    hide RequiredSet;
    assert SortedKeys({}) == [];
    assert Elements(names) <= props.Keys <==> forall n :: n in names ==> n in props;
  }

  lemma {:induction false} PropertyByProperty(document: Json, props: Schema, names: seq<string>, marks: set<string>,
                                              fuel: nat)
    requires forall n :: n in names ==> n in props
    ensures var r := ReadNames(document, props, names, marks, fuel);
            && (r.Ok? <==> forall n :: n in names ==> PropertyReads(document, props, n, fuel))
            && (r.Ok? ==>
                  && (forall n :: n in r.value <==> n in names)
                  && forall n :: n in names ==>
                       && PropertyReads(document, props, n, fuel)
                       && r.value[n] == PropertyRead(document, props, n, fuel, marks))
    decreases |names|
  {
    if names != [] {
      var n, most := names[|names| - 1], names[..|names| - 1];
      PropertyByProperty(document, props, most, marks, fuel);
      hide ReadField;
      var before := ReadNames(document, props, most, marks, fuel);
      assert names == most + [n];
      if before.Ok? { OneMoreExactly(document, props, before.value, n, marks, fuel); }
      hide PropertyReads, PropertyRead, OneMore;
    }
  }

  lemma OneMoreExactly(document: Json, props: Schema, fields: map<string, Field>, n: string, marks: set<string>,
                       fuel: nat)
    requires n in props
    ensures var field := if props[n].Obj? then ReadField(document, props[n].fields, fuel) else Err(Malformed);
            OneMore(fields, n, props[n], marks, field).Ok? <==> PropertyReads(document, props, n, fuel)
    ensures var field := if props[n].Obj? then ReadField(document, props[n].fields, fuel) else Err(Malformed);
            PropertyReads(document, props, n, fuel) ==>
              OneMore(fields, n, props[n], marks, field)
              == Ok(fields[n := PropertyRead(document, props, n, fuel, marks)])
  {
    hide ReadField;
  }

  /** A whole document is an object whose type, if it names one, is object. */
  lemma DocumentExactly(document: Json, s: Schema, fuel: nat, typ: string)
    requires document == Obj(s) && "$ref" !in s && Declares(s, typ)
    ensures ReadDocument(document, fuel)
            == if typ == "" || typ == "object" then ReadFields(document, s, fuel) else Err(UnsupportedType)
    ensures ReadDocument(Null, fuel) == Err(Malformed)
  {
    hide ReadFields, Trim;
  }

  // ---------- what an export says ----------

  ghost predicate IsReference(f: Field) {
    f.typ !in {"string", "integer", "number", "boolean", "enum", "object"}
  }

  /** What an exported schema says of one value of the field. */
  ghost predicate SaysOf(f: Field, item: Schema) {
    && (f.typ in {"string", "integer", "number", "boolean"} ==> item == map["type" := Str(f.typ)])
    && (f.typ == "enum" ==>
          item == (if f.choices == [] then map["type" := Str("string")]
                   else map["type" := Str("string"), "enum" := List(Strs(f.choices))]))
    && (IsReference(f) ==>
          && |f.refs| <= 1
          && item == map["type" := Str("string"), "x-reference-type" := Str(if f.refs == [] then f.typ else f.refs[0])])
    && (f.typ == "object" ==>
          && "type" in item && item["type"] == Str("object") && "properties" in item && item["properties"].Obj?
          && item["properties"].fields.Keys == f.properties.Keys
          && ("required" in item <==> exists n :: n in f.properties && f.properties[n].required)
          && ("required" in item ==>
                item["required"].List? && forall n ::
                  Str(n) in item["required"].items <==> n in f.properties && f.properties[n].required))
  }

  /** An exported field says its type or its items', its description, and whether it is derived. */
  lemma ExportSays(f: Field, s: Schema)
    requires IsPropertySchema(f, Obj(s))
    ensures "description" in s <==> f.description != ""
    ensures "description" in s ==> s["description"] == Str(f.description)
    ensures "readOnly" in s <==> f.derived
    ensures "readOnly" in s ==> s["readOnly"] == Bool(true)
    ensures f.repeated ==>
              && "type" in s && s["type"] == Str("array")
              && "items" in s && s["items"].Obj? && SaysOf(f, s["items"].fields)
    ensures !f.repeated ==> SaysOf(f, s - {"description", "readOnly"})
  {
    var base :| IsBaseSchema(f, base) && Obj(s).fields == Decorated(f, base);
    hide *;
    BaseIsBare(f, base);
    BaseSays(f, base);
    DecorationSays(f, base, s);
  }

  /** An exported document says its dialect, its description, its properties and which of them are required. */
  lemma DocumentSays(f: Field, description: string, s: Schema)
    requires IsObjectSchema(f, description, s)
    ensures "$schema" in s && s["$schema"] == Str("https://json-schema.org/draft/2020-12/schema")
    ensures "type" in s && s["type"] == Str("object")
    ensures "description" in s <==> description != ""
    ensures "description" in s ==> s["description"] == Str(description)
    ensures "properties" in s && s["properties"].Obj? && s["properties"].fields.Keys == f.properties.Keys
    ensures "required" in s <==> exists n :: n in f.properties && f.properties[n].required
    ensures "required" in s ==>
              s["required"].List? && forall n ::
                Str(n) in s["required"].items <==> n in f.properties && f.properties[n].required
    ensures s.Keys <= {"$schema", "type", "description", "properties", "required"}
  {
    hide IsPropertySchema;
  }

  lemma DecorationSays(f: Field, base: Schema, s: Schema)
    requires base.Keys !! {"description", "readOnly"} && s == Decorated(f, base)
    ensures "description" in s <==> f.description != ""
    ensures "description" in s ==> s["description"] == Str(f.description)
    ensures "readOnly" in s <==> f.derived
    ensures "readOnly" in s ==> s["readOnly"] == Bool(true)
    ensures f.repeated ==> "type" in s && s["type"] == Str("array") && "items" in s && s["items"] == Obj(base)
    ensures !f.repeated ==> s - {"description", "readOnly"} == base
  {
  }

  lemma BaseSays(f: Field, base: Schema)
    requires IsBaseSchema(f, base)
    ensures SaysOf(f, base)
  {
    hide IsPropertySchema;
    if f.typ == "object" {
      ObjectSays(f, base);
    } else {
      LabelExactly(f);
      hide IsObjectSchema, Strs, ReferenceLabel;
    }
  }

  lemma ObjectSays(f: Field, base: Schema)
    requires f.typ == "object" && IsObjectSchema(f, "", base)
    ensures SaysOf(f, base)
  {
    ObjectKeys(f, "", base);
    hide IsPropertySchema, ObjectSchema, Strs;
  }

  lemma LabelExactly(f: Field)
    ensures |f.refs| <= 1 ==> ReferenceLabel(f) == if f.refs == [] then f.typ else f.refs[0]
    ensures |f.refs| == 2 ==> ReferenceLabel(f) == f.refs[0] + " | " + f.refs[1]
  {
    if |f.refs| == 2 { assert f.refs[1..] == [f.refs[1]] && Join([f.refs[1]], " | ") == f.refs[1]; }
  }

  /** A field is refused exactly for a reference to several types, of itself or of one of its properties. */
  lemma UnionsExactly(f: Field)
    ensures f.typ in {"string", "integer", "number", "boolean", "enum"} ==> !HasUnion(f)
    ensures IsReference(f) ==> (HasUnion(f) <==> |f.refs| > 1)
    ensures f.typ == "object" ==> (HasUnion(f) <==> exists n :: n in f.properties && HasUnion(f.properties[n]))
  {
  }
}
