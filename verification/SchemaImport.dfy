/**
 Reading field definitions from a JSON Schema document whose schemas may refer to one another: the
 importer's loops and recursion, and what references mean (internal/config/jsonschema.go).
*/
module SchemaImport {
  import opened Text
  import Inheritance
  import opened SchemaExport
  import JsonPointer

  // ---------- references ----------

  /** What a schema refers to, with the schema's own keys over it; the reference itself is not followed twice. */
  function Merged(document: Json, s: Schema): Result<Schema, Error> {
    if !HasReference(s) then Ok(s)
    else match JsonPointer.Resolve(document, s["$ref"].text)
      case Err(_) => Err(BadRef)
      case Ok(target) => if target.Obj? then Ok(target.fields + (s - {"$ref"})) else Err(BadRef)
  }

  function ReadOptions(document: Json, options: seq<Json>): Result<seq<string>, Error> {
    if options == [] then Ok([])
    else if !options[0].Obj? then Err(Malformed)
    else match Merged(document, options[0].fields)
      case Err(e) => Err(e)
      case Ok(option) =>
        match OptionText(option)
        case Err(e) => Err(e)
        case Ok(text) =>
          match ReadOptions(document, options[1..])
          case Err(e) => Err(e)
          case Ok(rest) => Ok([text] + rest)
  }

  function ReadOneOf(document: Json, s: Schema): Result<seq<string>, Error> {
    if "oneOf" !in s || s["oneOf"] == Null then Ok([])
    else if !s["oneOf"].List? then Err(Malformed)
    else ReadOptions(document, s["oneOf"].items)
  }

  // ---------- reading with references ----------

  /** A field, following references at most fuel levels down. */
  function ReadField(document: Json, s: Schema, fuel: nat): Result<Field, Error>
    decreases fuel, 1
  {
    if fuel == 0 then Err(TooDeep)
    else match Merged(document, s)
      case Err(e) => Err(e)
      case Ok(r) =>
        FieldFrom(r, ChoicesFrom(r, ReadOneOf(document, r)), ReadFields(document, r, fuel - 1),
                  ReadItem(document, r, fuel - 1))
  }

  function ReadItem(document: Json, s: Schema, fuel: nat): Result<Field, Error>
    decreases fuel, 2
  {
    if "items" !in s || !s["items"].Obj? then Err(Malformed) else ReadField(document, s["items"].fields, fuel)
  }

  function ReadFields(document: Json, s: Schema, fuel: nat): Result<Properties, Error>
    decreases fuel, 3
  {
    FieldsFrom(s, ReadNames(document, Props(s), SortedKeys(Props(s).Keys), Required(s), fuel))
  }

  function ReadNames(document: Json, props: Schema, names: seq<string>, required: set<string>, fuel: nat)
      : Result<map<string, Field>, Error>
    requires forall n :: n in names ==> n in props
    decreases fuel, 2, |names|
  {
    if names == [] then Ok(map[])
    else
      var n := names[|names| - 1];
      match ReadNames(document, props, names[..|names| - 1], required, fuel)
      case Err(e) => Err(e)
      case Ok(fields) =>
        OneMore(fields, n, props[n], required,
                if props[n].Obj? then ReadField(document, props[n].fields, fuel) else Err(Malformed))
  }

  /** A whole document: an object, or one that says nothing of its type. */
  function ReadDocument(document: Json, fuel: nat): Result<Properties, Error> {
    if !document.Obj? then Err(Malformed)
    else match Merged(document, document.fields)
      case Err(e) => Err(e)
      case Ok(root) =>
        match ExtractSchemaType(root)
        case Err(e) => Err(e)
        case Ok(typ) => if typ != "" && typ != "object" then Err(UnsupportedType) else ReadFields(document, root, fuel)
  }

  // ---------- fuel only bounds the depth ----------

  /** Answers agree unless the first gave up. */
  predicate Extends<T(==)>(less: Result<T, Error>, more: Result<T, Error>) {
    less == Err(TooDeep) || more == less
  }

  lemma FieldExtends(s: Schema, choices: Result<seq<string>, Error>, p: Result<Properties, Error>,
                     q: Result<Properties, Error>,
                     i: Result<Field, Error>, j: Result<Field, Error>)
    requires Extends(p, q) && Extends(i, j)
    ensures Extends(FieldFrom(s, choices, p, i), FieldFrom(s, choices, q, j))
  {
    hide ExtractSchemaType, StringValue, Blank;
  }

  /** More fuel never changes an answer. */
  lemma {:induction false} MoreFuel(document: Json, s: Schema, fuel: nat, more: nat)
    requires fuel <= more
    ensures Extends(ReadField(document, s, fuel), ReadField(document, s, more))
    decreases fuel, 1
  {
    hide FieldFrom, FieldsFrom, ReadNames, ReadOneOf, ChoicesFrom, ReadField, ReadFields, Merged, ReadItem;
    ReadFieldStops(document, s, fuel);
    ReadFieldStops(document, s, more);
    if fuel > 0 && Merged(document, s).Ok? {
      var r := Merged(document, s).value;
      FieldsMoreFuel(document, r, fuel - 1, more - 1);
      ItemMoreFuel(document, r, fuel - 1, more - 1);
      ReadFieldUnfolds(document, s, r, fuel);
      ReadFieldUnfolds(document, s, r, more);
      FieldExtends(r, ChoicesFrom(r, ReadOneOf(document, r)), ReadFields(document, r, fuel - 1),
                   ReadFields(document, r, more - 1),
                   ReadItem(document, r, fuel - 1), ReadItem(document, r, more - 1));
    }
  }

  lemma ReadFieldStops(document: Json, s: Schema, fuel: nat)
    ensures fuel == 0 ==> ReadField(document, s, fuel) == Err(TooDeep)
    ensures fuel > 0 && Merged(document, s).Err? ==> ReadField(document, s, fuel) == Err(Merged(document, s).error)
  {
    hide Merged;
  }

  lemma ReadFieldUnfolds(document: Json, s: Schema, r: Schema, fuel: nat)
    requires fuel > 0 && Merged(document, s) == Ok(r)
    ensures ReadField(document, s, fuel) ==
            FieldFrom(r, ChoicesFrom(r, ReadOneOf(document, r)), ReadFields(document, r, fuel - 1),
                      ReadItem(document, r, fuel - 1))
  {
    hide FieldFrom, ReadFields, ReadOneOf, ChoicesFrom, ReadItem, Merged;
  }

  lemma {:induction false} ItemMoreFuel(document: Json, s: Schema, fuel: nat, more: nat)
    requires fuel <= more
    ensures Extends(ReadItem(document, s, fuel), ReadItem(document, s, more))
    decreases fuel, 2
  {
    hide ReadField;
    if "items" in s && s["items"].Obj? { MoreFuel(document, s["items"].fields, fuel, more); }
  }

  lemma {:induction false} FieldsMoreFuel(document: Json, s: Schema, fuel: nat, more: nat)
    requires fuel <= more
    ensures Extends(ReadFields(document, s, fuel), ReadFields(document, s, more))
    decreases fuel, 3
  {
    hide ReadNames, RequiredSet;
    NamesMoreFuel(document, Props(s), SortedKeys(Props(s).Keys), Required(s), fuel, more);
  }

  lemma {:induction false} NamesMoreFuel(document: Json, props: Schema, names: seq<string>, required: set<string>,
                                         fuel: nat, more: nat)
    requires fuel <= more && forall n :: n in names ==> n in props
    ensures Extends(ReadNames(document, props, names, required, fuel),
                    ReadNames(document, props, names, required, more))
    decreases fuel, 2, |names|
  {
    if names != [] {
      hide ReadField;
      var n := names[|names| - 1];
      NamesMoreFuel(document, props, names[..|names| - 1], required, fuel, more);
      if props[n].Obj? { MoreFuel(document, props[n].fields, fuel, more); }
    }
  }

  // ---------- a document without references ----------

  /** No schema that the importer visits is given by a reference. */
  ghost predicate RefFree(s: Schema)
    decreases Obj(s), 1
  {
    && !HasReference(s)
    && ("oneOf" in s && s["oneOf"].List? ==> forall o :: o in s["oneOf"].items && o.Obj? ==> !HasReference(o.fields))
    && PropsRefFree(s) && ItemRefFree(s)
  }

  ghost predicate ItemRefFree(s: Schema)
    decreases Obj(s), 0
  {
    "items" in s && s["items"].Obj? ==> (Inside(s, "items"); RefFree(s["items"].fields))
  }

  ghost predicate PropsRefFree(s: Schema)
    decreases Obj(s), 0
  {
    if "properties" in s && s["properties"].Obj? then
      Inside(s, "properties");
      forall n :: n in s["properties"].fields && s["properties"].fields[n].Obj? ==>
        assert Obj(s["properties"].fields[n].fields) < Obj(s["properties"].fields) by {
          Inside(s["properties"].fields, n);
        }
        RefFree(s["properties"].fields[n].fields)
    else true
  }

  function Max(a: nat, b: nat): nat {
    if a < b then b else a
  }

  /** How many levels of schemas there are. */
  ghost function Depth(s: Schema): nat
    decreases Obj(s), 1
  {
    1 + Max(PropsDepth(s), ItemDepth(s))
  }

  ghost function ItemDepth(s: Schema): nat
    decreases Obj(s), 0
  {
    if "items" in s && s["items"].Obj? then (Inside(s, "items"); Depth(s["items"].fields)) else 0
  }

  ghost function PropsDepth(s: Schema): nat
    decreases Obj(s), 0
  {
    if "properties" in s && s["properties"].Obj? then
      Inside(s, "properties");
      NamesDepth(s["properties"].fields, SortedKeys(s["properties"].fields.Keys))
    else 0
  }

  ghost function NamesDepth(props: Schema, names: seq<string>): nat
    requires forall n :: n in names ==> n in props
    decreases Obj(props), 0, |names|
  {
    if names == [] then 0
    else
      var n := names[|names| - 1];
      Max(NamesDepth(props, names[..|names| - 1]),
          if props[n].Obj? then (Inside(props, n); Depth(props[n].fields)) else 0)
  }

  /** Such a schema reads the same in every document, given fuel for its levels. */
  lemma {:induction false} RefFreeReads(document: Json, s: Schema, fuel: nat)
    requires RefFree(s) && Depth(s) <= fuel
    ensures ReadField(document, s, fuel) == BuildField(s)
    decreases Obj(s), 1
  {
    hide PropsRefFree, ItemRefFree, PropsDepth, ItemDepth, ReadField, ReadFields, ReadItem, BuildFields, BuildItem;
    RefFreeChoices(document, s);
    RefFreeFields(document, s, fuel - 1);
    RefFreeItem(document, s, fuel - 1);
    ReadFieldUnfolds(document, s, s, fuel);
    BuildFieldUnfolds(s);
  }

  lemma BuildFieldUnfolds(s: Schema)
    requires !HasReference(s)
    ensures BuildField(s) == FieldFrom(s, Choices(s), BuildFields(s), BuildItem(s))
  {
    hide FieldFrom, Choices, BuildFields, BuildItem, HasReference;
  }

  lemma {:induction false} RefFreeItem(document: Json, s: Schema, fuel: nat)
    requires ItemRefFree(s) && ItemDepth(s) <= fuel
    ensures ReadItem(document, s, fuel) == BuildItem(s)
    decreases Obj(s), 0
  {
    hide ReadField, BuildField, RefFree, Depth;
    if "items" in s && s["items"].Obj? {
      Inside(s, "items");
      RefFreeReads(document, s["items"].fields, fuel);
    }
  }

  lemma RefFreeChoices(document: Json, s: Schema)
    requires RefFree(s)
    ensures ChoicesFrom(s, ReadOneOf(document, s)) == Choices(s) && Merged(document, s) == Ok(s)
  {
    hide HasReference, ChoicesFrom;
    if "oneOf" in s && s["oneOf"].List? { RefFreeOptions(document, s["oneOf"].items); }
  }

  lemma {:induction false} RefFreeOptions(document: Json, options: seq<Json>)
    requires forall o :: o in options && o.Obj? ==> !HasReference(o.fields)
    ensures ReadOptions(document, options) == OneOfOptions(options)
  {
    if options != [] {
      hide OptionText, HasReference;
      RefFreeOptions(document, options[1..]);
    }
  }

  lemma {:induction false} RefFreeFields(document: Json, s: Schema, fuel: nat)
    requires PropsRefFree(s) && PropsDepth(s) <= fuel
    ensures ReadFields(document, s, fuel) == BuildFields(s)
    decreases Obj(s), 0
  {
    hide ReadNames, BuildNames, RequiredSet;
    if "properties" in s && s["properties"].Obj? {
      Inside(s, "properties");
      RefFreeNames(document, s["properties"].fields, SortedKeys(s["properties"].fields.Keys), Required(s), fuel);
    }
  }

  lemma {:induction false} RefFreeNames(document: Json, props: Schema, names: seq<string>, required: set<string>,
                                        fuel: nat)
    requires forall n :: n in names ==> n in props
    requires forall n :: n in names && props[n].Obj? ==> RefFree(props[n].fields)
    requires NamesDepth(props, names) <= fuel
    ensures ReadNames(document, props, names, required, fuel) == BuildNames(props, names, required)
    decreases Obj(props), 0, |names|
  {
    if names != [] {
      hide ReadField, BuildField, RefFree, Depth, OneMore;
      var n := names[|names| - 1];
      RefFreeNames(document, props, names[..|names| - 1], required, fuel);
      if props[n].Obj? {
        Inside(props, n);
        RefFreeReads(document, props[n].fields, fuel);
      }
    }
  }

  // ---------- references written out ----------

  function Options(s: Schema): seq<Json> {
    if "oneOf" in s && s["oneOf"].List? then s["oneOf"].items else []
  }

  function Item(s: Schema): Option<Schema> {
    if "items" in s && s["items"].Obj? then Some(s["items"].fields) else None
  }

  /** A schema with other options, properties and items, and without its reference. */
  function Rebuilt(s: Schema, options: seq<Json>, props: Schema, item: Option<Schema>): Schema {
    map k | k in s && k != "$ref" ::
      if k == "oneOf" && s[k].List? then List(options)
      else if k == "properties" && s[k].Obj? then Obj(props)
      else if k == "items" && s[k].Obj? && item.Some? then Obj(item.value)
      else s[k]
  }

  /** The schema with every reference the importer would follow replaced by what it stands for. */
  function Inlined(document: Json, s: Schema, fuel: nat): Result<Schema, Error>
    decreases fuel, 1
  {
    if fuel == 0 then Err(TooDeep)
    else match Merged(document, s)
      case Err(e) => Err(e)
      case Ok(r) => InlinedParts(document, r, fuel - 1)
  }

  function InlinedParts(document: Json, s: Schema, fuel: nat): Result<Schema, Error>
    decreases fuel, 3
  {
    var options, props := InlinedOptions(document, Options(s)),
        InlinedNames(document, Props(s), SortedKeys(Props(s).Keys), fuel);
    var item := InlinedItem(document, Item(s), fuel);
    if options.Err? then Err(options.error)
    else if props.Err? then Err(props.error)
    else if item.Err? then Err(item.error)
    else Ok(Rebuilt(s, options.value, props.value, item.value))
  }

  function InlinedOptions(document: Json, options: seq<Json>): Result<seq<Json>, Error> {
    if options == [] then Ok([])
    else match InlinedOptions(document, options[1..])
      case Err(e) => Err(e)
      case Ok(rest) =>
        if !options[0].Obj? then Ok([options[0]] + rest)
        else match Merged(document, options[0].fields)
          case Err(e) => Err(e)
          case Ok(option) => Ok([Obj(option - {"$ref"})] + rest)
  }

  function InlinedItem(document: Json, item: Option<Schema>, fuel: nat): Result<Option<Schema>, Error>
    decreases fuel, 2
  {
    if item.None? then Ok(None)
    else match Inlined(document, item.value, fuel) case Err(e) => Err(e) case Ok(t) => Ok(Some(t))
  }

  function InlinedNames(document: Json, props: Schema, names: seq<string>, fuel: nat): (r: Result<Schema, Error>)
    requires forall n :: n in names ==> n in props
    ensures r.Ok? ==> r.value.Keys == Elements(names)
    decreases fuel, 2, |names|
  {
    if names == [] then Ok(map[])
    else
      var n := names[|names| - 1];
      assert names == names[..|names| - 1] + [n];
      match InlinedNames(document, props, names[..|names| - 1], fuel)
      case Err(e) => Err(e)
      case Ok(most) =>
        if !props[n].Obj? then Ok(most[n := props[n]])
        else match Inlined(document, props[n].fields, fuel) case Err(e) => Err(e) case Ok(t) => Ok(most[n := Obj(t)])
  }

  // ---------- and what they read as ----------

  /** The schemas agree but for references, options, properties and items. */
  ghost predicate SaysTheSame(s: Schema, t: Schema) {
    && (forall k :: k !in {"$ref", "oneOf", "properties", "items"} ==>
        (k in t <==> k in s) && (k in t ==> t[k] == s[k]))
    && ("properties" in t <==> "properties" in s)
  }

  lemma RebuiltSays(s: Schema, options: seq<Json>, props: Schema, item: Option<Schema>)
    ensures SaysTheSame(s, Rebuilt(s, options, props, item)) && !HasReference(Rebuilt(s, options, props, item))
  {
  }

  lemma SameFieldFrom(s: Schema, t: Schema, choices: Result<seq<string>, Error>, p: Result<Properties, Error>,
                      i: Result<Field, Error>)
    requires SaysTheSame(s, t)
    ensures FieldFrom(s, choices, p, i) == FieldFrom(t, choices, p, i)
  {
    assert Blank(s) == Blank(t);
    assert ExtractSchemaType(s) == ExtractSchemaType(t);
    assert StringValue(s, "x-reference-type") == StringValue(t, "x-reference-type");
    hide Blank, ExtractSchemaType, StringValue;
  }

  lemma SameChoicesFrom(s: Schema, t: Schema, options: Result<seq<string>, Error>)
    requires SaysTheSame(s, t)
    ensures ChoicesFrom(s, options) == ChoicesFrom(t, options) && RequiredSet(s) == RequiredSet(t)
  {
    hide Texts;
  }

  /** Where the parts of a rebuilt schema are. */
  lemma RebuiltParts(s: Schema, options: seq<Json>, props: Schema, item: Option<Schema>)
    requires item.Some? == Item(s).Some?
    ensures var t := Rebuilt(s, options, props, item);
            && ("oneOf" in t <==> "oneOf" in s)
            && ("oneOf" in s ==> t["oneOf"] == if s["oneOf"].List? then List(options) else s["oneOf"])
            && ("properties" in s ==> t["properties"] == if s["properties"].Obj? then Obj(props) else s["properties"])
            && Item(t) == item
  {
  }

  lemma {:induction false} InlinedOptionsRead(document: Json, options: seq<Json>)
    requires InlinedOptions(document, options).Ok?
    ensures ReadOptions(document, options) == OneOfOptions(InlinedOptions(document, options).value)
  {
    if options != [] {
      hide OptionText;
      InlinedOptionsRead(document, options[1..]);
      var rest := InlinedOptions(document, options[1..]).value;
      var all := InlinedOptions(document, options).value;
      assert all[1..] == rest;
      if options[0].Obj? { SameOption(Merged(document, options[0].fields).value); }
    }
  }

  lemma SameOption(option: Schema)
    ensures OptionText(option - {"$ref"}) == OptionText(option) && !HasReference(option - {"$ref"})
  {
    hide Texts;
  }

  /** A schema reads as it does with its references written out. */
  lemma {:induction false} InlinedReads(document: Json, s: Schema, fuel: nat)
    requires Inlined(document, s, fuel).Ok?
    ensures ReadField(document, s, fuel) == BuildField(Inlined(document, s, fuel).value)
    decreases fuel, 1
  {
    hide *;
    InlinedUnfolds(document, s, fuel);
    var r := Merged(document, s).value;
    InlinedFields(document, r, fuel - 1);
    InlinedItemReads(document, r, fuel - 1);
    InlinedField(document, s, r, Inlined(document, s, fuel).value, fuel);
  }

  lemma InlinedField(document: Json, s: Schema, r: Schema, t: Schema, fuel: nat)
    requires fuel > 0 && Merged(document, s) == Ok(r) && InlinedParts(document, r, fuel - 1) == Ok(t)
    requires ReadFields(document, r, fuel - 1) == BuildFields(t) && ReadItem(document, r, fuel - 1) == BuildItem(t)
    ensures ReadField(document, s, fuel) == BuildField(t)
  {
    hide *;
    ReadFieldUnfolds(document, s, r, fuel);
    InlinedFrame(document, r, fuel - 1);
    InlinedChoices(document, r, fuel - 1);
    BuildFieldUnfolds(t);
    SameFieldFrom(r, t, Choices(t), BuildFields(t), BuildItem(t));
  }

  lemma InlinedUnfolds(document: Json, s: Schema, fuel: nat)
    requires Inlined(document, s, fuel).Ok?
    ensures fuel > 0 && Merged(document, s).Ok?
    ensures InlinedParts(document, Merged(document, s).value, fuel - 1) == Inlined(document, s, fuel)
  {
    hide InlinedParts, Merged;
  }

  lemma InlinedFrame(document: Json, s: Schema, fuel: nat)
    requires InlinedParts(document, s, fuel).Ok?
    ensures var t := InlinedParts(document, s, fuel).value; SaysTheSame(s, t) && !HasReference(t)
  {
    hide InlinedOptions, InlinedNames, InlinedItem, Rebuilt, SaysTheSame, HasReference;
    RebuiltSays(s, InlinedOptions(document, Options(s)).value,
                InlinedNames(document, Props(s), SortedKeys(Props(s).Keys), fuel).value,
                    InlinedItem(document, Item(s), fuel).value);
  }

  /** The parts of a schema with references written out. */
  lemma InlinedHas(document: Json, s: Schema, fuel: nat)
    requires InlinedParts(document, s, fuel).Ok?
    ensures var t := InlinedParts(document, s, fuel).value;
            var options, props := InlinedOptions(document, Options(s)),
                InlinedNames(document, Props(s), SortedKeys(Props(s).Keys), fuel);
            && options.Ok? && props.Ok? && InlinedItem(document, Item(s), fuel) == Ok(Item(t))
            && ("oneOf" in t <==> "oneOf" in s) && ("properties" in t <==> "properties" in s)
            && ("oneOf" in s ==> t["oneOf"] == if s["oneOf"].List? then List(options.value) else s["oneOf"])
            && ("properties" in s ==>
                  t["properties"] == if s["properties"].Obj? then Obj(props.value) else s["properties"])
  {
    InlinedFrame(document, s, fuel);
    var item := InlinedItem(document, Item(s), fuel).value;
    assert item.Some? == Item(s).Some?;
    hide InlinedOptions, InlinedNames, InlinedItem, Rebuilt, Item;
    RebuiltParts(s, InlinedOptions(document, Options(s)).value,
                 InlinedNames(document, Props(s), SortedKeys(Props(s).Keys), fuel).value, item);
  }

  lemma InlinedChoices(document: Json, s: Schema, fuel: nat)
    requires InlinedParts(document, s, fuel).Ok?
    ensures ChoicesFrom(s, ReadOneOf(document, s)) == Choices(InlinedParts(document, s, fuel).value)
  {
    hide InlinedParts, InlinedNames, InlinedItem, InlinedOptions, ChoicesFrom, SaysTheSame, Item;
    var t := InlinedParts(document, s, fuel).value;
    InlinedFrame(document, s, fuel);
    InlinedHas(document, s, fuel);
    if "oneOf" in s && s["oneOf"].List? { InlinedOptionsRead(document, s["oneOf"].items); }
    assert ReadOneOf(document, s) == ExtractEnumFromOneOf(t);
    SameChoicesFrom(s, t, ReadOneOf(document, s));
  }

  lemma {:induction false} InlinedItemReads(document: Json, s: Schema, fuel: nat)
    requires InlinedParts(document, s, fuel).Ok?
    ensures ReadItem(document, s, fuel) == BuildItem(InlinedParts(document, s, fuel).value)
    decreases fuel, 2
  {
    hide InlinedParts, InlinedNames, InlinedOptions, Inlined, ReadField, BuildField;
    InlinedHas(document, s, fuel);
    if Item(s).Some? { InlinedReads(document, Item(s).value, fuel); }
  }

  lemma {:induction false} InlinedFields(document: Json, s: Schema, fuel: nat)
    requires InlinedParts(document, s, fuel).Ok?
    ensures ReadFields(document, s, fuel) == BuildFields(InlinedParts(document, s, fuel).value)
    decreases fuel, 3
  {
    hide *;
    InlinedHas(document, s, fuel);
    InlinedFrame(document, s, fuel);
    var t, props := InlinedParts(document, s, fuel).value, Props(s);
    NamesAreDistinct(props.Keys);
    var names, after := SortedKeys(props.Keys), InlinedNames(document, props, SortedKeys(props.Keys), fuel).value;
    assert after.Keys == Elements(names);
    ElementsAre(names);
    InlinedNamesRead(document, props, names, Required(s), fuel, after);
    InlinedFieldsFrom(document, s, t, fuel);
  }

  lemma InlinedFieldsFrom(document: Json, s: Schema, t: Schema, fuel: nat)
    requires InlinedParts(document, s, fuel) == Ok(t)
    requires var names, after := SortedKeys(Props(s).Keys),
             InlinedNames(document, Props(s), SortedKeys(Props(s).Keys), fuel);
             && after.Ok? && (forall n :: n in names ==> n in after.value)
             && ReadNames(document, Props(s), names, Required(s), fuel) == BuildNames(after.value, names, Required(s))
    ensures ReadFields(document, s, fuel) == BuildFields(t)
  {
    hide *;
    InlinedFrame(document, s, fuel);
    InlinedHas(document, s, fuel);
    SameChoicesFrom(s, t, Ok([]));
    var names, after := SortedKeys(Props(s).Keys),
        InlinedNames(document, Props(s), SortedKeys(Props(s).Keys), fuel).value;
    ElementsAre(names);
    assert after.Keys == Props(s).Keys;
    SameFieldsFrom(s, t, after);
    ReadFieldsUnfolds(document, s, fuel);
  }

  lemma ReadFieldsUnfolds(document: Json, s: Schema, fuel: nat)
    ensures ReadFields(document, s, fuel)
            == FieldsFrom(s, ReadNames(document, Props(s), SortedKeys(Props(s).Keys), Required(s), fuel))
  {
    hide FieldsFrom, ReadNames, Props, Required;
  }

  /** The same required names over the same property names: only what the properties read as matters. */
  lemma SameFieldsFrom(s: Schema, t: Schema, after: Schema)
    requires RequiredSet(t) == RequiredSet(s) && after.Keys == Props(s).Keys
    requires "properties" in t <==> "properties" in s
    requires "properties" in s ==> t["properties"] == if s["properties"].Obj? then Obj(after) else s["properties"]
    ensures BuildFields(t) == FieldsFrom(s, BuildNames(after, SortedKeys(Props(s).Keys), Required(s)))
  {
    hide RequiredSet, BuildNames;
    assert "properties" in s && s["properties"].Obj? ==> Props(t) == after && Required(t) == Required(s);
  }

  lemma ElementsAre(names: seq<string>)
    ensures forall n :: n in Elements(names) <==> n in names
  {
  }

  lemma {:induction false} InlinedNamesRead(document: Json, props: Schema, names: seq<string>, required: set<string>,
                                            fuel: nat, after: Schema)
    requires (forall n :: n in names ==> n in props && n in after) && InlinedNames(document, props, names, fuel).Ok?
    requires Inheritance.Distinct(names)
    requires forall n :: n in names ==> after[n] == InlinedNames(document, props, names, fuel).value[n]
    ensures ReadNames(document, props, names, required, fuel) == BuildNames(after, names, required)
    decreases fuel, 2, |names|
  {
    if names == [] {
      hide ReadField, BuildField;
      return;
    }
    var n, most := names[|names| - 1], names[..|names| - 1];
    assert names == most + [n] && n !in most && Inheritance.Distinct(most);
    hide *;
    InlinedLast(document, props, names, fuel);
    InlinedNamesRead(document, props, most, required, fuel, after);
    if props[n].Obj? { InlinedReads(document, props[n].fields, fuel); }
    SameLast(document, props, names, required, fuel, after);
  }

  lemma SameLast(document: Json, props: Schema, names: seq<string>, required: set<string>, fuel: nat, after: Schema)
    requires names != [] && forall m :: m in names ==> m in props && m in after
    requires var n, most := names[|names| - 1], names[..|names| - 1];
             && (after[n].Obj? <==> props[n].Obj?)
             && (props[n].Obj? ==> ReadField(document, props[n].fields, fuel) == BuildField(after[n].fields))
             && ReadNames(document, props, most, required, fuel) == BuildNames(after, most, required)
    ensures ReadNames(document, props, names, required, fuel) == BuildNames(after, names, required)
  {
    ReadLast(document, props, names, required, fuel);
    BuildLast(after, names, required);
    hide ReadNames, BuildNames, ReadField, BuildField;
  }

  lemma InlinedLast(document: Json, props: Schema, names: seq<string>, fuel: nat)
    requires names != [] && forall m :: m in names ==> m in props
    requires names[|names| - 1] !in names[..|names| - 1]
    requires InlinedNames(document, props, names, fuel).Ok?
    ensures var n, most := names[|names| - 1], names[..|names| - 1];
            var before, after := InlinedNames(document, props, most, fuel),
                InlinedNames(document, props, names, fuel).value;
            && before.Ok? && (forall m :: m in most ==> after[m] == before.value[m])
            && (props[n].Obj? ==> Inlined(document, props[n].fields, fuel).Ok?)
            && after[n] == if props[n].Obj? then Obj(Inlined(document, props[n].fields, fuel).value) else props[n]
  {
    hide Inlined;
  }

  lemma ReadLast(document: Json, props: Schema, names: seq<string>, required: set<string>, fuel: nat)
    requires names != [] && forall m :: m in names ==> m in props
    ensures var n := names[|names| - 1];
            ReadNames(document, props, names, required, fuel) ==
            match ReadNames(document, props, names[..|names| - 1], required, fuel)
            case Err(e) => Err(e)
            case Ok(fields) =>
              OneMore(fields, n, props[n], required,
                      if props[n].Obj? then ReadField(document, props[n].fields, fuel) else Err(Malformed))
  {
    hide ReadField, OneMore;
  }

  lemma BuildLast(props: Schema, names: seq<string>, required: set<string>)
    requires names != [] && forall m :: m in names ==> m in props
    ensures var n := names[|names| - 1];
            BuildNames(props, names, required) ==
            match BuildNames(props, names[..|names| - 1], required)
            case Err(e) => Err(e)
            case Ok(fields) =>
              OneMore(fields, n, props[n], required,
                      if props[n].Obj? then BuildField(props[n].fields) else Err(Malformed))
  {
    hide BuildField, OneMore;
  }

  // ---------- what is exported ----------

  /** An exported field refers to nothing. */
  lemma {:induction false} ExportIsRefFree(f: Field, s: Schema)
    requires IsPropertySchema(f, Obj(s))
    ensures RefFree(s)
    decreases f, 2
  {
    var base :| IsBaseSchema(f, base) && Obj(s).fields == Decorated(f, base);
    BaseIsRefFree(f, base);
    hide IsBaseSchema, IsPropertySchema;
    DecoratedIsRefFree(f, base);
  }

  /** Only the keys that hold references or schemas matter. */
  lemma AlikeRefFree(s: Schema, t: Schema)
    requires forall k :: k in {"$ref", "oneOf", "properties", "items"} ==>
             (k in s <==> k in t) && (k in s ==> s[k] == t[k])
    ensures RefFree(s) <==> RefFree(t)
  {
    assert PropsRefFree(s) <==> PropsRefFree(t);
    assert ItemRefFree(s) <==> ItemRefFree(t);
    hide PropsRefFree, ItemRefFree;
  }

  lemma DecoratedIsRefFree(f: Field, base: Schema)
    requires RefFree(base) && base.Keys !! {"description", "readOnly"}
    ensures RefFree(Decorated(f, base))
  {
    var core := if f.repeated then map["type" := Str("array"), "items" := Obj(base)] else base;
    if f.repeated {
      assert "$ref" !in core && "oneOf" !in core && "properties" !in core;
      ArrayIsRefFree(core, base);
    }
    hide RefFree;
    AlikeRefFree(core, Decorated(f, base));
  }

  lemma ArrayIsRefFree(s: Schema, base: Schema)
    requires RefFree(base) && s.Keys !! {"$ref", "oneOf", "properties"} && "items" in s && s["items"] == Obj(base)
    ensures RefFree(s)
  {
    assert PropsRefFree(s);
    hide PropsRefFree;
  }

  lemma {:induction false} BaseIsRefFree(f: Field, s: Schema)
    requires IsBaseSchema(f, s)
    ensures RefFree(s) && s.Keys !! {"description", "readOnly"}
    decreases f, 1, 1
  {
    if f.typ == "object" {
      assert IsObjectSchema(f, "", s);
      hide *;
      ObjectIsRefFree(f, "", s);
      ObjectKeys(f, "", s);
    } else {
      hide *;
      PlainKeys(f, s);
      PlainIsRefFree(s);
    }
  }

  lemma PlainKeys(f: Field, s: Schema)
    requires IsBaseSchema(f, s) && f.typ != "object"
    ensures s.Keys <= {"type", "enum", "x-reference-type"}
  {
    hide ReferenceLabel, Strs;
  }

  lemma PlainIsRefFree(s: Schema)
    requires s.Keys !! {"$ref", "oneOf", "properties", "items"}
    ensures RefFree(s)
  {
  }

  /** An exported object refers to nothing, nor do its properties. */
  lemma {:induction false} ObjectIsRefFree(f: Field, description: string, s: Schema)
    requires IsObjectSchema(f, description, s)
    ensures RefFree(s)
    decreases f, 1, 0
  {
    hide RefFree, ObjectSchema, ListsRequired, IsPropertySchema;
    ObjectKeys(f, description, s);
    var props := s["properties"].fields;
    forall n | n in props ensures props[n].Obj? && RefFree(props[n].fields) {
      PropertyIsObject(f.properties[n], props[n]);
      ExportIsRefFree(f.properties[n], props[n].fields);
    }
    hide *;
    PropertiesAreRefFree(s);
  }

  lemma PropertyIsObject(f: Field, v: Json)
    requires IsPropertySchema(f, v)
    ensures v.Obj?
  {
    hide IsBaseSchema, Decorated;
  }

  lemma PropertiesAreRefFree(s: Schema)
    requires s.Keys !! {"$ref", "oneOf", "items"} && "properties" in s && s["properties"].Obj?
    requires forall n :: n in s["properties"].fields ==>
             s["properties"].fields[n].Obj? && RefFree(s["properties"].fields[n].fields)
    ensures RefFree(s)
  {
    assert PropsRefFree(s);
    hide PropsRefFree;
  }

  /**
   Read through the importer, in any document and with fuel for its levels, an exported field comes back
   exactly if it survives.
  */
  lemma ExportReadsBack(f: Field, s: Schema, document: Json, fuel: nat)
    requires IsPropertySchema(f, Obj(s)) && Depth(s) <= fuel
    ensures ReadField(document, s, fuel) == Ok(Read(f)) <==> Survives(f)
  {
    hide *;
    ExportIsRefFree(f, s);
    RefFreeReads(document, s, fuel);
    PropertyReadsBack(f, s);
  }

  /** So does a whole exported document, with its fields in sorted order. */
  lemma ExportedDocumentReadsBack(f: Field, description: string, s: Schema, fuel: nat)
    requires IsObjectSchema(f, description, s) && PropsDepth(s) <= fuel
    ensures ReadDocument(Obj(s), fuel)
            == Ok((KeptNames(f.properties, f.properties.Keys), SortedKeys(f.properties.Keys)))
            <==> forall n :: n in f.properties ==> NameSurvives(f, n)
  {
    hide *;
    ObjectIsRefFree(f, description, s);
    RefFreeDocument(s, fuel);
    DocumentReadsBack(f, description, s);
  }

  lemma RefFreeDocument(s: Schema, fuel: nat)
    requires RefFree(s) && PropsDepth(s) <= fuel
    ensures ReadDocument(Obj(s), fuel) == ConvertObjectSchema(s)
  {
    RefFreeChoices(Obj(s), s);
    hide PropsRefFree, ItemRefFree, PropsDepth, ReadFields, BuildFields, Merged, HasReference, ExtractSchemaType;
    RefFreeFields(Obj(s), s, fuel);
  }

  // ---------- the importer ----------

  /** Copy the target, then set the schema's own keys over it in any order. */
  method ResolveSchemaMap(document: Json, s: Schema) returns (r: Result<Schema, Error>)
    ensures r == Merged(document, s)
  {
    if !HasReference(s) { return Ok(s); }
    var target := JsonPointer.ResolveJSONPointer(document, s["$ref"].text);
    if target.Err? || !target.value.Obj? { return Err(BadRef); }
    var merged, todo := target.value.fields, s.Keys;
    while todo != {}
      invariant todo <= s.Keys
      invariant forall k :: k in merged <==> k in target.value.fields || (k in s && k !in todo && k != "$ref")
      invariant forall k :: k in merged ==>
                merged[k] == if k in s && k !in todo && k != "$ref" then s[k] else target.value.fields[k]
    {
      var key :| key in todo;
      todo := todo - {key};
      if key == "$ref" { continue; }
      merged := merged[key := s[key]];
    }
    assert merged == target.value.fields + (s - {"$ref"});
    return Ok(merged);
  }

  /** The choices of a oneOf list, one for each option. */
  method ExtractOneOf(document: Json, s: Schema) returns (r: Result<seq<string>, Error>)
    ensures r == ReadOneOf(document, s)
  {
    if "oneOf" !in s || s["oneOf"] == Null { return Ok([]); }
    if !s["oneOf"].List? { return Err(Malformed); }
    var options, choices: seq<string> := s["oneOf"].items, [];
    NoMore(document, options);
    for i := 0 to |options|
      invariant ReadOptions(document, options) == Followed(choices, ReadOptions(document, options[i..]))
    {
      assert options[i..][1..] == options[i + 1..];
      if !options[i].Obj? { return Err(Malformed); }
      var option := ResolveSchemaMap(document, options[i].fields);
      if option.Err? { return Err(option.error); }
      var text := OptionText(option.value);
      if text.Err? { return Err(text.error); }
      FollowedTwice(choices, text.value, ReadOptions(document, options[i + 1..]));
      choices := choices + [text.value];
    }
    assert options[|options|..] == [] && choices + [] == choices;
    return Ok(choices);
  }

  function Followed(choices: seq<string>, rest: Result<seq<string>, Error>): Result<seq<string>, Error> {
    match rest case Ok(more) => Ok(choices + more) case Err(e) => Err(e)
  }

  lemma NoMore(document: Json, options: seq<Json>)
    ensures ReadOptions(document, options) == Followed([], ReadOptions(document, options[0..]))
  {
    assert options[0..] == options;
    var r := ReadOptions(document, options);
    if r.Ok? { assert [] + r.value == r.value; }
  }

  lemma FollowedTwice(choices: seq<string>, text: string, rest: Result<seq<string>, Error>)
    ensures Followed(choices, Followed([text], rest)) == Followed(choices + [text], rest)
  {
    if rest.Ok? { assert choices + ([text] + rest.value) == choices + [text] + rest.value; }
  }

  /** The properties in sorted order, each with its required mark. */
  method ConvertObjectProperties(document: Json, s: Schema, fuel: nat) returns (r: Result<Properties, Error>)
    ensures r == ReadFields(document, s, fuel)
    decreases fuel, 3
  {
    hide ReadNames, RequiredSet;
    if "properties" !in s || !s["properties"].Obj? { return Err(Malformed); }
    var required := RequiredSet(s);
    if required.Err? { return Err(required.error); }
    var props := s["properties"].fields;
    if |props| == 0 { return Ok((map[], [])); }
    var names := SortedKeys(props.Keys);
    var fields := ConvertNames(document, props, names, required.value, fuel);
    if fields.Err? { return Err(fields.error); }
    return if required.value <= fields.value.Keys then Ok((fields.value, names)) else Err(UnknownRequired);
  }

  method ConvertNames(document: Json, props: Schema, names: seq<string>, required: set<string>, fuel: nat)
      returns (r: Result<map<string, Field>, Error>)
    requires forall n :: n in names ==> n in props
    ensures r == ReadNames(document, props, names, required, fuel)
    decreases fuel, 2
  {
    hide ReadField, ReadNames, OneMore;
    var fields: map<string, Field> := map[];
    assert ReadNames(document, props, names[..0], required, fuel) == Ok(map[]) by {
      NoNames(document, props, required, fuel);
    }
    for i := 0 to |names|
      invariant ReadNames(document, props, names[..i], required, fuel) == Ok(fields)
    {
      ReadNamesStep(document, props, names, i, required, fuel);
      ReadNamesFails(document, props, names, i + 1, required, fuel);
      OneMoreIs(fields, names[i], props[names[i]], required,
                if props[names[i]].Obj? then ReadField(document, props[names[i]].fields, fuel) else Err(Malformed));
      if names[i] == "" || !Inheritance.IsValidIdentifier(names[i]) { return Err(BadName); }
      if !props[names[i]].Obj? { return Err(Malformed); }
      var field := BuildFieldDefinition(document, props[names[i]].fields, fuel);
      if field.Err? { return Err(field.error); }
      fields := fields[names[i] := if names[i] in required then field.value.(required := true) else field.value];
    }
    assert names[..|names|] == names;
    return Ok(fields);
  }

  lemma NoNames(document: Json, props: Schema, required: set<string>, fuel: nat)
    ensures ReadNames(document, props, [], required, fuel) == Ok(map[])
  {
  }

  lemma ReadNamesStep(document: Json, props: Schema, names: seq<string>, i: nat, required: set<string>, fuel: nat)
    requires i < |names| && (forall n :: n in names ==> n in props)
             && ReadNames(document, props, names[..i], required, fuel).Ok?
    ensures ReadNames(document, props, names[..i + 1], required, fuel) ==
            OneMore(ReadNames(document, props, names[..i], required, fuel).value, names[i], props[names[i]], required,
                    if props[names[i]].Obj? then ReadField(document, props[names[i]].fields, fuel) else Err(Malformed))
  {
    hide ReadField, OneMore;
    assert names[..i + 1][..i] == names[..i];
  }

  lemma OneMoreIs(fields: map<string, Field>, n: string, value: Json, required: set<string>,
                  field: Result<Field, Error>)
    ensures var r := OneMore(fields, n, value, required, field);
            if n == "" || !Inheritance.IsValidIdentifier(n) then r == Err(BadName)
            else if !value.Obj? then r == Err(Malformed)
            else if field.Err? then r == Err(field.error)
            else r == Ok(fields[n := if n in required then field.value.(required := true) else field.value])
  {
  }

  lemma {:induction false} ReadNamesFails(document: Json, props: Schema, names: seq<string>, i: nat,
                                          required: set<string>, fuel: nat)
    requires i <= |names| && forall n :: n in names ==> n in props
    ensures var part := ReadNames(document, props, names[..i], required, fuel);
            part.Err? ==> ReadNames(document, props, names, required, fuel) == part
    decreases |names| - i
  {
    if i < |names| {
      hide ReadField, OneMore;
      assert names[..i + 1][..i] == names[..i];
      ReadNamesFails(document, props, names, i + 1, required, fuel);
    } else {
      assert names[..i] == names;
    }
  }

  method BuildFieldDefinition(document: Json, s: Schema, fuel: nat) returns (r: Result<Field, Error>)
    ensures r == ReadField(document, s, fuel)
    decreases fuel, 1
  {
    hide *;
    ReadFieldStops(document, s, fuel);
    if fuel == 0 { return Err(TooDeep); }
    var resolved := ResolveSchemaMap(document, s);
    if resolved.Err? { return Err(resolved.error); }
    ReadFieldUnfolds(document, s, resolved.value, fuel);
    r := FieldOf(document, resolved.value, fuel - 1);
  }

  /** One field from its resolved schema: choices, reference, scalar, object or array. */
  method FieldOf(document: Json, s: Schema, fuel: nat) returns (r: Result<Field, Error>)
    ensures r == FieldFrom(s, ChoicesFrom(s, ReadOneOf(document, s)), ReadFields(document, s, fuel),
                           ReadItem(document, s, fuel))
    decreases fuel, 4
  {
    hide ReadOneOf, ChoicesFrom, ExtractSchemaType, HasReference, StringValue, ReadFields, ReadField, Blank;
    var options := ExtractOneOf(document, s);
    var choices := ChoicesFrom(s, options);
    var field := Blank(s);
    if choices.Err? { return Err(choices.error); }
    if |choices.value| > 0 {
      return Ok(field.(typ := "enum", choices := choices.value));
    }
    var declared := ExtractSchemaType(s);
    if declared.Err? { return Err(declared.error); }
    var typ := declared.value;
    if typ == "" && "properties" in s { typ := "object"; }
    var target := StringValue(s, "x-reference-type");
    if target != "" {
      if '|' in target { return Err(Union); }
      return Ok(field.(typ := target));
    }
    if typ in Scalars { return Ok(field.(typ := typ)); }
    if typ == "object" {
      var built := ConvertObjectProperties(document, s, fuel);
      if built.Err? { return Err(built.error); }
      return Ok(field.(typ := "object", properties := built.value.0, propertyOrder := built.value.1));
    }
    if typ == "array" {
      if "items" !in s || !s["items"].Obj? { return Err(Malformed); }
      var built := BuildFieldDefinition(document, s["items"].fields, fuel);
      if built.Err? { return built; }
      var item := built.value;
      return Ok(field.(typ := item.typ, format := item.format, choices := item.choices, properties := item.properties,
                       propertyOrder := item.propertyOrder, pattern := item.pattern, repeated := true));
    }
    return if typ == "" then Err(MissingType) else Err(UnsupportedType);
  }

  /** A document is an object schema, given outright or by a reference. */
  method LoadJSONSchemaFields(document: Json, fuel: nat) returns (r: Result<Properties, Error>)
    ensures r == ReadDocument(document, fuel)
  {
    hide Merged, ExtractSchemaType, ReadFields;
    if !document.Obj? { return Err(Malformed); }
    var root := ResolveSchemaMap(document, document.fields);
    if root.Err? { return Err(root.error); }
    var typ := ExtractSchemaType(root.value);
    if typ.Err? { return Err(typ.error); }
    if typ.value != "" && typ.value != "object" { return Err(UnsupportedType); }
    r := ConvertObjectProperties(document, root.value, fuel);
  }
}
