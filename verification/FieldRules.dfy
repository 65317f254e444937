/**
 What a schema says about one field, and the check of a field value against it
 (internal/validation/schema.go, field.go).
*/
module FieldRules {
  import opened Text

  /** A decoded value; numbers keep the text by which they are printed. */
  datatype Value =
    | Null
    | Str(text: string)
    | Integer(token: string)
    | Float(token: string)
    | Bool(value: bool)
    | List(items: seq<Value>)
    | Map(fields: Fields)

  type Fields = map<string, Value>

  datatype Rule = Rule(
    typ: string, required: bool, repeated: bool, unique: bool,
    choices: seq<string>, pattern: string, format: string,
    properties: map<string, Rule>, default: Value, referenceTypes: seq<string>)

  /**
   What libraries decide: whether a pattern matches (nothing if it does not compile), whether a text
   has a format (formats without a validator accept everything), and the JSON text of a composite value.
  */
  datatype Library = Library(
    matches: (string, string) -> Option<bool>,
    wellFormed: (string, string) -> bool,
    json: Value -> string)

  datatype Problem =
    | Empty | NoIdentifier | IdentifierPattern | DuplicateIdentifier | NotUnique | DuplicateInHierarchy
    | MissingRequired | NotAnArray | WrongType | NotAChoice | PatternInvalid | PatternMismatch | FormatMismatch
    | MissingTarget | AmbiguousTarget | Malformed

  function AsString(v: Value): Option<string> {
    match v
    case Str(text) => if text == "" then None else Some(text)
    case Integer(token) => if token == "" then None else Some(token)
    case Float(token) => if token == "" then None else Some(token)
    case _ => None
  }

  function Get(fields: Fields, name: string): Value {
    if name in fields then fields[name] else Null
  }

  // ---------- what the rule means ----------

  /** The text matches the pattern and has the format that are asked for. */
  ghost predicate TextOk(lib: Library, r: Rule, text: string) {
    && (r.pattern != "" ==> lib.matches(r.pattern, text) == Some(true))
    && (r.format != "" ==> lib.wellFormed(r.format, text))
  }

  /** One value, which for a repeated field is one item. */
  ghost predicate ValueOk(lib: Library, r: Rule, v: Value)
    decreases r, 0
  {
    match r.typ
    case "string" => v.Str? && TextOk(lib, r, v.text)
    case "integer" => v.Integer?
    case "number" => v.Integer? || v.Float?
    case "boolean" => v.Bool?
    case "enum" => v.Str? && (r.choices == [] || v.text in r.choices) && TextOk(lib, r, v.text)
    case "object" => v.Map? && forall name :: name in r.properties ==>
        FieldOk(lib, r.properties[name], Get(v.fields, name))
    case _ => AsString(v).Some?
  }

  ghost predicate ItemsOk(lib: Library, r: Rule, items: seq<Value>)
    decreases r, 1
  {
    forall i :: 0 <= i < |items| ==> ValueOk(lib, r, items[i])
  }

  /** A missing or null field takes its default, and without one must not be required. */
  ghost predicate FieldOk(lib: Library, r: Rule, v: Value)
    decreases r, 2
  {
    var value := if v == Null then r.default else v;
    if value == Null then !r.required
    else if r.repeated then value.List? && ItemsOk(lib, r, value.items)
    else ValueOk(lib, r, value)
  }

  /** How many items break the rule. */
  ghost function Bad(lib: Library, r: Rule, items: seq<Value>): nat {
    if items == [] then 0
    else Bad(lib, r, items[..|items| - 1]) + if ValueOk(lib, r, items[|items| - 1]) then 0 else 1
  }

  lemma ItemsOkStep(lib: Library, r: Rule, items: seq<Value>, i: nat)
    requires i < |items|
    ensures ItemsOk(lib, r, items[..i + 1]) <==> ItemsOk(lib, r, items[..i]) && ValueOk(lib, r, items[i])
  {
    var longer := items[..i + 1];
    assert longer[i] == items[i];
    if ItemsOk(lib, r, longer) {
      forall k | 0 <= k < i ensures ValueOk(lib, r, items[..i][k]) { assert items[..i][k] == longer[k]; }
    }
    if ItemsOk(lib, r, items[..i]) && ValueOk(lib, r, items[i]) {
      forall k | 0 <= k < i + 1 ensures ValueOk(lib, r, longer[k]) { assert k < i ==> items[..i][k] == longer[k]; }
    }
  }

  // ---------- the check ----------

  method EnforceStringConstraints(lib: Library, r: Rule, text: string) returns (problem: Option<Problem>)
    ensures problem.None? <==> TextOk(lib, r, text)
    ensures problem == Some(PatternInvalid) <==> r.pattern != "" && lib.matches(r.pattern, text) == None
    ensures problem == Some(PatternMismatch) <==> r.pattern != "" && lib.matches(r.pattern, text) == Some(false)
    ensures problem == Some(FormatMismatch) <==>
              && (r.pattern != "" ==> lib.matches(r.pattern, text) == Some(true))
              && r.format != "" && !lib.wellFormed(r.format, text)
    ensures problem.Some? ==> problem.value in {PatternInvalid, PatternMismatch, FormatMismatch}
  {
    if r.pattern != "" {
      var matched := lib.matches(r.pattern, text);
      if matched.None? { return Some(PatternInvalid); }
      if !matched.value { return Some(PatternMismatch); }
    }
    if r.format != "" && !lib.wellFormed(r.format, text) { return Some(FormatMismatch); }
    return None;
  }

  method IsChoice(choices: seq<string>, text: string) returns (valid: bool)
    ensures valid <==> text in choices
  {
    for i := 0 to |choices|
      invariant text !in choices[..i]
    {
      if choices[i] == text { return true; }
    }
    return false;
  }

  /** The value is of the kind the type asks for. */
  ghost predicate RightKind(typ: string, v: Value) {
    match v
    case Str(text) => typ !in {"integer", "number", "boolean", "object"} && (typ in {"string", "enum"} || text != "")
    case Integer(token) =>
      typ !in {"string", "boolean", "enum", "object"} && (typ in {"integer", "number"} || token != "")
    case Float(token) => typ !in {"string", "integer", "boolean", "enum", "object"} && (typ == "number" || token != "")
    case Bool(_) => typ == "boolean"
    case Map(_) => typ == "object"
    case List(_) => false
    case Null => false
  }

  /** Problems of a value, whether or not its field is unique or required. */
  const VALUE_PROBLEMS :=
    {WrongType, NotAChoice, PatternInvalid, PatternMismatch, FormatMismatch, MissingRequired, NotAnArray}

  /** No problem exactly for a value that obeys the rule; a value of the wrong kind is reported as such. */
  method ValidateFieldValue(lib: Library, r: Rule, v: Value) returns (problem: Option<Problem>)
    ensures problem.None? <==> ValueOk(lib, r, v)
    ensures problem.Some? ==> problem.value in VALUE_PROBLEMS
    ensures !RightKind(r.typ, v) ==> problem == Some(WrongType)
    ensures RightKind(r.typ, v) && r.typ != "object" ==> problem != Some(WrongType)
    ensures RightKind(r.typ, v) && r.typ !in {"string", "enum", "object"} ==> problem == None
    ensures problem == Some(NotAChoice) && r.typ != "object" ==> r.typ == "enum" && v.Str? && v.text !in r.choices
    ensures r.typ == "enum" && v.Str? && r.choices != [] && v.text !in r.choices ==> problem == Some(NotAChoice)
    decreases r, 1
  {
    match r.typ {
      case "string" =>
        if !v.Str? { return Some(WrongType); }
        problem := EnforceStringConstraints(lib, r, v.text);
      case "integer" =>
        return if v.Integer? then None else Some(WrongType);
      case "number" =>
        return if v.Integer? || v.Float? then None else Some(WrongType);
      case "boolean" =>
        return if v.Bool? then None else Some(WrongType);
      case "enum" =>
        if !v.Str? { return Some(WrongType); }
        if |r.choices| > 0 {
          var valid := IsChoice(r.choices, v.text);
          if !valid { return Some(NotAChoice); }
        }
        problem := EnforceStringConstraints(lib, r, v.text);
      case "object" =>
        if !v.Map? { return Some(WrongType); }
        problem := ValidateProperties(lib, r, v.fields);
      case _ =>
        return if AsString(v).Some? then None else Some(WrongType);
    }
  }

  /** The properties are checked in any order, up to the first problem. */
  method ValidateProperties(lib: Library, r: Rule, fields: Fields) returns (problem: Option<Problem>)
    ensures problem.None? <==> forall name :: name in r.properties ==>
            FieldOk(lib, r.properties[name], Get(fields, name))
    ensures problem.Some? ==> problem.value in VALUE_PROBLEMS
    decreases r, 0
  {
    var todo := r.properties.Keys;
    while todo != {}
      invariant todo <= r.properties.Keys
      invariant forall name :: name in r.properties && name !in todo ==>
                FieldOk(lib, r.properties[name], Get(fields, name))
      decreases |todo|
    {
      var name :| name in todo;
      var problems := ValidateField(lib, r.properties[name], Get(fields, name));
      if |problems| > 0 { return Some(problems[0]); }
      todo := todo - {name};
    }
    return None;
  }

  /** One problem for each bad item, and none exactly for a field that obeys the rule. */
  method ValidateField(lib: Library, r: Rule, v: Value) returns (problems: seq<Problem>)
    ensures problems == [] <==> FieldOk(lib, r, v)
    ensures forall p :: p in problems ==> p in VALUE_PROBLEMS
    ensures v == Null && r.default == Null ==> problems == if r.required then [MissingRequired] else []
    ensures var value := if v == Null then r.default else v;
            value != Null && r.repeated ==>
              if value.List? then |problems| == Bad(lib, r, value.items) else problems == [NotAnArray]
    ensures var value := if v == Null then r.default else v;
            value != Null && !r.repeated && !RightKind(r.typ, value) ==> problems == [WrongType]
    decreases r, 2
  {
    var value := v;
    if value == Null {
      if r.default != Null {
        value := r.default;
      } else {
        return if r.required then [MissingRequired] else [];
      }
    }
    if r.repeated {
      if !value.List? { return [NotAnArray]; }
      problems := [];
      for i := 0 to |value.items|
        invariant problems == [] <==> ItemsOk(lib, r, value.items[..i])
        invariant forall p :: p in problems ==> p in VALUE_PROBLEMS
        invariant |problems| == Bad(lib, r, value.items[..i])
      {
        assert value.items[..i + 1][..i] == value.items[..i];
        var problem := ValidateFieldValue(lib, r, value.items[i]);
        ItemsOkStep(lib, r, value.items, i);
        if problem.Some? { problems := problems + [problem.value]; }
      }
      assert value.items[..|value.items|] == value.items;
      return;
    }
    var problem := ValidateFieldValue(lib, r, value);
    return if problem.Some? then [problem.value] else [];
  }

  // ---------- unique fields ----------

  /** The text by which values of a unique field are compared; values of different kinds can share it. */
  function NormalizedUniqueKey(lib: Library, v: Value): string {
    match v
    case Null => "<nil>"
    case Str(text) => text
    case Integer(token) => token
    case Float(token) => token
    case Bool(value) => if value then "true" else "false"
    case _ => lib.json(v)
  }

  /** The unique fields of an object with their keys; an absent field and an empty key do not take part. */
  function UniqueKeys(lib: Library, rules: map<string, Rule>, data: Fields): set<(string, string)> {
    set f | f in rules && rules[f].unique && f in data && NormalizedUniqueKey(lib, data[f]) != ""
      :: (f, NormalizedUniqueKey(lib, data[f]))
  }

  /**
   A null written out counts as missing where a field is checked, but takes part in uniqueness, where a
   missing field does not. Equal texts of different kinds conflict too.
  */
  lemma NullsConflict(lib: Library, rules: map<string, Rule>, f: string, a: Fields, b: Fields, token: string)
    requires f in rules && rules[f].unique && token != ""
    ensures UniqueKeys(lib, rules, a[f := Null]) * UniqueKeys(lib, rules, b[f := Null]) != {}
    ensures UniqueKeys(lib, rules, a[f := Str(token)]) * UniqueKeys(lib, rules, b[f := Integer(token)]) != {}
    ensures FieldOk(lib, rules[f], Get(a[f := Null], f)) <==> FieldOk(lib, rules[f], Get(a - {f}, f))
    ensures rules[f].required && rules[f].default == Null ==> !FieldOk(lib, rules[f], Get(a[f := Null], f))
    ensures f !in a && f !in b ==>
            forall k :: (f, k) !in UniqueKeys(lib, rules, a) && (f, k) !in UniqueKeys(lib, rules, b)
  {
    assert (f, "<nil>") in UniqueKeys(lib, rules, a[f := Null]) * UniqueKeys(lib, rules, b[f := Null]);
    assert (f, token) in UniqueKeys(lib, rules, a[f := Str(token)]) * UniqueKeys(lib, rules, b[f := Integer(token)]);
  }
}
