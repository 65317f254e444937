/**
 What the rules for records amount to, value by value: which values of a unique field conflict, which
 identifiers and references a record has, and when the records of a type are right
 (internal/validation/schema.go).
*/
module RecordRules {
  import opened Text
  import opened FieldRules
  import opened Validation

  /** The values conflict: both records hold one key for the field. */
  ghost predicate Conflict(lib: Library, rules: map<string, Rule>, f: string, a: Fields, b: Fields) {
    exists k :: (f, k) in UniqueKeys(lib, rules, a) && (f, k) in UniqueKeys(lib, rules, b)
  }

  /** A text, or a number, which is compared by the text it is written with. */
  ghost predicate IsText(v: Value) {
    v.Str? || v.Integer? || v.Float?
  }

  ghost function TextOf(v: Value): string
    requires IsText(v)
  {
    match v case Str(text) => text case Integer(token) => token case Float(token) => token
  }

  ghost predicate IsComposite(v: Value) {
    v.List? || v.Map?
  }

  /** Two values of one kind, or of two, that are written alike. */
  ghost predicate Alike(lib: Library, u: Value, v: Value) {
    if IsText(u) && IsText(v) then TextOf(u) == TextOf(v) != ""
    else if u.Bool? && v.Bool? then u.value == v.value
    else if IsComposite(u) && IsComposite(v) then lib.json(u) == lib.json(v) != ""
    else if u.Null? && v.Null? then true
    else AlikeAcross(lib, u, v) || AlikeAcross(lib, v, u)
  }

  /** Across kinds: a null and a boolean are written as a text, a number or a composite value may be. */
  ghost predicate AlikeAcross(lib: Library, u: Value, v: Value) {
    || (IsText(u) && v.Null? && TextOf(u) == "<nil>")
    || (IsText(u) && v.Bool? && TextOf(u) == if v.value then "true" else "false")
    || (IsText(u) && IsComposite(v) && TextOf(u) == lib.json(v) != "")
    || (IsComposite(u) && v.Null? && lib.json(u) == "<nil>")
    || (IsComposite(u) && v.Bool? && lib.json(u) == if v.value then "true" else "false")
  }

  /** Exactly which values conflict in a unique field that both records have. */
  lemma ConflictsExactly(lib: Library, rules: map<string, Rule>, f: string, a: Fields, b: Fields)
    requires f in rules && rules[f].unique && f in a && f in b
    ensures Conflict(lib, rules, f, a, b) <==> Alike(lib, a[f], b[f])
  {
    KeyAt(lib, rules, f, a);
    KeyAt(lib, rules, f, b);
    hide UniqueKeys, NormalizedUniqueKey, Alike;
    SameKeyExactly(lib, a[f], b[f]);
    var k := NormalizedUniqueKey(lib, a[f]);
    assert Alike(lib, a[f], b[f]) ==> (f, k) in UniqueKeys(lib, rules, a) && (f, k) in UniqueKeys(lib, rules, b);
  }

  lemma KeyAt(lib: Library, rules: map<string, Rule>, f: string, a: Fields)
    requires f in rules && rules[f].unique && f in a
    ensures forall k :: (f, k) in UniqueKeys(lib, rules, a) <==> k != "" && k == NormalizedUniqueKey(lib, a[f])
  {
    hide NormalizedUniqueKey;
  }

  lemma SameKeyExactly(lib: Library, u: Value, v: Value)
    ensures NormalizedUniqueKey(lib, u) == NormalizedUniqueKey(lib, v) != "" <==> Alike(lib, u, v)
  {
    assert "<nil>"[0] != "true"[0] && "<nil>"[0] != "false"[0] && "true"[0] != "false"[0];
  }

  /** A field that a record lacks, or that need not be unique, conflicts with nothing. */
  lemma OthersDoNotConflict(lib: Library, rules: map<string, Rule>, f: string, a: Fields, b: Fields)
    requires f !in rules || !rules[f].unique || f !in a || f !in b
    ensures !Conflict(lib, rules, f, a, b)
  {
    hide NormalizedUniqueKey;
  }

  /** In particular two texts conflict exactly if they are one, and so do two booleans. */
  lemma TextsConflictExactly(lib: Library, rules: map<string, Rule>, f: string, x: string, y: string, p: bool, q: bool)
    requires f in rules && rules[f].unique
    ensures Conflict(lib, rules, f, map[f := Str(x)], map[f := Str(y)]) <==> x == y != ""
    ensures Conflict(lib, rules, f, map[f := Integer(x)], map[f := Integer(y)]) <==> x == y != ""
    ensures Conflict(lib, rules, f, map[f := Str(x)], map[f := Float(y)]) <==> x == y != ""
    ensures Conflict(lib, rules, f, map[f := Bool(p)], map[f := Bool(q)]) <==> p == q
    ensures Conflict(lib, rules, f, map[f := Null], map[f := Null])
  {
    hide Conflict;
    ConflictsExactly(lib, rules, f, map[f := Str(x)], map[f := Str(y)]);
    ConflictsExactly(lib, rules, f, map[f := Integer(x)], map[f := Integer(y)]);
    ConflictsExactly(lib, rules, f, map[f := Str(x)], map[f := Float(y)]);
    ConflictsExactly(lib, rules, f, map[f := Bool(p)], map[f := Bool(q)]);
    ConflictsExactly(lib, rules, f, map[f := Null], map[f := Null]);
  }

  // ---------- the records of a type ----------

  /** Two records have different identifiers and no unique field in which they are written alike. */
  ghost predicate Differ(lib: Library, rule: TypeRule, a: Fields, b: Fields) {
    && IdOf(rule, a) != IdOf(rule, b)
    && forall f :: f in rule.fields && rule.fields[f].unique && f in a && f in b ==> !Alike(lib, a[f], b[f])
  }

  /** The records of a type are right exactly if each is, and any two differ in what has to differ. */
  lemma RecordsAreRightExactly(lib: Library, rule: TypeRule, records: Records)
    ensures TypeOk(lib, rule, records) <==>
              && (forall k :: 0 <= k < |records| ==> RecordOk(lib, rule, records[k]))
              && forall j, k :: 0 <= j < k < |records| ==> Differ(lib, rule, records[j].value, records[k].value)
  {
    hide Differ, RecordsDiffer, RecordOk;
    if forall k :: 0 <= k < |records| ==> RecordOk(lib, rule, records[k]) {
      forall k | 0 <= k < |records| ensures records[k].Some? && IdOf(rule, records[k].value).Some? {
        RightHasData(lib, rule, records[k]);
      }
      forall j, k | 0 <= j < k < |records|
        ensures RecordsDiffer(lib, rule, records[j], records[k])
                <==> Differ(lib, rule, records[j].value, records[k].value)
      {
        DifferExactly(lib, rule, records[j].value, records[k].value);
      }
    }
  }

  lemma RightHasData(lib: Library, rule: TypeRule, record: Option<Fields>)
    requires RecordOk(lib, rule, record)
    ensures record.Some? && IdOf(rule, record.value).Some?
  {
  }

  lemma DifferExactly(lib: Library, rule: TypeRule, a: Fields, b: Fields)
    requires IdOf(rule, a).Some?
    ensures RecordsDiffer(lib, rule, Some(a), Some(b)) <==> Differ(lib, rule, a, b)
  {
    hide IdOf, UniqueKeys, Alike;
    var left, right := UniqueKeys(lib, rule.fields, a), UniqueKeys(lib, rule.fields, b);
    if p :| p in left && p in right {
      KeysArePresent(lib, rule.fields, a, p);
      KeysArePresent(lib, rule.fields, b, p);
      assert (p.0, p.1) == p && Conflict(lib, rule.fields, p.0, a, b);
      ConflictsExactly(lib, rule.fields, p.0, a, b);
    }
    forall f | f in rule.fields && rule.fields[f].unique && f in a && f in b && Alike(lib, a[f], b[f])
      ensures !(left !! right)
    {
      ConflictsExactly(lib, rule.fields, f, a, b);
    }
  }

  lemma KeysArePresent(lib: Library, rules: map<string, Rule>, a: Fields, p: (string, string))
    requires p in UniqueKeys(lib, rules, a)
    ensures p.0 in rules && rules[p.0].unique && p.0 in a
  {
    hide NormalizedUniqueKey;
  }

  // ---------- identifiers, references and phases ----------

  /** The value is a text or a number, and is written as x. */
  ghost predicate WrittenAs(v: Value, x: string) {
    v in {Str(x), Integer(x), Float(x)}
  }

  /** Exactly which records have which identifier, and what an identifier pattern asks. */
  lemma IdentifierExactly(lib: Library, rule: TypeRule, data: Fields, x: string)
    ensures IdOf(rule, data) == Some(x) <==> rule.idField in data && WrittenAs(data[rule.idField], x) && x != ""
    ensures IdMatches(lib, rule, x) <==> rule.idPattern == "" || lib.matches(rule.idPattern, x) == Some(true)
  {
  }

  /** Exactly which identifiers a reference field refers to. */
  lemma {:induction false} ReferencesExactly(v: Value, repeated: bool, x: string)
    ensures x in CollectReferenceValues(v, repeated) <==>
              && x != ""
              && if repeated then v.List? && exists item :: item in v.items && WrittenAs(item, x)
                 else WrittenAs(v, x)
  {
    if repeated && v.List? { TextsExactly(v.items, x); }
  }

  lemma {:induction false} TextsExactly(items: seq<Value>, x: string)
    ensures x in Texts(items) <==> x != "" && exists item :: item in items && WrittenAs(item, x)
  {
    if items != [] {
      hide WrittenAs;
      TextsExactly(items[1..], x);
      assert items == [items[0]] + items[1..];
      FirstText(items[0], x);
    }
  }

  lemma FirstText(v: Value, x: string)
    ensures FieldRules.AsString(v) == Some(x) <==> x != "" && WrittenAs(v, x)
  {
  }

  /** Exactly which phases run when some are asked for. */
  lemma PhasesExactly(phases: seq<Phase>)
    ensures Format in PhaseSet(phases) <==> phases == [] || Format in phases
    ensures Schema in PhaseSet(phases) <==> phases == [] || Schema in phases || References in phases
    ensures References in PhaseSet(phases) <==> phases == [] || References in phases
  {
  }
}
