/**
 The validator over collected records: the schema phase with its two indexes, the reference phase,
 and the sequencing of phases (internal/validation/schema.go, references.go, validate.go).
*/
module Validation {
  import opened Text
  import opened Inheritance
  import opened FieldRules

  datatype Phase = Format | Schema | References

  datatype Fault = Fault(phase: Phase, typeName: string, id: string, problem: Problem)

  datatype TypeRule = TypeRule(idField: string, idPattern: string, fields: map<string, Rule>)

  /** A record whose identifier is known. */
  datatype Object = Object(typeName: string, id: string, data: Fields)

  /** What was collected for a type: the fields of each record, or nothing for an empty one. */
  type Records = seq<Option<Fields>>

  datatype World = World(types: map<string, TypeDef>, rules: map<string, TypeRule>, lib: Library,
                         records: map<string, Records>) {
    ghost predicate Valid() {
      Consistent(types) && rules.Keys == types.Keys && records.Keys == types.Keys
    }
  }

  // ---------- what a type's records must satisfy ----------

  function IdOf(rule: TypeRule, data: Fields): Option<string> {
    if rule.idField in data then AsString(data[rule.idField]) else None
  }

  function RecordId(rule: TypeRule, record: Option<Fields>): Option<string> {
    if record.None? then None else IdOf(rule, record.value)
  }

  predicate IdMatches(lib: Library, rule: TypeRule, id: string) {
    rule.idPattern != "" ==> lib.matches(rule.idPattern, id) == Some(true)
  }

  ghost predicate FieldsOk(lib: Library, rules: map<string, Rule>, data: Fields) {
    forall f :: f in rules ==> FieldOk(lib, rules[f], Get(data, f))
  }

  /** The record is there, has an identifier of the right form, and every field obeys its rule. */
  ghost predicate RecordOk(lib: Library, rule: TypeRule, record: Option<Fields>) {
    && record.Some? && IdOf(rule, record.value).Some?
    && IdMatches(lib, rule, IdOf(rule, record.value).value)
    && FieldsOk(lib, rule.fields, record.value)
  }

  function RecordKeys(lib: Library, rule: TypeRule, record: Option<Fields>): set<(string, string)> {
    if record.None? then {} else UniqueKeys(lib, rule.fields, record.value)
  }

  /** Every record is right, identifiers differ, and unique fields share no value. */
  ghost predicate TypeOk(lib: Library, rule: TypeRule, records: Records) {
    && (forall k :: 0 <= k < |records| ==> RecordOk(lib, rule, records[k]))
    && (forall j, k :: 0 <= j < k < |records| ==> RecordsDiffer(lib, rule, records[j], records[k]))
  }

  ghost predicate RecordsDiffer(lib: Library, rule: TypeRule, a: Option<Fields>, b: Option<Fields>) {
    && (RecordId(rule, a).Some? ==> RecordId(rule, a) != RecordId(rule, b))
    && RecordKeys(lib, rule, a) !! RecordKeys(lib, rule, b)
  }

  // ---------- one record ----------

  /** Every fault is one of the schema phase and names the type and the identifier. */
  lemma NoFaults(w: World)
    requires w.Valid()
    ensures Conflicts([], w)
  {
  }

  /** Faults of identifiers repeated within a tree. */
  ghost predicate Conflicts(faults: seq<Fault>, w: World)
    requires w.Valid()
  {
    OfPhase(faults, Schema, w) && forall x :: x in faults ==> x.problem == DuplicateInHierarchy
  }

  lemma ConflictIsAbout(w: World, byType: ByType, faults: seq<Fault>, t: string, id: string)
    requires w.Valid() && OnlyRecords(w, byType) && t in byType && t in w.types && id in byType[t]
    requires Conflicts(faults, w)
    ensures Conflicts(faults + [Fault(Schema, t, id, DuplicateInHierarchy)], w)
  {
    hide Consistent, IdsIn;
  }

  ghost predicate AboutRecord(faults: seq<Fault>, t: string, rule: TypeRule, record: Option<Fields>) {
    forall x :: x in faults ==>
      x.phase == Schema && x.typeName == t && (x.id == "" || RecordId(rule, record) == Some(x.id))
  }

  /** What holds after some of the records: no fault exactly if they are right, and then they are indexed. */
  ghost predicate Right(lib: Library, t: string, rule: TypeRule, records: Records, faults: seq<Fault>,
                        mine: map<string, Object>, seen: set<(string, string)>)
  {
    && (faults == [] <==> TypeOk(lib, rule, records))
    && (faults == [] ==> Indexed(t, rule, records, mine) && seen == KeysIn(lib, rule, records))
  }

  /** Whatever the faults, only records are indexed. */
  ghost predicate OnlyRecords(w: World, byType: ByType)
    requires w.Valid()
  {
    forall t :: t in byType && t in w.types ==> byType[t].Keys <= IdsIn(w.rules[t], w.records[t])
  }

  function RecordObject(t: string, rule: TypeRule, record: Option<Fields>): map<string, Object>
    requires RecordId(rule, record).Some?
  {
    map[RecordId(rule, record).value := Object(t, RecordId(rule, record).value, record.value)]
  }

  lemma RightStep(lib: Library, t: string, rule: TypeRule, records: Records, faults: seq<Fault>,
                  mine: map<string, Object>, seen: set<(string, string)>, record: Option<Fields>, found: seq<Fault>,
                  now: set<(string, string)>, entry: map<string, Object>)
    requires Right(lib, t, rule, records, faults, mine, seen)
    requires found == [] <==>
               && RecordOk(lib, rule, record) && RecordId(rule, record).value !in mine
               && RecordKeys(lib, rule, record) !! seen
    requires found == [] ==> now == seen + RecordKeys(lib, rule, record) && entry == RecordObject(t, rule, record)
    ensures Right(lib, t, rule, records + [record], faults + found, mine + entry, now)
  {
    TypeOkStep(lib, rule, records, record);
    IndexedKeys(t, rule, records, mine);
    hide TypeOk, Indexed, RecordKeys, KeysIn;
    if faults == [] && found == [] {
      RightHasId(lib, rule, record);
      IndexedStep(t, rule, records, mine, record.value);
      var o := Object(t, RecordId(rule, record).value, record.value);
      assert mine + entry == mine[o.id := o];
      KeysStep(lib, rule, records, record.value);
    }
  }

  /** Whatever the faults, only records are indexed, and every fault is about one. */
  ghost predicate Holding(w: World, t: string, faults: seq<Fault>, mine: map<string, Object>)
    requires w.Valid() && t in w.types
  {
    && mine.Keys <= IdsIn(w.rules[t], w.records[t])
    && (forall id :: id in mine ==> mine[id].typeName == t && mine[id].id == id)
    && OfPhase(faults, Schema, w) && forall x :: x in faults ==> x.typeName == t
  }

  lemma NoRecords(w: World, t: string)
    requires w.Valid() && t in w.types
    ensures Progress(w, t, 0, [], map[], {})
  {
    NothingYet(w.lib, t, w.rules[t]);
    assert w.records[t][..0] == [];
  }

  lemma HoldingStep(w: World, t: string, faults: seq<Fault>, mine: map<string, Object>, i: nat, found: seq<Fault>,
                    entry: map<string, Object>)
    requires w.Valid() && t in w.types && Holding(w, t, faults, mine) && i < |w.records[t]|
    requires AboutRecord(found, t, w.rules[t], w.records[t][i])
    requires var rule, record := w.rules[t], w.records[t][i];
             entry == map[] || (RecordId(rule, record).Some? && entry == RecordObject(t, rule, record))
    ensures Holding(w, t, faults + found, mine + entry)
  {
    hide IdOf, Consistent;
    assert w.records[t][i] in w.records[t];
  }

  lemma AllRight(w: World, t: string, faults: seq<Fault>, mine: map<string, Object>, seen: set<(string, string)>)
    requires w.Valid() && t in w.types && Progress(w, t, |w.records[t]|, faults, mine, seen)
    ensures faults == [] <==> TypeOk(w.lib, w.rules[t], w.records[t])
    ensures faults == [] ==> Indexed(t, w.rules[t], w.records[t], mine)
    ensures forall id :: id in mine ==> mine[id].typeName == t && mine[id].id == id
    ensures mine.Keys <= IdsIn(w.rules[t], w.records[t])
    ensures OfPhase(faults, Schema, w) && forall x :: x in faults ==> x.typeName == t
  {
    hide TypeOk, Indexed, OfPhase, Consistent;
    assert w.records[t][..|w.records[t]|] == w.records[t];
  }

  /** What one record is found to be: right and new, with its unique keys added, or at fault. */
  ghost predicate Judged(lib: Library, t: string, rule: TypeRule, record: Option<Fields>, mine: map<string, Object>,
                         seen: set<(string, string)>, found: seq<Fault>, now: set<(string, string)>)
  {
    && (found == [] <==>
          && RecordOk(lib, rule, record) && RecordId(rule, record).value !in mine
          && RecordKeys(lib, rule, record) !! seen)
    && (found == [] ==> RecordId(rule, record).Some? && now == seen + RecordKeys(lib, rule, record))
    && AboutRecord(found, t, rule, record)
  }

  lemma JudgedHasId(lib: Library, t: string, rule: TypeRule, record: Option<Fields>, mine: map<string, Object>,
                    seen: set<(string, string)>, found: seq<Fault>, now: set<(string, string)>)
    requires Judged(lib, t, rule, record, mine, seen, found, now)
    ensures found == [] ==> RecordId(rule, record).Some?
  {
  }

  /** The first i records of the type are checked. */
  ghost predicate Progress(w: World, t: string, i: nat, faults: seq<Fault>, mine: map<string, Object>,
                           seen: set<(string, string)>)
    requires w.Valid() && t in w.types && i <= |w.records[t]|
  {
    Right(w.lib, t, w.rules[t], w.records[t][..i], faults, mine, seen) && Holding(w, t, faults, mine)
  }

  lemma ProgressStep(w: World, t: string, i: nat, faults: seq<Fault>, mine: map<string, Object>,
                     seen: set<(string, string)>, found: seq<Fault>, now: set<(string, string)>,
                     entry: map<string, Object>)
    requires w.Valid() && t in w.types && i < |w.records[t]| && Progress(w, t, i, faults, mine, seen)
    requires Judged(w.lib, t, w.rules[t], w.records[t][i], mine, seen, found, now)
    requires found == [] ==> RecordId(w.rules[t], w.records[t][i]).Some?
    requires entry == if found == [] then RecordObject(t, w.rules[t], w.records[t][i]) else map[]
    ensures Progress(w, t, i + 1, faults + found, mine + entry, now)
  {
    var rule, records := w.rules[t], w.records[t];
    assert records[..i + 1] == records[..i] + [records[i]];
    hide Right, Holding, RecordOk, RecordKeys, AboutRecord, Consistent, RecordObject;
    RightStep(w.lib, t, rule, records[..i], faults, mine, seen, records[i], found, now, entry);
    HoldingStep(w, t, faults, mine, i, found, entry);
  }


  /** Every fault is one of the phase, about a type, and names the identifier of one of its records if any. */
  ghost predicate OfPhase(faults: seq<Fault>, phase: Phase, w: World)
    requires w.Valid()
  {
    forall x :: x in faults ==> x.phase == phase && x.typeName in w.types
                                && (x.id == "" || x.id in IdsIn(w.rules[x.typeName], w.records[x.typeName]))
  }

  ghost predicate About(faults: seq<Fault>, t: string, id: string) {
    forall x :: x in faults ==> x.phase == Schema && x.typeName == t && x.id == id
  }

  /** The fields of a record, visited in any order, and the values its unique fields add to those seen. */
  method ValidateFields(lib: Library, t: string, rules: map<string, Rule>, data: Fields, id: string,
                        seen: set<(string, string)>)
      returns (faults: seq<Fault>, now: set<(string, string)>)
    ensures faults == [] <==> FieldsOk(lib, rules, data) && UniqueKeys(lib, rules, data) !! seen
    ensures now == seen + UniqueKeys(lib, rules, data)
    ensures About(faults, t, id)
    ensures Fault(Schema, t, id, NotUnique) in faults <==> !(UniqueKeys(lib, rules, data) !! seen)
    ensures (forall f :: f in rules ==> FieldOk(lib, rules[f], Get(data, f))) ==>
              forall x :: x in faults ==> x.problem == NotUnique
    ensures UniqueKeys(lib, rules, data) !! seen ==> forall x :: x in faults ==> x.problem in VALUE_PROBLEMS
  {
    hide *;
    faults, now := [], seen;
    var todo := rules.Keys;
    NothingChecked(lib, t, rules, data, id, seen);
    while todo != {}
      invariant todo <= rules.Keys && Checked(lib, t, rules, data, id, seen, rules.Keys - todo, faults, now)
      decreases |todo|
    {
      var f :| f in todo;
      var found := FieldFaults(lib, t, rules[f], Get(data, f), id);
      var more, key := UniqueFault(lib, t, rules, data, id, f, now);
      CheckedStep(lib, t, rules, data, id, seen, rules.Keys - todo, faults, now, f, found, more);
      assert rules.Keys - todo + {f} == rules.Keys - (todo - {f});
      todo := todo - {f};
      faults, now := faults + found + more, now + key;
    }
    assert rules.Keys - {} == rules.Keys;
    AllChecked(lib, t, rules, data, id, seen, faults, now);
  }

  /** The faults of some of the fields, and the keys seen with theirs. */
  ghost predicate Checked(lib: Library, t: string, rules: map<string, Rule>, data: Fields, id: string,
                          seen: set<(string, string)>, done: set<string>, faults: seq<Fault>,
                          now: set<(string, string)>)
  {
    && done <= rules.Keys && About(faults, t, id)
    && (forall p :: p in now <==> p in seen || (p in UniqueKeys(lib, rules, data) && p.0 in done))
    && (Fault(Schema, t, id, NotUnique) in faults <==> exists f :: f in done && Clash(lib, rules, data, seen, f))
    && (forall x :: x in faults && x.problem != NotUnique ==> x.problem in VALUE_PROBLEMS)
    && ((exists x :: x in faults && x.problem != NotUnique) <==>
          exists f :: f in done && !FieldOk(lib, rules[f], Get(data, f)))
  }

  lemma NothingChecked(lib: Library, t: string, rules: map<string, Rule>, data: Fields, id: string,
                       seen: set<(string, string)>)
    ensures Checked(lib, t, rules, data, id, seen, rules.Keys - rules.Keys, [], seen)
  {
  }

  lemma CheckedStep(lib: Library, t: string, rules: map<string, Rule>, data: Fields, id: string,
                    seen: set<(string, string)>, done: set<string>, faults: seq<Fault>, now: set<(string, string)>,
                    f: string, found: seq<Fault>, more: seq<Fault>)
    requires Checked(lib, t, rules, data, id, seen, done, faults, now) && f in rules && f !in done
    requires About(found, t, id) && (forall x :: x in found ==> x.problem in VALUE_PROBLEMS)
    requires found == [] <==> FieldOk(lib, rules[f], Get(data, f))
    requires more == if Clash(lib, rules, data, now, f) then [Fault(Schema, t, id, NotUnique)] else []
    ensures Checked(lib, t, rules, data, id, seen, done + {f}, faults + found + more, now + KeyOf(lib, rules, data, f))
  {
    KeyStep(lib, rules, data, seen, now, f, done);
    hide FieldOk, Clash, KeyOf, UniqueKeys;
    assert found != [] ==> found[0] in faults + found + more;
  }

  lemma AllChecked(lib: Library, t: string, rules: map<string, Rule>, data: Fields, id: string,
                   seen: set<(string, string)>, faults: seq<Fault>, now: set<(string, string)>)
    requires Checked(lib, t, rules, data, id, seen, rules.Keys, faults, now)
    ensures About(faults, t, id) && now == seen + UniqueKeys(lib, rules, data)
    ensures faults == [] <==> FieldsOk(lib, rules, data) && UniqueKeys(lib, rules, data) !! seen
    ensures Fault(Schema, t, id, NotUnique) in faults <==> !(UniqueKeys(lib, rules, data) !! seen)
    ensures (forall f :: f in rules ==> FieldOk(lib, rules[f], Get(data, f))) ==>
              forall x :: x in faults ==> x.problem == NotUnique
    ensures UniqueKeys(lib, rules, data) !! seen ==> forall x :: x in faults ==> x.problem in VALUE_PROBLEMS
  {
    FieldsClash(lib, rules, data, seen);
    assert forall p :: p in UniqueKeys(lib, rules, data) ==> p.0 in rules by { hide NormalizedUniqueKey; }
    hide FieldOk, Clash, UniqueKeys;
    assert forall x :: x in faults && x.problem == NotUnique ==> x == Fault(Schema, t, id, NotUnique);
    assert faults != [] ==> faults[0] in faults;
  }

  /** The problems of one field, as faults. */
  method FieldFaults(lib: Library, t: string, rule: Rule, v: Value, id: string) returns (faults: seq<Fault>)
    ensures faults == [] <==> FieldOk(lib, rule, v)
    ensures About(faults, t, id) && forall x :: x in faults ==> x.problem in VALUE_PROBLEMS
  {
    faults := [];
    var problems := ValidateField(lib, rule, v);
    for i := 0 to |problems|
      invariant |faults| == i && About(faults, t, id) && forall x :: x in faults ==> x.problem in VALUE_PROBLEMS
    {
      faults := faults + [Fault(Schema, t, id, problems[i])];
    }
  }

  /** The key of a unique field, and a fault exactly if it was seen before. */
  method UniqueFault(lib: Library, t: string, rules: map<string, Rule>, data: Fields, id: string, f: string,
                     seen: set<(string, string)>)
      returns (faults: seq<Fault>, keys: set<(string, string)>)
    requires f in rules
    ensures keys == KeyOf(lib, rules, data, f)
    ensures faults == if Clash(lib, rules, data, seen, f) then [Fault(Schema, t, id, NotUnique)] else []
  {
    faults, keys := [], {};
    if rules[f].unique && f in data {
      var key := NormalizedUniqueKey(lib, data[f]);
      if key != "" {
        keys := {(f, key)};
        if (f, key) in seen {
          faults := [Fault(Schema, t, id, NotUnique)];
        }
      }
    }
  }

  /** The field's key was seen before. */
  ghost predicate Clash(lib: Library, rules: map<string, Rule>, data: Fields, seen: set<(string, string)>, f: string)
    requires f in rules
  {
    !(KeyOf(lib, rules, data, f) !! seen)
  }

  /** Other fields do not decide whether one clashes. */
  lemma KeyStep(lib: Library, rules: map<string, Rule>, data: Fields, seen: set<(string, string)>,
                now: set<(string, string)>, f: string, done: set<string>)
    requires f in rules && f !in done
    requires forall p :: p in now <==> p in seen || (p in UniqueKeys(lib, rules, data) && p.0 in done)
    ensures Clash(lib, rules, data, now, f) <==> Clash(lib, rules, data, seen, f)
    ensures forall p :: p in now + KeyOf(lib, rules, data, f) <==>
              p in seen || (p in UniqueKeys(lib, rules, data) && p.0 in done + {f})
  {
    hide FieldOk, NormalizedUniqueKey;
    KeysOfField(lib, rules, data, f);
  }

  lemma KeysOfField(lib: Library, rules: map<string, Rule>, data: Fields, f: string)
    requires f in rules
    ensures forall p :: p in KeyOf(lib, rules, data, f) <==> p in UniqueKeys(lib, rules, data) && p.0 == f
  {
    hide NormalizedUniqueKey;
  }

  lemma FieldsClash(lib: Library, rules: map<string, Rule>, data: Fields, seen: set<(string, string)>)
    ensures (exists f :: f in rules && Clash(lib, rules, data, seen, f)) <==> !(UniqueKeys(lib, rules, data) !! seen)
  {
    hide NormalizedUniqueKey;
    if f :| f in rules && Clash(lib, rules, data, seen, f) { KeysOfField(lib, rules, data, f); }
    if p :| p in UniqueKeys(lib, rules, data) && p in seen {
      KeysOfField(lib, rules, data, p.0);
      assert Clash(lib, rules, data, seen, p.0);
    }
  }

  function KeyOf(lib: Library, rules: map<string, Rule>, data: Fields, f: string): set<(string, string)>
    requires f in rules
  {
    if rules[f].unique && f in data && NormalizedUniqueKey(lib, data[f]) != ""
        then {(f, NormalizedUniqueKey(lib, data[f]))} else {}
  }

  // ---------- the records of one type ----------

  function IdsIn(rule: TypeRule, records: Records): set<string> {
    set r | r in records && RecordId(rule, r).Some? :: RecordId(rule, r).value
  }

  function KeysIn(lib: Library, rule: TypeRule, records: Records): set<(string, string)> {
    set r, p | r in records && p in RecordKeys(lib, rule, r) :: p
  }

  /** One more record keeps a type right exactly if it is right itself and repeats nothing. */
  lemma TypeOkStep(lib: Library, rule: TypeRule, records: Records, next: Option<Fields>)
    ensures TypeOk(lib, rule, records + [next]) <==>
              && TypeOk(lib, rule, records) && RecordOk(lib, rule, next)
              && RecordId(rule, next).value !in IdsIn(rule, records)
              && RecordKeys(lib, rule, next) !! KeysIn(lib, rule, records)
  {
    hide RecordOk, RecordKeys;
    var all := records + [next];
    assert forall k :: 0 <= k < |records| ==> all[k] == records[k];
    assert all[|records|] == next;
    NextDiffers(lib, rule, records, next);
    if TypeOk(lib, rule, all) {
      assert RecordOk(lib, rule, all[|records|]);
      forall k | 0 <= k < |records| ensures RecordOk(lib, rule, records[k]) { assert RecordOk(lib, rule, all[k]); }
      forall j, k | 0 <= j < k < |records| ensures RecordsDiffer(lib, rule, records[j], records[k]) {
        assert RecordsDiffer(lib, rule, all[j], all[k]);
      }
      forall k | 0 <= k < |records| ensures RecordsDiffer(lib, rule, records[k], next) {
        assert RecordsDiffer(lib, rule, all[k], all[|records|]);
      }
      RightHasId(lib, rule, next);
    }
    if TypeOk(lib, rule, records) && RecordOk(lib, rule, next) {
      RightHasId(lib, rule, next);
      forall k | 0 <= k < |all| ensures RecordOk(lib, rule, all[k]) { }
      if forall k :: 0 <= k < |records| ==> RecordsDiffer(lib, rule, records[k], next) {
        forall j, k | 0 <= j < k < |all| ensures RecordsDiffer(lib, rule, all[j], all[k]) {
          if k < |records| { assert RecordsDiffer(lib, rule, records[j], records[k]); }
        }
      }
    }
  }

  lemma RightHasId(lib: Library, rule: TypeRule, record: Option<Fields>)
    requires RecordOk(lib, rule, record)
    ensures RecordId(rule, record).Some?
  {
  }

  lemma NextDiffers(lib: Library, rule: TypeRule, records: Records, next: Option<Fields>)
    ensures (forall k :: 0 <= k < |records| ==> RecordsDiffer(lib, rule, records[k], next)) <==>
              && (RecordId(rule, next).Some? ==> RecordId(rule, next).value !in IdsIn(rule, records))
              && RecordKeys(lib, rule, next) !! KeysIn(lib, rule, records)
  {
    hide RecordKeys, RecordId;
    if forall k :: 0 <= k < |records| ==> RecordsDiffer(lib, rule, records[k], next) {
      forall r | r in records ensures RecordsDiffer(lib, rule, r, next) {
        var k :| 0 <= k < |records| && records[k] == r;
      }
    }
    if && (RecordId(rule, next).Some? ==> RecordId(rule, next).value !in IdsIn(rule, records))
       && RecordKeys(lib, rule, next) !! KeysIn(lib, rule, records) {
      forall k | 0 <= k < |records| ensures RecordsDiffer(lib, rule, records[k], next) {
        assert records[k] in records;
        forall p | p in RecordKeys(lib, rule, records[k]) ensures p in KeysIn(lib, rule, records) { }
      }
    }
  }

  /** The objects of a type by identifier: exactly one for each record. */
  ghost predicate Indexed(t: string, rule: TypeRule, records: Records, mine: map<string, Object>) {
    && mine.Keys == IdsIn(rule, records)
    && forall id :: id in mine ==> IsRecord(t, rule, records, mine[id]) && mine[id].id == id
  }

  ghost predicate IsRecord(t: string, rule: TypeRule, records: Records, o: Object) {
    o.typeName == t && Some(o.data) in records && IdOf(rule, o.data) == Some(o.id)
  }

  lemma IndexedStep(t: string, rule: TypeRule, records: Records, mine: map<string, Object>, data: Fields)
    requires Indexed(t, rule, records, mine) && IdOf(rule, data).Some?
    ensures var id := IdOf(rule, data).value; Indexed(t, rule, records + [Some(data)], mine[id := Object(t, id, data)])
  {
    var id := IdOf(rule, data).value;
    var all := records + [Some(data)];
    assert all[|records|] == Some(data);
    forall r | r in records ensures r in all { }
    forall i ensures i in IdsIn(rule, all) <==> i in mine || i == id {
      if i in IdsIn(rule, all) {
        var r :| r in all && RecordId(rule, r) == Some(i);
        assert r in records || r == Some(data);
      }
      if i == id { assert RecordId(rule, Some(data)) == Some(i); }
      if i in mine {
        assert i in IdsIn(rule, records);
        var r :| r in records && RecordId(rule, r) == Some(i);
        assert r in all;
      }
    }
  }

  class SchemaIndex {
    const w: World
    var byType: map<string, map<string, Object>>
    var byAssignable: map<string, map<string, seq<Object>>>

    constructor (w: World)
      ensures this.w == w && byType == map[] && byAssignable == map[]
    {
      this.w := w;
      byType, byAssignable := map[], map[];
    }

    /** No fault exactly when the type's records are right, and then the index holds exactly them. */
    method ValidateTypeSchema(t: string) returns (faults: seq<Fault>)
      requires w.Valid() && t in w.types
      modifies this`byType
      ensures faults == [] <==> TypeOk(w.lib, w.rules[t], w.records[t])
      ensures t in byType && byType == old(byType)[t := byType[t]]
      ensures forall id :: id in byType[t] ==> byType[t][id].typeName == t && byType[t][id].id == id
      ensures faults == [] ==> Indexed(t, w.rules[t], w.records[t], byType[t])
      ensures byType[t].Keys <= IdsIn(w.rules[t], w.records[t])
      ensures OfPhase(faults, Schema, w) && forall x :: x in faults ==> x.typeName == t
    {
      var rule, records := w.rules[t], w.records[t];
      hide *;
      faults := [];
      var mine: map<string, Object> := map[];
      var seen: set<(string, string)> := {};
      NoRecords(w, t);
      for i := 0 to |records|
        invariant byType == old(byType) && Progress(w, t, i, faults, mine, seen)
      {
        var found, now := ValidateRecord(t, rule, records[i], mine, seen);
        JudgedHasId(w.lib, t, rule, records[i], mine, seen, found, now);
        var entry := if found == [] then RecordObject(t, rule, records[i]) else map[];
        ProgressStep(w, t, i, faults, mine, seen, found, now, entry);
        faults, mine, seen := faults + found, mine + entry, now;
      }
      byType := byType[t := mine];
      AllRight(w, t, faults, mine, seen);
    }

    /** One record: what is wrong with it, and the keys seen with those of its unique fields. */
    method ValidateRecord(t: string, rule: TypeRule, record: Option<Fields>, mine: map<string, Object>,
                          seen: set<(string, string)>)
        returns (found: seq<Fault>, now: set<(string, string)>)
      ensures Judged(w.lib, t, rule, record, mine, seen, found, now)
    {
      hide UniqueKeys, FieldsOk;
      now := seen;
      var fault := RecordFault(t, rule, record, mine);
      if fault.Some? {
        return [fault.value], now;
      }
      found, now := ValidateFields(w.lib, t, rule.fields, record.value, IdOf(rule, record.value).value, seen);
    }

    /** The types are checked in the order given. */
    method ValidateTypes(names: seq<string>) returns (faults: seq<Fault>)
      requires w.Valid() && byType == map[] && forall n :: n in names ==> n in w.types
      modifies this`byType
      ensures (forall t :: t in byType <==> t in names) && WellTyped(w, byType)
      ensures faults == [] <==> forall t :: t in names ==> TypeOk(w.lib, w.rules[t], w.records[t])
      ensures faults == [] ==> forall t :: t in names ==> Indexed(t, w.rules[t], w.records[t], byType[t])
      ensures OfPhase(faults, Schema, w) && OnlyRecords(w, byType)
    {
      hide TypeOk, Indexed, Consistent, IdsIn;
      faults := [];
      for i := 0 to |names|
        invariant forall t :: t in byType <==> exists k :: 0 <= k < i && names[k] == t
        invariant WellTyped(w, byType) && OfPhase(faults, Schema, w) && OnlyRecords(w, byType)
        invariant faults == [] <==> forall k :: 0 <= k < i ==> TypeOk(w.lib, w.rules[names[k]], w.records[names[k]])
        invariant faults == [] ==> forall k :: 0 <= k < i ==>
                  Indexed(names[k], w.rules[names[k]], w.records[names[k]], byType[names[k]])
      {
        var more := ValidateTypeSchema(names[i]);
        faults := faults + more;
      }
    }

    method ValidateAllTypes() returns (faults: seq<Fault>)
      requires w.Valid() && byType == map[]
      modifies this`byType
      ensures byType.Keys == w.types.Keys && WellTyped(w, byType)
      ensures faults == [] <==> forall t :: t in w.types ==> TypeOk(w.lib, w.rules[t], w.records[t])
      ensures faults == [] ==> forall t :: t in w.types ==> Indexed(t, w.rules[t], w.records[t], byType[t])
      ensures OfPhase(faults, Schema, w) && OnlyRecords(w, byType)
    {
      hide TypeOk, Indexed, Consistent, StrictlySorted, WellTyped;
      var names := SortedKeys(w.types.Keys);
      faults := ValidateTypes(names);
      assert byType.Keys == w.types.Keys;
    }

    /**
     No fault exactly when every type's records are right and no identifier is repeated within an inheritance
     tree.
    */
    method ValidateSchema() returns (faults: seq<Fault>)
      requires w.Valid() && byType == map[] && byAssignable == map[]
      modifies this
      ensures faults == [] <==> SchemaOk(w)
      ensures faults == [] ==> IndexHolds(w, byAssignable)
      ensures OfPhase(faults, Schema, w)
    {
      faults := ValidateAllTypes();
      hide TypeOk, Indexed, IndexHolds, Lists, NoClash, WellTyped, Consistent;
      ghost var right := faults == [];
      var conflicts := BuildAssignableIndex();
      faults := faults + conflicts;
      if right {
        hide SchemaOk;
        SchemaHolds(w, byType, byAssignable);
      }
    }

    /**
     Every object of the first index is listed in the second, and a fault is raised for each repeated within a
     tree.
    */
    method BuildAssignableIndex() returns (faults: seq<Fault>)
      requires w.Valid() && WellTyped(w, byType) && OnlyRecords(w, byType) && byAssignable == map[]
      modifies this`byAssignable
      ensures faults == [] <==> NoClash(w, Pairs(byType))
      ensures OfPhase(faults, Schema, w)
      ensures Lists(w, byType, Pairs(byType), byAssignable)
    {
      var names := SortedKeys(w.types.Keys);
      faults := IndexTypes(names);
      AllPairs(w, byType, names);
    }

    method IndexTypes(names: seq<string>) returns (faults: seq<Fault>)
      requires w.Valid() && WellTyped(w, byType) && OnlyRecords(w, byType) && byAssignable == map[]
      requires StrictlySorted(names) && forall n :: n in names ==> n in w.types
      modifies this`byAssignable
      ensures faults == [] <==> NoClash(w, PairsOf(byType, names))
      ensures Lists(w, byType, PairsOf(byType, names), byAssignable)
      ensures OfPhase(faults, Schema, w)
    {
      hide Lists, NoClash, PairsOf, WellTyped, StrictlySorted, Consistent;
      faults := [];
      NothingListed(w, byType);
      for i := 0 to |names|
        invariant Lists(w, byType, PairsOf(byType, names[..i]), byAssignable)
        invariant faults == [] <==> NoClash(w, PairsOf(byType, names[..i]))
        invariant OfPhase(faults, Schema, w)
      {
        PairsStep(byType, names, i);
        if names[i] in byType {
          var more := IndexType(names, i);
          faults := faults + more;
        } else {
          assert PairsOf(byType, names[..i]) + {} == PairsOf(byType, names[..i]);
        }
      }
      assert names[..|names|] == names;
    }

    /** Index the objects of one type, in the order of their identifiers. */
    method IndexType(names: seq<string>, i: nat) returns (faults: seq<Fault>)
      requires w.Valid() && WellTyped(w, byType) && i < |names| && StrictlySorted(names) && names[i] in byType
               && names[i] in w.types && OnlyRecords(w, byType)
      requires Lists(w, byType, PairsOf(byType, names[..i]), byAssignable)
      modifies this`byAssignable
      ensures var done := PairsOf(byType, names[..i]) + PairsWith(names[i], SortedKeys(byType[names[i]].Keys));
              && Lists(w, byType, done, byAssignable)
              && (faults == [] && NoClash(w, PairsOf(byType, names[..i])) <==> NoClash(w, done))
      ensures Conflicts(faults, w)
    {
      hide *;
      faults := [];
      NoFaults(w);
      var t := names[i];
      var ids := SortedKeys(byType[t].Keys);
      ghost var index := byType;
      ghost var clear := NoClash(w, PairsOf(index, names[..i]));
      DoneEnds(index, names, i);
      for j := 0 to |ids|
        invariant byType == index && Lists(w, index, PairsDone(index, names, i, j), byAssignable)
        invariant faults == [] && clear <==> NoClash(w, PairsDone(index, names, i, j))
        invariant Conflicts(faults, w)
      {
        DoneStep(index, names, i, j);
        faults := IndexObject(t, ids[j], PairsDone(index, names, i, j), faults, clear);
      }
    }

    /** Index one object; a fault follows those before it exactly if the object clashes with one indexed. */
    method IndexObject(t: string, id: string, ghost done: set<(string, string)>, before: seq<Fault>, ghost clear: bool)
        returns (faults: seq<Fault>)
      requires w.Valid() && WellTyped(w, byType) && OnlyRecords(w, byType) && Lists(w, byType, done, byAssignable)
      requires t in byType && t in w.types && id in byType[t] && (t, id) !in done && Conflicts(before, w)
      requires forall p :: p in done ==> ObjectAt(byType, p.0, p.1).Some?
      requires before == [] && clear <==> NoClash(w, done)
      modifies this`byAssignable
      ensures Lists(w, byType, done + {(t, id)}, byAssignable) && Conflicts(faults, w)
      ensures faults == [] && clear <==> NoClash(w, done + {(t, id)})
    {
      hide *;
      ObjectIsAt(w, byType, t, id);
      var fault := AddObject(byType[t][id], done);
      NoClashStep(w, done, t, id);
      ConflictIsAbout(w, byType, before, t, id);
      return if fault.Some? then before + [fault.value] else before;
    }

    /** List an object under its type and every ancestor; report one already listed there under its identifier. */
    method AddObject(o: Object, ghost done: set<(string, string)>) returns (fault: Option<Fault>)
      requires w.Valid() && WellTyped(w, byType) && Lists(w, byType, done, byAssignable)
      requires o.typeName in w.types && ObjectAt(byType, o.typeName, o.id) == Some(o) && (o.typeName, o.id) !in done
      requires forall p :: p in done ==> ObjectAt(byType, p.0, p.1).Some?
      modifies this`byAssignable
      ensures Lists(w, byType, done + {(o.typeName, o.id)}, byAssignable)
      ensures fault == if !Clashes(w, done, o.typeName, o.id) then None
                       else Some(Fault(Schema, o.typeName, o.id, DuplicateInHierarchy))
    {
      hide Lists, Clashes, WellTyped, World.Valid, AddAll;
      ClashShows(w, byType, done, byAssignable, o);
      var conflict := FindConflict(AssignableTo(w, o.typeName), o.id);
      fault := if conflict.Some? then Some(Fault(Schema, o.typeName, o.id, DuplicateInHierarchy)) else None;
      ListsStep(w, byType, done, byAssignable, o);
      ListEverywhere(AssignableTo(w, o.typeName), o);
    }

    /** The first object listed under one of the names. */
    method FindConflict(assignableTo: seq<string>, id: string) returns (conflict: Option<Object>)
      ensures conflict.None? <==> forall k :: 0 <= k < |assignableTo| ==>
              Listed(byAssignable, assignableTo[k], id) == []
    {
      for i := 0 to |assignableTo|
        invariant forall k :: 0 <= k < i ==> Listed(byAssignable, assignableTo[k], id) == []
      {
        var matches := Listed(byAssignable, assignableTo[i], id);
        if |matches| > 0 { return Some(matches[0]); }
      }
      return None;
    }

    method ListEverywhere(assignableTo: seq<string>, o: Object)
      modifies this`byAssignable
      ensures byAssignable == AddAll(old(byAssignable), assignableTo, o)
    {
      for k := 0 to |assignableTo|
        invariant byAssignable == AddAll(old(byAssignable), assignableTo[..k], o)
      {
        assert assignableTo[..k + 1][..k] == assignableTo[..k];
        byAssignable := AddTo(byAssignable, assignableTo[k], o);
      }
      assert assignableTo[..|assignableTo|] == assignableTo;
    }

    // ---------- references ----------

    /** Of the types a field may refer to, those under which the identifier is listed. */
    method ResolveReferenceTypes(refTypes: seq<string>, id: string) returns (matches: seq<string>)
      requires w.Valid() && IndexHolds(w, byAssignable)
      ensures matches == Matching(w, refTypes, id)
    {
      hide IndexHolds, Holds, Consistent;
      matches := [];
      for i := 0 to |refTypes|
        invariant matches == Matching(w, refTypes[..i], id)
      {
        assert refTypes[..i + 1][..i] == refTypes[..i];
        HoldsIsListed(w, byAssignable, refTypes[i], id);
        var assignable := AssignableTypes(w.types, refTypes[i]);
        if |assignable| == 0 { continue; }
        if |Listed(byAssignable, refTypes[i], id)| == 0 { continue; }
        matches := matches + [refTypes[i]];
      }
      assert refTypes[..|refTypes|] == refTypes;
    }

    method ReferenceFaults(t: string, id: string, refTypes: seq<string>, targets: seq<string>)
        returns (faults: seq<Fault>)
      requires w.Valid() && IndexHolds(w, byAssignable)
      ensures faults == [] <==> forall k :: 0 <= k < |targets| ==> |Matching(w, refTypes, targets[k])| == 1
      ensures forall x :: x in faults ==>
                x == Fault(References, t, id, MissingTarget) || x == Fault(References, t, id, AmbiguousTarget)
      ensures Fault(References, t, id, MissingTarget) in faults <==>
                exists k :: 0 <= k < |targets| && Matching(w, refTypes, targets[k]) == []
      ensures Fault(References, t, id, AmbiguousTarget) in faults <==>
                exists k :: 0 <= k < |targets| && |Matching(w, refTypes, targets[k])| > 1
    {
      hide IndexHolds, Matching, Consistent;
      faults := [];
      for i := 0 to |targets|
        invariant faults == [] <==> forall k :: 0 <= k < i ==> |Matching(w, refTypes, targets[k])| == 1
        invariant forall x :: x in faults ==>
                    x == Fault(References, t, id, MissingTarget) || x == Fault(References, t, id, AmbiguousTarget)
        invariant Fault(References, t, id, MissingTarget) in faults <==>
                    exists k :: 0 <= k < i && Matching(w, refTypes, targets[k]) == []
        invariant Fault(References, t, id, AmbiguousTarget) in faults <==>
                    exists k :: 0 <= k < i && |Matching(w, refTypes, targets[k])| > 1
      {
        var matches := ResolveReferenceTypes(refTypes, targets[i]);
        if |matches| == 0 {
          faults := faults + [Fault(References, t, id, MissingTarget)];
          continue;
        }
        if |matches| > 1 {
          faults := faults + [Fault(References, t, id, AmbiguousTarget)];
        }
      }
    }

    /** The reference fields of one record, visited in any order. */
    method RecordReferences(t: string, id: string, data: Fields) returns (faults: seq<Fault>)
      requires w.Valid() && t in w.types && IndexHolds(w, byAssignable)
      ensures faults == [] <==> ReferencesResolve(w, t, data)
      ensures forall x :: x in faults ==> x.phase == References && x.typeName == t && x.id == id
    {
      hide IndexHolds, Matching, Consistent;
      faults := [];
      var rules := w.rules[t].fields;
      var todo := rules.Keys;
      while todo != {}
        invariant todo <= rules.Keys
        invariant faults == [] <==> forall f :: f in rules && f !in todo ==> FieldResolves(w, rules[f], Get(data, f))
        invariant forall x :: x in faults ==> x.phase == References && x.typeName == t && x.id == id
        decreases |todo|
      {
        var f :| f in todo;
        todo := todo - {f};
        if rules[f].referenceTypes == [] { continue; }
        var targets := CollectReferenceValues(Get(data, f), rules[f].repeated);
        var more := ReferenceFaults(t, id, rules[f].referenceTypes, targets);
        faults := faults + more;
      }
    }

    method TypeReferences(t: string) returns (faults: seq<Fault>)
      requires w.Valid() && t in w.types && IndexHolds(w, byAssignable)
      ensures faults == [] <==> TypeResolves(w, t)
      ensures OfPhase(faults, References, w)
    {
      hide IndexHolds, ReferencesResolve, Consistent, IdOf;
      faults := [];
      var records := w.records[t];
      for i := 0 to |records|
        invariant faults == [] <==> forall k :: 0 <= k < i ==> RecordResolves(w, t, records[k])
        invariant OfPhase(faults, References, w)
      {
        var id := RecordId(w.rules[t], records[i]);
        if id.None? { continue; }
        var more := RecordReferences(t, id.value, records[i].value);
        faults := faults + more;
      }
    }

    /** No fault exactly when every top-level reference resolves in exactly one of its field's types. */
    method ValidateReferences() returns (faults: seq<Fault>)
      requires w.Valid() && IndexHolds(w, byAssignable)
      ensures faults == [] <==> ReferencesOk(w)
      ensures OfPhase(faults, References, w)
    {
      var names := SortedKeys(w.types.Keys);
      faults := ReferencesOfTypes(names);
    }

    method ReferencesOfTypes(names: seq<string>) returns (faults: seq<Fault>)
      requires w.Valid() && IndexHolds(w, byAssignable) && forall n :: n in names ==> n in w.types
      ensures faults == [] <==> forall n :: n in names ==> TypeResolves(w, n)
      ensures OfPhase(faults, References, w)
    {
      hide IndexHolds, TypeResolves, Consistent;
      faults := [];
      for i := 0 to |names|
        invariant faults == [] <==> forall k :: 0 <= k < i ==> TypeResolves(w, names[k])
        invariant OfPhase(faults, References, w)
      {
        var more := TypeReferences(names[i]);
        faults := faults + more;
      }
    }

    /** What is wrong with a record before its fields are looked at. */
    method RecordFault(t: string, rule: TypeRule, record: Option<Fields>, mine: map<string, Object>)
        returns (fault: Option<Fault>)
      ensures fault.None? <==>
                && record.Some? && IdOf(rule, record.value).Some?
                && IdMatches(w.lib, rule, IdOf(rule, record.value).value) && IdOf(rule, record.value).value !in mine
      ensures fault == Some(Fault(Schema, t, "", Empty)) <==> record.None?
      ensures fault == Some(Fault(Schema, t, "", NoIdentifier)) <==> record.Some? && IdOf(rule, record.value).None?
      ensures record.Some? && IdOf(rule, record.value).Some? && fault.Some? ==>
                var id := IdOf(rule, record.value).value;
                && fault.value.phase == Schema && fault.value.typeName == t && fault.value.id == id
                && (fault.value.problem == DuplicateIdentifier <==> IdMatches(w.lib, rule, id))
                && (fault.value.problem == PatternInvalid <==>
                      rule.idPattern != "" && w.lib.matches(rule.idPattern, id) == None)
                && fault.value.problem in {DuplicateIdentifier, PatternInvalid, IdentifierPattern}
    {
      if record.None? { return Some(Fault(Schema, t, "", Empty)); }
      var id := IdOf(rule, record.value);
      if id.None? { return Some(Fault(Schema, t, "", NoIdentifier)); }
      if rule.idPattern != "" {
        var matched := w.lib.matches(rule.idPattern, id.value);
        if matched.None? { return Some(Fault(Schema, t, id.value, PatternInvalid)); }
        if !matched.value { return Some(Fault(Schema, t, id.value, IdentifierPattern)); }
      }
      if id.value in mine { return Some(Fault(Schema, t, id.value, DuplicateIdentifier)); }
      return None;
    }
  }

  lemma RecordIdIn(rule: TypeRule, records: Records, i: nat)
    requires i < |records| && records[i].Some? && IdOf(rule, records[i].value).Some?
    ensures IdOf(rule, records[i].value).value in IdsIn(rule, records)
  {
    assert RecordId(rule, records[i]).Some? && records[i] in records;
  }

  lemma NothingYet(lib: Library, t: string, rule: TypeRule)
    ensures TypeOk(lib, rule, []) && Indexed(t, rule, [], map[]) && IdsIn(rule, []) == {} && KeysIn(lib, rule, []) == {}
  {
  }

  lemma IndexedKeys(t: string, rule: TypeRule, records: Records, mine: map<string, Object>)
    ensures Indexed(t, rule, records, mine) ==> mine.Keys == IdsIn(rule, records)
  {
  }

  lemma KeysStep(lib: Library, rule: TypeRule, records: Records, data: Fields)
    ensures KeysIn(lib, rule, records + [Some(data)]) == KeysIn(lib, rule, records) + UniqueKeys(lib, rule.fields, data)
    ensures RecordKeys(lib, rule, Some(data)) == UniqueKeys(lib, rule.fields, data)
  {
    hide UniqueKeys;
    var all := records + [Some(data)];
    assert all[|records|] == Some(data);
    forall p ensures p in KeysIn(lib, rule, all) <==>
        p in KeysIn(lib, rule, records) || p in UniqueKeys(lib, rule.fields, data) {
      if p in KeysIn(lib, rule, all) {
        var r :| r in all && p in RecordKeys(lib, rule, r);
        assert r in records || r == Some(data);
      }
      if p in KeysIn(lib, rule, records) {
        var r :| r in records && p in RecordKeys(lib, rule, r);
        assert r in all;
      }
      if p in UniqueKeys(lib, rule.fields, data) { assert Some(data) in all && p in RecordKeys(lib, rule, Some(data)); }
    }
  }

  // ---------- the index by assignable type ----------

  type ByType = map<string, map<string, Object>>
  type ByAssignable = map<string, map<string, seq<Object>>>

  /** The objects listed for a type and an identifier. */
  function Listed(index: ByAssignable, q: string, id: string): seq<Object> {
    if q in index && id in index[q] then index[q][id] else []
  }

  function AssignableTo(w: World, t: string): seq<string>
    requires t in w.types
  {
    [t] + w.types[t].ancestors
  }

  function AddTo(index: ByAssignable, q: string, o: Object): ByAssignable {
    var inner := if q in index then index[q] else map[];
    index[q := inner[o.id := (if o.id in inner then inner[o.id] else []) + [o]]]
  }

  lemma AddToListed(index: ByAssignable, q: string, o: Object, p: string, id: string)
    ensures Listed(AddTo(index, q, o), p, id) == Listed(index, p, id) + (if p == q && id == o.id then [o] else [])
  {
    assert Listed(index, p, id) + [] == Listed(index, p, id);
  }

  /**
   The index lists, for each type and identifier, exactly the reached objects of types assignable to it, each
   once.
  */
  ghost predicate Lists(w: World, byType: ByType, done: set<(string, string)>, index: ByAssignable) {
    && (forall q, id, o :: o in Listed(index, q, id) <==>
          (o.typeName, id) in done && ObjectAt(byType, o.typeName, id) == Some(o)
              && InheritsFrom(w.types, o.typeName, q))
    && (forall q, id :: DistinctTypes(Listed(index, q, id)))
  }

  ghost predicate DistinctTypes(objects: seq<Object>) {
    forall i, j :: 0 <= i < j < |objects| ==> objects[i].typeName != objects[j].typeName
  }

  function ObjectAt(byType: ByType, t: string, id: string): Option<Object> {
    if t in byType && id in byType[t] then Some(byType[t][id]) else None
  }

  function AddAll(index: ByAssignable, qs: seq<string>, o: Object): ByAssignable {
    if qs == [] then index else AddTo(AddAll(index, qs[..|qs| - 1], o), qs[|qs| - 1], o)
  }

  lemma {:induction false} AddAllListed(index: ByAssignable, qs: seq<string>, o: Object, p: string, id: string)
    requires Distinct(qs)
    ensures Listed(AddAll(index, qs, o), p, id) == Listed(index, p, id) + (if p in qs && id == o.id then [o] else [])
  {
    hide Listed, AddTo;
    assert Listed(index, p, id) + [] == Listed(index, p, id);
    if qs != [] {
      var most, last := qs[..|qs| - 1], qs[|qs| - 1];
      AddAllListed(index, most, o, p, id);
      AddToListed(AddAll(index, most, o), last, o, p, id);
      assert qs == most + [last] && last !in most;
      assert Listed(index, p, id) + [o] + [] == Listed(index, p, id) + [o];
    }
  }

  ghost predicate WellTyped(w: World, byType: ByType) {
    forall t :: t in byType ==>
      t in w.types && forall id :: id in byType[t] ==> byType[t][id].typeName == t && byType[t][id].id == id
  }

  function PairsWith(t: string, ids: seq<string>): set<(string, string)> {
    set id | id in ids :: (t, id)
  }

  ghost function PairsOf(byType: ByType, names: seq<string>): set<(string, string)> {
    set t, id | t in names && t in byType && id in byType[t] :: (t, id)
  }

  ghost function Pairs(byType: ByType): set<(string, string)> {
    set t, id | t in byType && id in byType[t] :: (t, id)
  }

  lemma PairsStep(byType: ByType, names: seq<string>, i: nat)
    requires i < |names|
    ensures PairsOf(byType, names[..i + 1]) ==
            PairsOf(byType, names[..i]) + (if names[i] in byType
                                           then PairsWith(names[i], SortedKeys(byType[names[i]].Keys)) else {})
  {
    assert names[..i + 1] == names[..i] + [names[i]];
  }

  /** The pairs indexed when j objects of the i-th type are. */
  ghost function PairsDone(byType: ByType, names: seq<string>, i: nat, j: nat): set<(string, string)>
    requires i < |names| && names[i] in byType && j <= |SortedKeys(byType[names[i]].Keys)|
  {
    PairsOf(byType, names[..i]) + PairsWith(names[i], SortedKeys(byType[names[i]].Keys)[..j])
  }

  lemma DoneEnds(byType: ByType, names: seq<string>, i: nat)
    requires i < |names| && names[i] in byType
    ensures var ids := SortedKeys(byType[names[i]].Keys);
            && PairsDone(byType, names, i, 0) == PairsOf(byType, names[..i])
            && PairsDone(byType, names, i, |ids|) == PairsOf(byType, names[..i]) + PairsWith(names[i], ids)
  {
    var ids := SortedKeys(byType[names[i]].Keys);
    assert ids[..|ids|] == ids && ids[..0] == [];
  }

  lemma DoneStep(byType: ByType, names: seq<string>, i: nat, j: nat)
    requires i < |names| && names[i] in byType && StrictlySorted(names)
    requires j < |SortedKeys(byType[names[i]].Keys)|
    ensures var id := SortedKeys(byType[names[i]].Keys)[j];
            && id in byType[names[i]] && (names[i], id) !in PairsDone(byType, names, i, j)
            && PairsDone(byType, names, i, j + 1) == PairsDone(byType, names, i, j) + {(names[i], id)}
    ensures forall p :: p in PairsDone(byType, names, i, j) ==> ObjectAt(byType, p.0, p.1).Some?
  {
    var ids := SortedKeys(byType[names[i]].Keys);
    hide StrictlySorted;
    assert ids[j] in ids;
    NotYetDone(byType, names, i, ids, j);
  }

  lemma ObjectIsAt(w: World, byType: ByType, t: string, id: string)
    requires WellTyped(w, byType) && t in byType && id in byType[t]
    ensures ObjectAt(byType, t, id) == Some(byType[t][id]) && byType[t][id].typeName == t && byType[t][id].id == id
  {
  }

  lemma NotYetDone(byType: ByType, names: seq<string>, i: nat, ids: seq<string>, j: nat)
    requires i < |names| && j < |ids| && StrictlySorted(names) && StrictlySorted(ids) && names[i] in byType
    requires forall id :: id in ids ==> id in byType[names[i]]
    ensures (names[i], ids[j]) !in PairsOf(byType, names[..i]) + PairsWith(names[i], ids[..j])
    ensures forall p :: p in PairsOf(byType, names[..i]) + PairsWith(names[i], ids[..j]) ==>
            ObjectAt(byType, p.0, p.1).Some?
    ensures PairsWith(names[i], ids[..j + 1]) == PairsWith(names[i], ids[..j]) + {(names[i], ids[j])}
  {
    assert ids[..j + 1] == ids[..j] + [ids[j]];
    NotBefore(names, i);
    NotBefore(ids, j);
  }

  lemma NotBefore(xs: seq<string>, i: nat)
    requires StrictlySorted(xs) && i < |xs|
    ensures xs[i] !in xs[..i]
  {
    hide Leq;
    forall k | 0 <= k < i ensures xs[..i][k] != xs[i] { assert Less(xs[k], xs[i]); }
  }

  lemma NothingListed(w: World, byType: ByType)
    ensures PairsOf(byType, []) == {} && Lists(w, byType, {}, map[]) && NoClash(w, {})
  {
  }

  lemma AllPairs(w: World, byType: ByType, names: seq<string>)
    requires WellTyped(w, byType) && forall n :: n in w.types ==> n in names
    ensures PairsOf(byType, names) == Pairs(byType)
  {
  }

  ghost predicate Clashes(w: World, done: set<(string, string)>, t: string, id: string)
    requires t in w.types
  {
    exists u :: u in w.types && (u, id) in done && Root(w.types, u) == Root(w.types, t)
  }

  /** No two types of one tree share an identifier. */
  ghost predicate NoClash(w: World, done: set<(string, string)>) {
    forall u, v, id :: u in w.types && v in w.types && u != v && (u, id) in done && (v, id) in done
      ==> Root(w.types, u) != Root(w.types, v)
  }

  lemma NoClashStep(w: World, done: set<(string, string)>, t: string, id: string)
    requires t in w.types && (t, id) !in done
    ensures NoClash(w, done + {(t, id)}) <==> NoClash(w, done) && !Clashes(w, done, t, id)
  {
    hide Root;
    var more := done + {(t, id)};
    if NoClash(w, more) {
      forall u | u in w.types && (u, id) in done ensures Root(w.types, u) != Root(w.types, t) {
        assert (u, id) in more && (t, id) in more;
      }
    }
  }

  /** Two types are assignable to a common type exactly when they are of one tree. */
  lemma CommonAncestor(cfg: map<string, TypeDef>, t: string, u: string)
    requires Consistent(cfg) && t in cfg && u in cfg
    ensures (exists q :: InheritsFrom(cfg, t, q) && InheritsFrom(cfg, u, q)) <==> Root(cfg, t) == Root(cfg, u)
  {
    if q :| InheritsFrom(cfg, t, q) && InheritsFrom(cfg, u, q) {
      SubtypesShareRoot(cfg, q, t);
      SubtypesShareRoot(cfg, q, u);
    }
    TreeOfRoot(cfg, t, u);
    TreeOfRoot(cfg, t, t);
  }

  lemma AssignableToNames(w: World, t: string)
    requires w.Valid() && t in w.types
    ensures Distinct(AssignableTo(w, t))
    ensures forall q :: q in AssignableTo(w, t) <==> InheritsFrom(w.types, t, q)
  {
    DistinctLineage(w.types, t);
    RotatedDistinct(w.types[t].ancestors, t);
    var ancestors := w.types[t].ancestors;
    hide Consistent, Distinct;
    forall q | q in ancestors ensures q in w.types {
      var i :| 0 <= i < |ancestors| && ancestors[i] == q;
      AncestorsNest(w.types, t, i);
    }
  }

  lemma RotatedDistinct(xs: seq<string>, x: string)
    requires Distinct(xs + [x])
    ensures Distinct([x] + xs)
  {
    var line, all := xs + [x], [x] + xs;
    forall i, j | 0 <= i < j < |all| ensures all[i] != all[j] {
      assert all[j] == line[j - 1];
      assert i > 0 ==> all[i] == line[i - 1];
      assert line[|xs|] == x;
    }
  }

  /** Something is listed where an object is about to be exactly when its identifier is taken in its tree. */
  lemma ClashShows(w: World, byType: ByType, done: set<(string, string)>, index: ByAssignable, o: Object)
    requires w.Valid() && o.typeName in w.types && WellTyped(w, byType) && Lists(w, byType, done, index)
    requires forall p :: p in done ==> ObjectAt(byType, p.0, p.1).Some?
    ensures (forall k :: 0 <= k < |AssignableTo(w, o.typeName)| ==>
             Listed(index, AssignableTo(w, o.typeName)[k], o.id) == [])
            <==> !Clashes(w, done, o.typeName, o.id)
  {
    hide Root, InheritsFrom, Consistent, DistinctTypes, Listed, AssignableTo;
    var qs := AssignableTo(w, o.typeName);
    AssignableToNames(w, o.typeName);
    if Clashes(w, done, o.typeName, o.id) {
      var u :| u in w.types && (u, o.id) in done && Root(w.types, u) == Root(w.types, o.typeName);
      CommonAncestor(w.types, o.typeName, u);
      var q :| InheritsFrom(w.types, o.typeName, q) && InheritsFrom(w.types, u, q);
      assert q in qs;
      var k :| 0 <= k < |qs| && qs[k] == q;
      assert ObjectAt(byType, u, o.id).value in Listed(index, q, o.id);
    }
    if k :| 0 <= k < |qs| && Listed(index, qs[k], o.id) != [] {
      assert qs[k] in qs;
      var other := Listed(index, qs[k], o.id)[0];
      assert other in Listed(index, qs[k], o.id);
      CommonAncestor(w.types, o.typeName, other.typeName);
      assert Clashes(w, done, o.typeName, o.id);
    }
  }

  lemma ListsStep(w: World, byType: ByType, done: set<(string, string)>, index: ByAssignable, o: Object)
    requires w.Valid() && WellTyped(w, byType) && Lists(w, byType, done, index) && o.typeName in w.types
    requires ObjectAt(byType, o.typeName, o.id) == Some(o) && (o.typeName, o.id) !in done
    ensures Lists(w, byType, done + {(o.typeName, o.id)}, AddAll(index, AssignableTo(w, o.typeName), o))
  {
    hide InheritsFrom, Consistent, AddAll, DistinctTypes, Listed, ObjectAt;
    var qs := AssignableTo(w, o.typeName);
    AssignableToNames(w, o.typeName);
    var now := AddAll(index, qs, o);
    var more := done + {(o.typeName, o.id)};
    forall q, id ensures DistinctTypes(Listed(now, q, id)) {
      AddAllListed(index, qs, o, q, id);
      forall x | x in Listed(index, q, id) && id == o.id ensures x.typeName != o.typeName { }
      AppendedTypes(Listed(index, q, id), o);
      assert Listed(index, q, id) + [] == Listed(index, q, id);
    }
    forall q, id, x
      ensures x in Listed(now, q, id) <==>
              (x.typeName, id) in more && ObjectAt(byType, x.typeName, id) == Some(x)
                  && InheritsFrom(w.types, x.typeName, q)
    {
      AddAllListed(index, qs, o, q, id);
      if x.typeName == o.typeName && id == o.id && ObjectAt(byType, x.typeName, id) == Some(x) { assert x == o; }
    }
  }

  lemma AppendedTypes(objects: seq<Object>, o: Object)
    requires DistinctTypes(objects)
    ensures (forall x :: x in objects ==> x.typeName != o.typeName) ==> DistinctTypes(objects + [o])
  {
  }

  // ---------- the schema phase ----------

  /** Every type's records are right, and identifiers are unique across each inheritance tree. */
  ghost predicate SchemaOk(w: World)
    requires w.Valid()
  {
    && (forall t :: t in w.types ==> TypeOk(w.lib, w.rules[t], w.records[t]))
    && (forall t, u :: t in w.types && u in w.types && t != u && Root(w.types, t) == Root(w.types, u)
          ==> IdsIn(w.rules[t], w.records[t]) !! IdsIn(w.rules[u], w.records[u]))
  }

  /** Listed under a type and an identifier are exactly the records with it whose type is assignable, each once. */
  ghost predicate IndexHolds(w: World, index: ByAssignable)
    requires w.Valid()
  {
    && (forall q, id, o :: o in Listed(index, q, id) <==>
          o.id == id && InheritsFrom(w.types, o.typeName, q)
              && IsRecord(o.typeName, w.rules[o.typeName], w.records[o.typeName], o))
    && (forall q, id :: DistinctTypes(Listed(index, q, id)))
  }

  lemma SchemaHolds(w: World, byType: ByType, index: ByAssignable)
    requires w.Valid() && byType.Keys == w.types.Keys && WellTyped(w, byType)
    requires forall t :: t in w.types ==>
             TypeOk(w.lib, w.rules[t], w.records[t]) && Indexed(t, w.rules[t], w.records[t], byType[t])
    requires Lists(w, byType, Pairs(byType), index)
    ensures SchemaOk(w) <==> NoClash(w, Pairs(byType))
    ensures IndexHolds(w, index)
  {
    hide Root, InheritsFrom, TypeOk, Consistent, DistinctTypes, Indexed, Listed, IsRecord;
    forall t, id | t in w.types ensures (t, id) in Pairs(byType) <==> id in IdsIn(w.rules[t], w.records[t]) {
      IndexedKeys(t, w.rules[t], w.records[t], byType[t]);
    }
    IndexedRecords(w, byType, index);
  }

  lemma IndexedRecords(w: World, byType: ByType, index: ByAssignable)
    requires w.Valid() && byType.Keys == w.types.Keys && WellTyped(w, byType)
    requires forall t :: t in w.types ==>
             TypeOk(w.lib, w.rules[t], w.records[t]) && Indexed(t, w.rules[t], w.records[t], byType[t])
    requires Lists(w, byType, Pairs(byType), index)
    ensures IndexHolds(w, index)
  {
    hide Root, TypeOk, Consistent, DistinctTypes, Indexed, Listed, IsRecord;
    forall q, id, o
      ensures o in Listed(index, q, id) <==>
              o.id == id && InheritsFrom(w.types, o.typeName, q)
                  && IsRecord(o.typeName, w.rules[o.typeName], w.records[o.typeName], o)
    {
      var t := o.typeName;
      assert o in Listed(index, q, id) <==>
             (t, id) in Pairs(byType) && ObjectAt(byType, t, id) == Some(o) && InheritsFrom(w.types, t, q);
      if t in w.types {
        OneRecordEach(w.lib, t, w.rules[t], w.records[t], byType[t], o);
      }
    }
  }

  /** With distinct identifiers, the object indexed under an identifier is the only record that has it. */
  lemma OneRecordEach(lib: Library, t: string, rule: TypeRule, records: Records, mine: map<string, Object>, o: Object)
    requires TypeOk(lib, rule, records) && Indexed(t, rule, records, mine) && o.typeName == t
    ensures o.id in mine && mine[o.id] == o <==> IsRecord(t, rule, records, o)
  {
    hide RecordOk, RecordKeys;
    if IsRecord(t, rule, records, o) {
      assert RecordId(rule, Some(o.data)) == Some(o.id);
      var p := mine[o.id];
      assert IsRecord(t, rule, records, p) && RecordId(rule, Some(p.data)) == Some(o.id);
      var j :| 0 <= j < |records| && records[j] == Some(o.data);
      var k :| 0 <= k < |records| && records[k] == Some(p.data);
      SamePlace(lib, rule, records, j, k);
      SamePlace(lib, rule, records, k, j);
    }
  }

  lemma SamePlace(lib: Library, rule: TypeRule, records: Records, j: nat, k: nat)
    requires TypeOk(lib, rule, records) && j < |records| && k < |records|
    requires RecordId(rule, records[j]).Some? && RecordId(rule, records[j]) == RecordId(rule, records[k])
    ensures j >= k
  {
    assert j < k ==> RecordsDiffer(lib, rule, records[j], records[k]);
  }

  // ---------- what references must satisfy ----------

  function CollectReferenceValues(v: Value, repeated: bool): seq<string> {
    if repeated then (if v.List? then Texts(v.items) else [])
    else if AsString(v).Some? then [AsString(v).value] else []
  }

  function Texts(items: seq<Value>): seq<string> {
    if items == [] then []
    else (if AsString(items[0]).Some? then [AsString(items[0]).value] else []) + Texts(items[1..])
  }

  /** Some record of a type assignable to the one named has the identifier. */
  ghost predicate Holds(w: World, q: string, id: string)
    requires w.Valid()
  {
    exists u, data :: InheritsFrom(w.types, u, q) && Some(data) in w.records[u] && IdOf(w.rules[u], data) == Some(id)
  }

  ghost function Matching(w: World, refTypes: seq<string>, id: string): seq<string>
    requires w.Valid()
  {
    if refTypes == [] then []
    else
      var last := refTypes[|refTypes| - 1];
      Matching(w, refTypes[..|refTypes| - 1], id) + (if Holds(w, last, id) then [last] else [])
  }

  ghost predicate NoneHolds(w: World, refTypes: seq<string>, id: string)
    requires w.Valid()
  {
    forall i :: 0 <= i < |refTypes| ==> !Holds(w, refTypes[i], id)
  }

  ghost predicate OnlyHolds(w: World, refTypes: seq<string>, id: string, i: nat)
    requires w.Valid()
  {
    && i < |refTypes| && Holds(w, refTypes[i], id)
    && forall j :: 0 <= j < |refTypes| && j != i ==> !Holds(w, refTypes[j], id)
  }

  /** One match means that the identifier resolves at exactly one place of the list of types. */
  lemma {:induction false} OneMatch(w: World, refTypes: seq<string>, id: string)
    requires w.Valid()
    ensures |Matching(w, refTypes, id)| == 0 <==> NoneHolds(w, refTypes, id)
    ensures |Matching(w, refTypes, id)| == 1 <==> exists i :: OnlyHolds(w, refTypes, id, i)
  {
    if refTypes != [] {
      hide Holds;
      var n := |refTypes| - 1;
      var most := refTypes[..n];
      OneMatch(w, most, id);
      OnlyStep(w, refTypes, id);
    }
  }

  lemma OnlyStep(w: World, refTypes: seq<string>, id: string)
    requires w.Valid() && refTypes != []
    ensures var n := |refTypes| - 1;
            var most := refTypes[..n];
            && (NoneHolds(w, refTypes, id) <==> NoneHolds(w, most, id) && !Holds(w, refTypes[n], id))
            && ((exists i :: OnlyHolds(w, refTypes, id, i)) <==>
                  if Holds(w, refTypes[n], id) then NoneHolds(w, most, id) else exists i :: OnlyHolds(w, most, id, i))
  {
    hide Holds;
    var n := |refTypes| - 1;
    var most := refTypes[..n];
    assert forall j :: 0 <= j < n ==> most[j] == refTypes[j];
    if i :| OnlyHolds(w, refTypes, id, i) {
      if Holds(w, refTypes[n], id) { assert i == n; } else { assert OnlyHolds(w, most, id, i); }
    }
    if Holds(w, refTypes[n], id) && NoneHolds(w, most, id) {
      assert OnlyHolds(w, refTypes, id, n);
    }
    if !Holds(w, refTypes[n], id) && exists i :: OnlyHolds(w, most, id, i) {
      var i :| OnlyHolds(w, most, id, i);
      assert OnlyHolds(w, refTypes, id, i);
    }
  }

  lemma HoldsIsListed(w: World, index: ByAssignable, q: string, id: string)
    requires w.Valid() && IndexHolds(w, index)
    ensures Holds(w, q, id) <==> Listed(index, q, id) != []
    ensures q !in w.types ==> !Holds(w, q, id)
    ensures q in w.types <==> Assignable(w.types, q) != []
  {
    hide Consistent, DistinctTypes, Listed;
    var listed := Listed(index, q, id);
    if Holds(w, q, id) {
      var u, data :| InheritsFrom(w.types, u, q) && Some(data) in w.records[u] && IdOf(w.rules[u], data) == Some(id);
      assert Object(u, id, data) in listed;
    }
    if listed != [] {
      assert listed[0] in listed;
      assert Some(listed[0].data) in w.records[listed[0].typeName];
    }
  }

  ghost predicate FieldResolves(w: World, rule: Rule, v: Value)
    requires w.Valid()
  {
    rule.referenceTypes != [] ==>
      var targets := CollectReferenceValues(v, rule.repeated);
      forall k :: 0 <= k < |targets| ==> |Matching(w, rule.referenceTypes, targets[k])| == 1
  }

  ghost predicate ReferencesResolve(w: World, t: string, data: Fields)
    requires w.Valid() && t in w.types
  {
    forall f :: f in w.rules[t].fields ==> FieldResolves(w, w.rules[t].fields[f], Get(data, f))
  }

  ghost predicate RecordResolves(w: World, t: string, record: Option<Fields>)
    requires w.Valid() && t in w.types
  {
    RecordId(w.rules[t], record).Some? ==> ReferencesResolve(w, t, record.value)
  }

  ghost predicate TypeResolves(w: World, t: string)
    requires w.Valid() && t in w.types
  {
    forall k :: 0 <= k < |w.records[t]| ==> RecordResolves(w, t, w.records[t][k])
  }

  ghost predicate ReferencesOk(w: World)
    requires w.Valid()
  {
    forall t :: t in w.types ==> TypeResolves(w, t)
  }

  // ---------- the phases ----------

  /** No phases named means all of them, and references need the schema phase. */
  function PhaseSet(phases: seq<Phase>): set<Phase> {
    var named := if phases == [] then {Format, Schema, References} else set p | p in phases;
    if References in named then named + {Schema} else named
  }

  function FirstOnly(faults: seq<Fault>, failFast: bool): (r: seq<Fault>)
    ensures r == [] <==> faults == []
    ensures failFast ==> |r| <= 1
    ensures r <= faults && (!failFast ==> r == faults)
  {
    if failFast && |faults| > 1 then faults[..1] else faults
  }

  /** When the phases asked for report nothing. */
  ghost predicate Silent(w: World, formatFaults: seq<Fault>, on: set<Phase>)
    requires w.Valid()
  {
    if formatFaults != [] then Format !in on
    else if !SchemaOk(w) then Schema !in on
    else References !in on || ReferencesOk(w)
  }

  /** When there is nothing that the phases asked for could report. */
  ghost predicate Satisfied(w: World, formatFaults: seq<Fault>, on: set<Phase>)
    requires w.Valid()
  {
    && (Format in on ==> formatFaults == [])
    && (Schema in on ==> SchemaOk(w))
    && (References in on ==> ReferencesOk(w))
  }

  /**
   Nothing is reported although something was to be found exactly when some file was unreadable and the
   files were not to be checked; otherwise silence means that the phases asked for are satisfied.
  */
  lemma SilenceMisleadsExactly(w: World, formatFaults: seq<Fault>, phases: seq<Phase>)
    requires w.Valid() && !Satisfied(w, formatFaults, PhaseSet(phases))
    ensures Silent(w, formatFaults, PhaseSet(phases)) <==> formatFaults != [] && Format !in PhaseSet(phases)
    ensures phases == [] ==> !Silent(w, formatFaults, PhaseSet(phases))
  {
    hide SchemaOk, ReferencesOk;
  }

  /**
   For instance: a record without fields is not reported when the schema alone is checked beside an unreadable
   file.
  */
  lemma UnreadableFileMutes(lib: Library, fault: Fault)
    ensures var def := Inheritance.TypeDef("T", "", [], Inheritance.Identifier("id", false, ""), map[], []);
            var w := World(map["T" := def], map["T" := TypeRule("id", "", map[])], lib, map["T" := [None]]);
            && w.Valid() && Silent(w, [fault], PhaseSet([Schema])) && !Satisfied(w, [fault], PhaseSet([Schema]))
            && !Silent(w, [], PhaseSet([Schema]))
  {
    var def := Inheritance.TypeDef("T", "", [], Inheritance.Identifier("id", false, ""), map[], []);
    var w := World(map["T" := def], map["T" := TypeRule("id", "", map[])], lib, map["T" := [None]]);
    assert Inheritance.ConsistentType(w.types, "T");
    assert !RecordOk(lib, w.rules["T"], w.records["T"][0]);
    assert !TypeOk(lib, w.rules["T"], w.records["T"]);
    assert Schema in PhaseSet([Schema]) && Format !in PhaseSet([Schema]);
  }

  /** What satisfies the phases asked for is never reported. */
  lemma SatisfiedIsSilent(w: World, formatFaults: seq<Fault>, phases: seq<Phase>)
    requires w.Valid() && Satisfied(w, formatFaults, PhaseSet(phases))
    ensures Silent(w, formatFaults, PhaseSet(phases))
  {
    hide SchemaOk, ReferencesOk;
  }

  /**
   Each phase runs only if the one before it found nothing. The files are read and the schema phase runs
   whether or not they were asked for; their faults are then dropped. With all phases on, there is no fault
   exactly when the files were readable, every record obeys its schema, and every reference resolves.
  */
  method ValidateWithOps(w: World, formatFaults: seq<Fault>, phases: seq<Phase>, failFast: bool)
      returns (faults: seq<Fault>)
    requires w.Valid()
    ensures failFast ==> |faults| <= 1
    ensures faults == [] <==> Silent(w, formatFaults, PhaseSet(phases))
    ensures phases == [] ==> (faults == [] <==> formatFaults == [] && SchemaOk(w) && ReferencesOk(w))
    ensures formatFaults != [] ==>
              faults == if Format !in PhaseSet(phases) then [] else if failFast then formatFaults[..1] else formatFaults
    ensures formatFaults == [] && !SchemaOk(w) ==> OfPhase(faults, Schema, w)
    ensures formatFaults == [] && SchemaOk(w) ==> OfPhase(faults, References, w)
  {
    hide SchemaOk, ReferencesOk, IndexHolds, Consistent;
    var on := PhaseSet(phases);
    if |formatFaults| > 0 {
      return if Format in on then FirstOnly(formatFaults, failFast) else [];
    }
    var index := new SchemaIndex(w);
    var schemaFaults := index.ValidateSchema();
    if |schemaFaults| > 0 {
      return if Schema in on then FirstOnly(schemaFaults, failFast) else [];
    }
    faults := [];
    if References in on {
      var referenceFaults := index.ValidateReferences();
      faults := FirstOnly(referenceFaults, failFast);
    }
  }
}
