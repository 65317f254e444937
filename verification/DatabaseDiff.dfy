/**
 The comparison of two logical databases: records are matched by type and identifier, and
 every difference becomes one entry (internal/diff/diff_semantic.go).
*/
module DatabaseDiff {
  import opened Text
  import opened SemanticValue
  import opened FieldDiff

  datatype Source = Source(path: string, selector: string, readOnly: bool)

  datatype LogicalObject = LogicalObject(
    typ: string, id: string, fields: map<string, Value>, sources: seq<Source>)

  type Database = seq<LogicalObject>

  datatype Kind = Added | Removed | Modified | Relocated

  datatype Entry = Entry(
    kind: Kind, typ: string, id: string,
    oldValue: Option<map<string, Value>>, newValue: Option<map<string, Value>>,
    fieldChanges: seq<Change>,
    oldSources: seq<Source>, newSources: seq<Source>)

  // ---------- keys ----------

  function MapKey(typ: string, id: string): string {
    typ + "\0" + id
  }

  function KeyOf(o: LogicalObject): string {
    MapKey(o.typ, o.id)
  }

  predicate NulFree(s: string) {
    '\0' !in s
  }

  function ByKey(db: Database): map<string, LogicalObject> {
    if db == [] then map[]
    else ByKey(db[..|db| - 1])[KeyOf(db[|db| - 1]) := db[|db| - 1]]
  }

  lemma {:induction false} MapKeyIsInjective(t: string, i: string, u: string, j: string)
    requires NulFree(t) && NulFree(u) && MapKey(t, i) == MapKey(u, j)
    ensures t == u && i == j
  {
    NulEndsType(t, i, u, j);
    NulEndsType(u, j, t, i);
    SplitAt(t, "\0" + i, u, "\0" + j);
    assert i == ("\0" + i)[1..] && j == ("\0" + j)[1..];
  }

  lemma NulEndsType(t: string, i: string, u: string, j: string)
    requires NulFree(u) && MapKey(t, i) == MapKey(u, j)
    ensures |u| <= |t| && t + ("\0" + i) == u + ("\0" + j)
  {
    var w := MapKey(t, i);
    assert w == t + ("\0" + i) && w == u + ("\0" + j);
    assert forall k :: 0 <= k < |u| ==> w[k] == u[k] && u[k] in u;
    assert w[|t|] == '\0';
  }

  /** Records are ordered by type first, then by identifier. */
  predicate Before(t: string, i: string, u: string, j: string) {
    Less(t, u) || (t == u && Less(i, j))
  }

  /** Because NUL is the smallest character, the order of the joined keys is that order. */
  lemma {:induction false} KeyOrder(t: string, i: string, u: string, j: string)
    requires NulFree(t) && NulFree(u)
    requires Leq(MapKey(t, i), MapKey(u, j))
    ensures Less(t, u) || (t == u && Leq(i, j))
  {
    var x, y := MapKey(t, i), MapKey(u, j);
    assert t != "" ==> t[0] in t && x[0] == t[0] && x[0] != '\0';
    assert u == "" ==> y[0] == '\0';
    if t == "" {
      if u == "" {
        assert x[1..] == i && y[1..] == j;
      }
    } else if u != "" {
      assert y[0] == u[0];
      if t[0] == u[0] {
        assert x[1..] == MapKey(t[1..], i) && y[1..] == MapKey(u[1..], j);
        KeyOrder(t[1..], i, u[1..], j);
        assert t == [t[0]] + t[1..] && u == [u[0]] + u[1..];
      }
    }
  }

  // ---------- sources ----------

  function SourceKey(s: Source): string {
    s.path + "\0" + s.selector + "\0" + (if s.readOnly then "true" else "false")
  }

  function SourceKeys(sources: seq<Source>): (r: seq<string>)
    ensures |r| == |sources|
    ensures forall i :: 0 <= i < |r| ==> r[i] == SourceKey(sources[i])
  {
    if sources == [] then [] else [SourceKey(sources[0])] + SourceKeys(sources[1..])
  }

  function SourcesEqual(l: seq<Source>, r: seq<Source>): bool {
    |l| == |r| && SortStrings(SourceKeys(l)) == SortStrings(SourceKeys(r))
  }

  predicate PlainSource(s: Source) {
    NulFree(s.path) && NulFree(s.selector)
  }

  lemma SourceKeyIsInjective(s: Source, t: Source)
    requires PlainSource(s) && PlainSource(t) && SourceKey(s) == SourceKey(t)
    ensures s == t
  {
    var a, b := if s.readOnly then "true" else "false", if t.readOnly then "true" else "false";
    assert SourceKey(s) == MapKey(s.path, s.selector + "\0" + a);
    assert SourceKey(t) == MapKey(t.path, t.selector + "\0" + b);
    MapKeyIsInjective(s.path, s.selector + "\0" + a, t.path, t.selector + "\0" + b);
    MapKeyIsInjective(s.selector, a, t.selector, b);
    assert |"true"| == 4 && |"false"| == 5;
  }

  lemma {:induction false} SourceKeysWithout(l: seq<Source>, j: nat)
    requires j < |l|
    ensures SourceKeys(Without(l, j)) == Without(SourceKeys(l), j)
  {
    hide SourceKey;
    var a, b := SourceKeys(Without(l, j)), Without(SourceKeys(l), j);
    forall i | 0 <= i < |a| ensures a[i] == b[i] {
      assert a[i] == SourceKey(Without(l, j)[i]);
    }
  }

  lemma FoundByKey(l: seq<Source>, r: seq<Source>) returns (j: nat)
    requires l != [] && (forall s :: s in l ==> PlainSource(s)) && (forall s :: s in r ==> PlainSource(s))
    requires multiset(SourceKeys(l)) == multiset(SourceKeys(r)) || multiset(l) == multiset(r)
    ensures j < |r| && r[j] == l[0]
  {
    assert l[0] in multiset(l) && SourceKeys(l)[0] in multiset(SourceKeys(l));
    if multiset(l) == multiset(r) {
      j :| 0 <= j < |r| && r[j] == l[0];
    } else {
      j :| 0 <= j < |r| && SourceKeys(r)[j] == SourceKeys(l)[0];
      SourceKeyIsInjective(l[0], r[j]);
    }
  }

  lemma {:induction false} SameSourceKeys(l: seq<Source>, r: seq<Source>)
    requires (forall s :: s in l ==> PlainSource(s)) && (forall s :: s in r ==> PlainSource(s))
    ensures multiset(SourceKeys(l)) == multiset(SourceKeys(r)) <==> multiset(l) == multiset(r)
    decreases |l|
  {
    hide SourceKey;
    if l == [] {
      assert r != [] ==> SourceKeys(r)[0] in multiset(SourceKeys(r)) && r[0] in multiset(r);
    } else if multiset(SourceKeys(l)) == multiset(SourceKeys(r)) || multiset(l) == multiset(r) {
      var j := FoundByKey(l, r);
      SameSourceKeys(l[1..], Without(r, j));
      PairOff(l, r, j);
      SourceKeysWithout(r, j);
      assert SourceKeys(l)[1..] == SourceKeys(l[1..]);
      PairOff(SourceKeys(l), SourceKeys(r), j);
    }
  }

  /** The sorted comparison of the program is equality of multisets. */
  lemma SourcesEqualIsMultisetEquality(l: seq<Source>, r: seq<Source>)
    requires (forall s :: s in l ==> PlainSource(s)) && (forall s :: s in r ==> PlainSource(s))
    ensures SourcesEqual(l, r) <==> multiset(l) == multiset(r)
  {
    SortDependsOnElementsOnly(SourceKeys(l), SourceKeys(r));
    SameSourceKeys(l, r);
    assert multiset(l) == multiset(r) ==> |multiset(l)| == |multiset(r)|;
  }

  // ---------- the comparison ----------

  function EntryFor(key: string, l: map<string, LogicalObject>, r: map<string, LogicalObject>): seq<Entry>
    requires key in l || key in r
  {
    if key !in r then
      [Entry(Removed, l[key].typ, l[key].id, Some(l[key].fields), None, [], l[key].sources, [])]
    else if key !in l then
      [Entry(Added, r[key].typ, r[key].id, None, Some(r[key].fields), [], [], r[key].sources)]
    else
      var a, b := l[key], r[key];
      var changes := DiffFields("", Object(a.fields), Object(b.fields));
      if changes != [] then
        [Entry(Modified, a.typ, a.id, Some(a.fields), Some(b.fields), changes, a.sources, b.sources)]
      else if !SourcesEqual(a.sources, b.sources) then
        [Entry(Relocated, a.typ, a.id, Some(a.fields), Some(b.fields), [], a.sources, b.sources)]
      else []
  }

  function EntriesFor(keys: seq<string>, l: map<string, LogicalObject>, r: map<string, LogicalObject>): seq<Entry>
    requires forall k :: k in keys ==> k in l || k in r
  {
    if keys == [] then [] else EntryFor(keys[0], l, r) + EntriesFor(keys[1..], l, r)
  }

  function Diff(left: Database, right: Database): seq<Entry> {
    var l, r := ByKey(left), ByKey(right);
    EntriesFor(SortedKeys(l.Keys + r.Keys), l, r)
  }

  method LogicalObjectsByKey(db: Database) returns (objects: map<string, LogicalObject>)
    ensures objects == ByKey(db)
  {
    objects := map[];
    for i := 0 to |db|
      invariant objects == ByKey(db[..i])
    {
      assert db[..i + 1][..i] == db[..i];
      objects := objects[MapKey(db[i].typ, db[i].id) := db[i]];
    }
    assert db[..|db|] == db;
  }

  lemma NextEntry(keys: seq<string>, i: nat, l: map<string, LogicalObject>, r: map<string, LogicalObject>)
    requires i < |keys| && forall k :: k in keys ==> k in l || k in r
    ensures EntriesFor(keys[i..], l, r) == EntryFor(keys[i], l, r) + EntriesFor(keys[i + 1..], l, r)
  {
    hide EntryFor;
    assert keys[i..][1..] == keys[i + 1..];
  }

  /** The loop over the sorted union of the two key sets. */
  method DiffLogicalDatabases(left: Database, right: Database) returns (entries: seq<Entry>)
    ensures entries == Diff(left, right)
  {
    hide StrictlySorted, EntryFor, ByKey;
    var leftByKey := LogicalObjectsByKey(left);
    var rightByKey := LogicalObjectsByKey(right);
    var keys := SortedKeys(leftByKey.Keys + rightByKey.Keys);
    entries := [];
    assert keys[0..] == keys;
    for i := 0 to |keys|
      invariant forall k :: k in keys[i..] ==> k in leftByKey || k in rightByKey
      invariant EntriesFor(keys, leftByKey, rightByKey) == entries + EntriesFor(keys[i..], leftByKey, rightByKey)
    {
      NextEntry(keys, i, leftByKey, rightByKey);
      assert keys[i] in keys;
      var found := DiffRecord(keys[i], leftByKey, rightByKey);
      entries := entries + found;
    }
  }

  /** The body of that loop: at most one entry for a key. */
  method DiffRecord(key: string, leftByKey: map<string, LogicalObject>, rightByKey: map<string, LogicalObject>)
      returns (entries: seq<Entry>)
    requires key in leftByKey || key in rightByKey
    ensures entries == EntryFor(key, leftByKey, rightByKey)
  {
    hide DiffFields, SourcesEqual;
    if key !in rightByKey {
      var o := leftByKey[key];
      return [Entry(Removed, o.typ, o.id, Some(o.fields), None, [], o.sources, [])];
    }
    if key !in leftByKey {
      var o := rightByKey[key];
      return [Entry(Added, o.typ, o.id, None, Some(o.fields), [], [], o.sources)];
    }
    var a, b := leftByKey[key], rightByKey[key];
    var fieldChanges := DiffObjectFields("", Object(a.fields), Object(b.fields));
    var relocated := !SourcesEqual(a.sources, b.sources);
    if |fieldChanges| > 0 {
      return [Entry(Modified, a.typ, a.id, Some(a.fields), Some(b.fields), fieldChanges, a.sources, b.sources)];
    }
    if relocated {
      return [Entry(Relocated, a.typ, a.id, Some(a.fields), Some(b.fields), [], a.sources, b.sources)];
    }
    return [];
  }

  // ---------- databases as built from a snapshot ----------

  ghost predicate BuiltObject(o: LogicalObject) {
    NulFree(o.typ) && Clean(Object(o.fields)) && forall s :: s in o.sources ==> PlainSource(s)
  }

  /** No two records share type and identifier, and type names hold no delimiter. */
  ghost predicate Identified(db: Database) {
    && (forall o :: o in db ==> NulFree(o.typ))
    && DistinctRecords(db)
  }

  ghost predicate DistinctRecords(db: Database) {
    forall i, j :: 0 <= i < j < |db| ==> db[i].typ != db[j].typ || db[i].id != db[j].id
  }

  /** Identities are distinct, which the builder enforces, and names hold no delimiters. */
  ghost predicate Built(db: Database) {
    (forall o :: o in db ==> BuiltObject(o)) && DistinctRecords(db)
  }

  lemma {:induction false} ByKeyHolds(db: Database, key: string)
    requires key in ByKey(db)
    ensures ByKey(db)[key] in db && KeyOf(ByKey(db)[key]) == key
  {
    if db != [] && key != KeyOf(db[|db| - 1]) {
      ByKeyHolds(db[..|db| - 1], key);
    }
  }

  lemma {:induction false} ByKeyFinds(db: Database, o: LogicalObject)
    requires Identified(db) && o in db
    ensures KeyOf(o) in ByKey(db) && ByKey(db)[KeyOf(o)] == o
  {
    var n := |db| - 1;
    if o != db[n] {
      ByKeyFinds(db[..n], o);
      assert db[n] in db && NulFree(o.typ) && NulFree(db[n].typ);
      if KeyOf(o) == KeyOf(db[n]) {
        MapKeyIsInjective(o.typ, o.id, db[n].typ, db[n].id);
      }
    }
  }

  // ---------- building a database ----------

  /** What one file gives for one include that matches it. */
  datatype Batch = Parsed(objects: seq<LogicalObject>) | Failed

  function AllObjects(batches: seq<Batch>): seq<LogicalObject> {
    if batches == [] then []
    else
      var last := batches[|batches| - 1];
      AllObjects(batches[..|batches| - 1]) + (if last.Parsed? then last.objects else [])
  }

  /** The records in the order of their keys. */
  function Listing(m: map<string, LogicalObject>): (db: Database)
    ensures |db| == |SortedKeys(m.Keys)| && forall i :: 0 <= i < |db| ==> db[i] == m[SortedKeys(m.Keys)[i]]
  {
    var keys := SortedKeys(m.Keys);
    seq(|keys|, i requires 0 <= i < |keys| => m[keys[i]])
  }

  /** One more record keeps identities distinct exactly if its key is new. */
  lemma NextRecord(db: Database, o: LogicalObject)
    requires Identified(db) && NulFree(o.typ)
    ensures Identified(db + [o]) <==> KeyOf(o) !in ByKey(db)
    ensures ByKey(db + [o]) == ByKey(db)[KeyOf(o) := o]
  {
    var all := db + [o];
    assert all[..|all| - 1] == db && all[|all| - 1] == o;
    if KeyOf(o) in ByKey(db) {
      ByKeyHolds(db, KeyOf(o));
      var other := ByKey(db)[KeyOf(o)];
      MapKeyIsInjective(o.typ, o.id, other.typ, other.id);
      var i :| 0 <= i < |db| && db[i] == other;
      assert all[i] == other && all[|db|] == o;
    } else {
      forall i | 0 <= i < |db| ensures db[i].typ != o.typ || db[i].id != o.id {
        assert db[i] in db;
        ByKeyFinds(db, db[i]);
      }
      forall x | x in all ensures NulFree(x.typ) { assert x in db || x == o; }
    }
  }

  lemma NotIdentified(db: Database, more: Database)
    ensures Identified(db + more) ==> Identified(db)
  {
    var all := db + more;
    assert forall i :: 0 <= i < |db| ==> all[i] == db[i];
    assert forall o :: o in db ==> o in all;
  }

  /** Building succeeds exactly when every file parses and no two records share an identity. */
  method BuildLogicalDatabase(batches: seq<Batch>) returns (r: Option<Database>)
    requires forall o :: o in AllObjects(batches) ==> NulFree(o.typ)
    ensures r.Some? <==> (forall b :: b in batches ==> b.Parsed?) && DistinctRecords(AllObjects(batches))
    ensures r.Some? ==> r.value == Listing(ByKey(AllObjects(batches)))
  {
    hide Identified, ByKey;
    var objects: map<string, LogicalObject> := map[];
    NothingYet();
    for i := 0 to |batches|
      invariant forall k :: 0 <= k < i ==> batches[k].Parsed?
      invariant Identified(AllObjects(batches[..i])) && objects == ByKey(AllObjects(batches[..i]))
    {
      AllObjectsStep(batches, i);
      if batches[i].Failed? { return None; }
      var added := AddBatch(objects, AllObjects(batches[..i]), batches[i].objects);
      IdentifiedMeans(batches);
      if added.None? { return None; }
      objects := added.value;
    }
    assert batches[..|batches|] == batches;
    IdentifiedMeans(batches);
    return Some(Listing(objects));
  }

  method AddBatch(objects: map<string, LogicalObject>, ghost before: Database, more: seq<LogicalObject>)
      returns (r: Option<map<string, LogicalObject>>)
    requires Identified(before) && objects == ByKey(before) && forall o :: o in more ==> NulFree(o.typ)
    ensures r.Some? <==> Identified(before + more)
    ensures r.Some? ==> r.value == ByKey(before + more)
  {
    hide Identified, ByKey;
    var all := objects;
    assert before + more[..0] == before;
    for i := 0 to |more|
      invariant Identified(before + more[..i]) && all == ByKey(before + more[..i])
    {
      assert more[i] in more;
      NextRecord(before + more[..i], more[i]);
      assert before + more[..i] + [more[i]] == before + more[..i + 1];
      if KeyOf(more[i]) in all {
        NotIdentified(before + more[..i + 1], more[i + 1..]);
        assert before + more[..i + 1] + more[i + 1..] == before + more;
        return None;
      }
      all := all[KeyOf(more[i]) := more[i]];
    }
    assert more[..|more|] == more;
    return Some(all);
  }

  lemma NothingYet()
    ensures Identified([]) && ByKey([]) == map[]
  {
  }

  lemma IdentifiedMeans(batches: seq<Batch>)
    requires forall o :: o in AllObjects(batches) ==> NulFree(o.typ)
    ensures Identified(AllObjects(batches)) <==> DistinctRecords(AllObjects(batches))
  {
  }

  /** The objects of the first files, those of the next, and that a clash among them is a clash among all. */
  lemma AllObjectsStep(batches: seq<Batch>, i: nat)
    requires i < |batches| && forall o :: o in AllObjects(batches) ==> NulFree(o.typ)
    ensures AllObjects(batches[..i + 1])
            == AllObjects(batches[..i]) + (if batches[i].Parsed? then batches[i].objects else [])
    ensures batches[i].Parsed? ==> forall o :: o in batches[i].objects ==> NulFree(o.typ)
    ensures Identified(AllObjects(batches)) ==> Identified(AllObjects(batches[..i + 1]))
  {
    AllObjectsNext(batches, i);
    hide AllObjects, Identified;
    var rest := AllObjectsPrefix(batches, i + 1);
    NotIdentified(AllObjects(batches[..i + 1]), rest);
    forall o | batches[i].Parsed? && o in batches[i].objects ensures NulFree(o.typ) {
      assert o in AllObjects(batches);
    }
  }

  lemma AllObjectsNext(batches: seq<Batch>, i: nat)
    requires i < |batches|
    ensures AllObjects(batches[..i + 1])
            == AllObjects(batches[..i]) + (if batches[i].Parsed? then batches[i].objects else [])
  {
    var longer := batches[..i + 1];
    assert longer[..|longer| - 1] == batches[..i] && longer[|longer| - 1] == batches[i];
  }

  lemma {:induction false} AllObjectsPrefix(batches: seq<Batch>, i: nat) returns (rest: seq<LogicalObject>)
    requires i <= |batches|
    ensures AllObjects(batches) == AllObjects(batches[..i]) + rest
    decreases |batches|
  {
    if i == |batches| {
      assert batches[..i] == batches;
      rest := [];
    } else {
      var n := |batches| - 1;
      rest := AllObjectsPrefix(batches[..n], i);
      assert batches[..n][..i] == batches[..i];
      rest := rest + (if batches[n].Parsed? then batches[n].objects else []);
    }
  }

  /** The listing holds exactly the records, ordered by type and then identifier. */
  lemma ListingIsOrdered(db: Database)
    requires Identified(db)
    ensures var listed := Listing(ByKey(db));
            && (forall o :: o in listed <==> o in db) && Identified(listed)
            && (forall i, j :: 0 <= i < j < |listed| ==>
                Before(listed[i].typ, listed[i].id, listed[j].typ, listed[j].id))
  {
    ListingHolds(db);
    hide *;
    var keys, listed := SortedKeys(ByKey(db).Keys), Listing(ByKey(db));
    forall i, j | 0 <= i < j < |listed| ensures Before(listed[i].typ, listed[i].id, listed[j].typ, listed[j].id) {
      IncreasingKeys(ByKey(db).Keys, i, j);
      ListedBefore(listed[i], listed[j], keys[i], keys[j]);
    }
    BeforeIsIdentified(listed, db);
  }

  /** At each place of the listing is the object of the key there, and every object has a place. */
  lemma ListingHolds(db: Database)
    requires Identified(db)
    ensures var keys, listed := SortedKeys(ByKey(db).Keys), Listing(ByKey(db));
            && |listed| == |keys| && (forall i :: 0 <= i < |listed| ==> listed[i] in db && KeyOf(listed[i]) == keys[i])
            && forall o :: o in listed <==> o in db
    ensures forall o :: o in db ==> NulFree(o.typ)
  {
    hide Less, Leq, MapKey;
    var m := ByKey(db);
    var keys, listed := SortedKeys(m.Keys), Listing(m);
    forall i | 0 <= i < |listed| ensures listed[i] in db && KeyOf(listed[i]) == keys[i] {
      assert keys[i] in keys;
      ByKeyHolds(db, keys[i]);
    }
    forall o | o in db ensures o in listed {
      ByKeyFinds(db, o);
      assert KeyOf(o) in keys;
      var i :| 0 <= i < |keys| && keys[i] == KeyOf(o);
      assert listed[i] == o;
    }
  }

  lemma IncreasingKeys(keys: set<string>, i: nat, j: nat)
    requires i < j < |SortedKeys(keys)|
    ensures Less(SortedKeys(keys)[i], SortedKeys(keys)[j])
  {
  }

  lemma ListedBefore(a: LogicalObject, b: LogicalObject, k: string, l: string)
    requires KeyOf(a) == k && KeyOf(b) == l && Less(k, l) && NulFree(a.typ) && NulFree(b.typ)
    ensures Before(a.typ, a.id, b.typ, b.id)
  {
    StrictKeyOrder(a.typ, a.id, b.typ, b.id);
  }

  lemma BeforeIsIdentified(listed: seq<LogicalObject>, db: Database)
    requires Identified(db) && forall o :: o in listed ==> o in db
    requires forall i, j :: 0 <= i < j < |listed| ==> Before(listed[i].typ, listed[i].id, listed[j].typ, listed[j].id)
    ensures Identified(listed)
  {
    hide Before, Less, Leq;
    forall i, j | 0 <= i < j < |listed| ensures listed[i].typ != listed[j].typ || listed[i].id != listed[j].id {
      BeforeIsStrict(listed[i].typ, listed[i].id, listed[j].typ, listed[j].id);
    }
  }

  lemma BeforeIsStrict(t: string, i: string, u: string, j: string)
    requires Before(t, i, u, j)
    ensures t != u || i != j
  {
  }

  /** The order in which the files are found does not matter. */
  lemma BuiltFromRecordsOnly(xs: Database, ys: Database)
    requires Identified(xs) && Identified(ys) && forall o :: o in xs <==> o in ys
    ensures Listing(ByKey(xs)) == Listing(ByKey(ys))
  {
    hide Identified, KeyOf;
    var l, r := ByKey(xs), ByKey(ys);
    forall k ensures (k in l <==> k in r) && (k in l ==> l[k] == r[k]) {
      if k in l { ByKeyHolds(xs, k); ByKeyFinds(ys, l[k]); }
      if k in r { ByKeyHolds(ys, k); ByKeyFinds(xs, r[k]); }
    }
    assert l == r;
  }

  // ---------- what the entries say ----------

  /** The same values and the same places, up to order. */
  ghost predicate SameRecord(a: LogicalObject, b: LogicalObject) {
    Equiv(Object(a.fields), Object(b.fields)) && multiset(a.sources) == multiset(b.sources)
  }

  ghost predicate EntryAbout(e: Entry, key: string) {
    MapKey(e.typ, e.id) == key
  }

  /** What a correct entry for two versions of a record looks like. */
  ghost predicate Classifies(e: Entry, a: Option<LogicalObject>, b: Option<LogicalObject>) {
    match (a, b)
    case (None, None) => false
    case (Some(x), None) =>
      e.kind == Removed && e.oldValue == Some(x.fields) && e.newValue == None && e.oldSources == x.sources
          && e.newSources == [] && e.fieldChanges == []
    case (None, Some(y)) =>
      e.kind == Added && e.oldValue == None && e.newValue == Some(y.fields) && e.oldSources == []
          && e.newSources == y.sources && e.fieldChanges == []
    case (Some(x), Some(y)) =>
      && e.oldValue == Some(x.fields) && e.newValue == Some(y.fields)
      && e.oldSources == x.sources && e.newSources == y.sources
      && (e.kind == Modified <==> !Equiv(Object(x.fields), Object(y.fields)))
      && (e.kind == Relocated <==>
            Equiv(Object(x.fields), Object(y.fields)) && multiset(x.sources) != multiset(y.sources))
      && (e.kind == Modified || e.kind == Relocated)
      && e.fieldChanges == if e.kind == Modified then DiffFields("", Object(x.fields), Object(y.fields)) else []
  }

  function Lookup(m: map<string, LogicalObject>, key: string): Option<LogicalObject> {
    if key in m then Some(m[key]) else None
  }

  ghost predicate Unchanged(a: Option<LogicalObject>, b: Option<LogicalObject>) {
    a.Some? && b.Some? && SameRecord(a.value, b.value)
  }

  ghost predicate BuiltMap(m: map<string, LogicalObject>) {
    forall k :: k in m ==> BuiltObject(m[k]) && KeyOf(m[k]) == k
  }

  /** Records stand under their keys, and type names hold no delimiter. */
  ghost predicate KeyedMap(m: map<string, LogicalObject>) {
    forall k :: k in m ==> NulFree(m[k].typ) && KeyOf(m[k]) == k
  }

  lemma BuiltIsKeyed(m: map<string, LogicalObject>)
    requires BuiltMap(m)
    ensures KeyedMap(m)
  {
    hide Clean;
  }

  lemma BuiltNamesArePlain(left: Database, right: Database)
    requires Built(left) && Built(right)
    ensures NamesPlain(left, right)
  {
    hide Clean;
  }

  ghost predicate NamesPlain(left: Database, right: Database) {
    forall o :: o in left || o in right ==> NulFree(o.typ)
  }

  lemma ByKeyIsKeyed(db: Database)
    requires forall o :: o in db ==> NulFree(o.typ)
    ensures KeyedMap(ByKey(db))
  {
    forall k | k in ByKey(db) ensures NulFree(ByKey(db)[k].typ) && KeyOf(ByKey(db)[k]) == k {
      ByKeyHolds(db, k);
    }
  }

  lemma ByKeyIsBuilt(db: Database)
    requires Built(db)
    ensures BuiltMap(ByKey(db))
  {
    forall k | k in ByKey(db) ensures BuiltObject(ByKey(db)[k]) && KeyOf(ByKey(db)[k]) == k {
      ByKeyHolds(db, k);
    }
  }

  lemma EntryForClassifies(key: string, l: map<string, LogicalObject>, r: map<string, LogicalObject>)
    requires BuiltMap(l) && BuiltMap(r) && (key in l || key in r)
    ensures var es := EntryFor(key, l, r);
            if Unchanged(Lookup(l, key), Lookup(r, key)) then es == []
            else |es| == 1 && EntryAbout(es[0], key) && Classifies(es[0], Lookup(l, key), Lookup(r, key))
  {
    hide Clean, DiffFields, SourcesEqual, Equiv;
    if key in l && key in r {
      var a, b := l[key], r[key];
      assert BuiltObject(a) && BuiltObject(b);
      NoChangesIffEquiv("", Object(a.fields), Object(b.fields));
      SourcesEqualIsMultisetEquality(a.sources, b.sources);
    }
  }

  lemma EntryForIsAbout(key: string, l: map<string, LogicalObject>, r: map<string, LogicalObject>)
    requires KeyedMap(l) && KeyedMap(r) && (key in l || key in r)
    ensures |EntryFor(key, l, r)| <= 1 && forall e :: e in EntryFor(key, l, r) ==> EntryAbout(e, key) && NulFree(e.typ)
  {
    hide DiffFields, SourcesEqual;
  }

  /** What the entries say about one key: nothing if nothing changed, else what changed. */
  ghost predicate Covers(es: seq<Entry>, l: map<string, LogicalObject>, r: map<string, LogicalObject>, key: string) {
    if Unchanged(Lookup(l, key), Lookup(r, key)) then forall e :: e in es ==> !EntryAbout(e, key)
    else exists e :: e in es && EntryAbout(e, key) && Classifies(e, Lookup(l, key), Lookup(r, key))
  }

  lemma {:induction false} EntriesCover(keys: seq<string>, l: map<string, LogicalObject>,
                                        r: map<string, LogicalObject>, key: string)
    requires BuiltMap(l) && BuiltMap(r) && StrictlySorted(keys)
    requires forall k :: k in keys ==> k in l || k in r
    requires key in keys
    ensures Covers(EntriesFor(keys, l, r), l, r, key)
    decreases |keys|
  {
    hide EntryFor, BuiltMap, Covers;
    assert keys[0] in keys;
    if key == keys[0] {
      CoversFirst(keys, l, r);
    } else {
      EntriesCover(keys[1..], l, r, key);
      CoversLater(keys[0], EntriesFor(keys[1..], l, r), l, r, key);
    }
  }

  lemma CoversFirst(keys: seq<string>, l: map<string, LogicalObject>, r: map<string, LogicalObject>)
    requires keys != [] && BuiltMap(l) && BuiltMap(r) && StrictlySorted(keys)
    requires forall k :: k in keys ==> k in l || k in r
    ensures Covers(EntriesFor(keys, l, r), l, r, keys[0])
  {
    BuiltIsKeyed(l);
    BuiltIsKeyed(r);
    hide EntryFor, Unchanged, Classifies, BuiltMap, KeyedMap;
    var key, es, rest := keys[0], EntryFor(keys[0], l, r), EntriesFor(keys[1..], l, r);
    assert key in keys;
    EntryForClassifies(key, l, r);
    EntriesAreAbout(keys[1..], l, r);
    forall e | e in rest ensures !EntryAbout(e, key) {
      assert MapKey(e.typ, e.id) in keys[1..];
    }
    if !Unchanged(Lookup(l, key), Lookup(r, key)) { assert es[0] in es + rest; }
  }

  lemma CoversLater(first: string, rest: seq<Entry>, l: map<string, LogicalObject>, r: map<string, LogicalObject>,
                    key: string)
    requires BuiltMap(l) && BuiltMap(r) && (first in l || first in r) && key != first && Covers(rest, l, r, key)
    ensures Covers(EntryFor(first, l, r) + rest, l, r, key)
  {
    hide *;
    BuiltIsKeyed(l);
    BuiltIsKeyed(r);
    OthersAreSilent(first, l, r, key);
    SilentInFront(EntryFor(first, l, r), rest, l, r, key);
  }

  /** The entries of one key say nothing about another. */
  lemma OthersAreSilent(first: string, l: map<string, LogicalObject>, r: map<string, LogicalObject>, key: string)
    requires KeyedMap(l) && KeyedMap(r) && (first in l || first in r) && key != first
    ensures forall e :: e in EntryFor(first, l, r) ==> !EntryAbout(e, key)
  {
    hide EntryFor, KeyedMap, MapKey;
    EntryForIsAbout(first, l, r);
  }

  lemma SilentInFront(es: seq<Entry>, rest: seq<Entry>, l: map<string, LogicalObject>, r: map<string, LogicalObject>,
                      key: string)
    requires Covers(rest, l, r, key) && forall e :: e in es ==> !EntryAbout(e, key)
    ensures Covers(es + rest, l, r, key)
  {
    hide EntryAbout, Classifies, Unchanged, Lookup;
    if !Unchanged(Lookup(l, key), Lookup(r, key)) {
      var e :| e in rest && EntryAbout(e, key) && Classifies(e, Lookup(l, key), Lookup(r, key));
      assert e in es + rest;
    }
  }

  lemma {:induction false} EntriesAreAbout(keys: seq<string>, l: map<string, LogicalObject>,
                                           r: map<string, LogicalObject>)
    requires KeyedMap(l) && KeyedMap(r) && forall k :: k in keys ==> k in l || k in r
    ensures forall e :: e in EntriesFor(keys, l, r) ==> MapKey(e.typ, e.id) in keys
    decreases |keys|
  {
    hide EntryFor, KeyedMap;
    if keys != [] {
      assert keys[0] in keys;
      EntryForIsAbout(keys[0], l, r);
      EntriesAreAbout(keys[1..], l, r);
    }
  }

  /** The record of a database with a given identity. */
  ghost function Find(db: Database, typ: string, id: string): Option<LogicalObject> {
    Lookup(ByKey(db), MapKey(typ, id))
  }

  /** Find is about membership: it does not depend on how the map was filled. */
  lemma FindIsMembership(db: Database, typ: string, id: string, o: LogicalObject)
    requires Built(db) && NulFree(typ)
    ensures Find(db, typ, id) == Some(o) <==> o in db && o.typ == typ && o.id == id
  {
    var key := MapKey(typ, id);
    if key in ByKey(db) {
      ByKeyHolds(db, key);
      var p := ByKey(db)[key];
      MapKeyIsInjective(p.typ, p.id, typ, id);
    }
    if o in db {
      ByKeyFinds(db, o);
    }
  }

  /**
   Complete classification: an identity has an entry exactly when the two databases differ on
   it, and the entry is of the right kind with both versions in it.
  */
  lemma DiffClassifies(left: Database, right: Database, typ: string, id: string)
    requires Built(left) && Built(right) && NulFree(typ)
    ensures var a, b := Find(left, typ, id), Find(right, typ, id);
            var es := Diff(left, right);
            if (a == None && b == None) || Unchanged(a, b)
            then forall e :: e in es ==> e.typ != typ || e.id != id
            else exists i :: OnlyEntry(es, i, typ, id) && Classifies(es[i], a, b)
  {
    hide Classifies, Unchanged;
    SomeEntryClassifies(left, right, typ, id);
    BuiltNamesArePlain(left, right);
    hide Built, Diff, Find;
    EntriesAreInOrder(left, right);
    var a, b := Find(left, typ, id), Find(right, typ, id);
    var es := Diff(left, right);
    if !((a == None && b == None) || Unchanged(a, b)) {
      var e :| e in es && e.typ == typ && e.id == id && Classifies(e, a, b);
      var i :| 0 <= i < |es| && es[i] == e;
      OrderedEntriesDiffer(es, i);
      assert OnlyEntry(es, i, typ, id);
    }
  }

  /** The i-th entry is about the identity, and no other is. */
  ghost predicate OnlyEntry(es: seq<Entry>, i: int, typ: string, id: string) {
    && 0 <= i < |es| && es[i].typ == typ && es[i].id == id
    && forall j :: 0 <= j < |es| && j != i ==> es[j].typ != typ || es[j].id != id
  }

  lemma OrderedEntriesDiffer(es: seq<Entry>, i: nat)
    requires InOrder(es) && i < |es|
    ensures forall j :: 0 <= j < |es| && j != i ==> es[j].typ != es[i].typ || es[j].id != es[i].id
  {
    hide Before;
    forall j | 0 <= j < |es| && j != i ensures es[j].typ != es[i].typ || es[j].id != es[i].id {
      if j < i {
        BeforeIsStrict(es[j].typ, es[j].id, es[i].typ, es[i].id);
      } else {
        BeforeIsStrict(es[i].typ, es[i].id, es[j].typ, es[j].id);
      }
    }
  }

  lemma SomeEntryClassifies(left: Database, right: Database, typ: string, id: string)
    requires Built(left) && Built(right) && NulFree(typ)
    ensures var a, b := Find(left, typ, id), Find(right, typ, id);
            if (a == None && b == None) || Unchanged(a, b)
            then forall e :: e in Diff(left, right) ==> e.typ != typ || e.id != id
            else exists e :: e in Diff(left, right) && e.typ == typ && e.id == id && Classifies(e, a, b)
  {
    BuiltNamesArePlain(left, right);
    ByKeyIsBuilt(left);
    ByKeyIsBuilt(right);
    hide EntriesFor, Classifies, Unchanged, Built, BuiltMap, NamesPlain, DistinctRecords, ByKey;
    var l, r, key := ByKey(left), ByKey(right), MapKey(typ, id);
    var keys := SortedKeys(l.Keys + r.Keys);
    BuiltIsKeyed(l);
    BuiltIsKeyed(r);
    EntriesAreAbout(keys, l, r);
    if key in keys {
      EntriesCover(keys, l, r, key);
      if !Unchanged(Lookup(l, key), Lookup(r, key)) {
        var e :| e in EntriesFor(keys, l, r) && EntryAbout(e, key) && Classifies(e, Lookup(l, key), Lookup(r, key));
        EntryNamesRecord(e, typ, id, left, right);
      }
    }
  }

  lemma EntryNamesRecord(e: Entry, typ: string, id: string, left: Database, right: Database)
    requires NamesPlain(left, right) && NulFree(typ)
    requires e in Diff(left, right) && EntryAbout(e, MapKey(typ, id))
    ensures e.typ == typ && e.id == id
  {
    EntryTypesArePlain(left, right, e);
    MapKeyIsInjective(e.typ, e.id, typ, id);
  }

  lemma {:induction false} EntryTypesArePlain(left: Database, right: Database, e: Entry)
    requires NamesPlain(left, right) && e in Diff(left, right)
    ensures NulFree(e.typ)
  {
    ByKeyIsKeyed(left);
    ByKeyIsKeyed(right);
    var l, r := ByKey(left), ByKey(right);
    TypesArePlain(SortedKeys(l.Keys + r.Keys), l, r, e);
  }

  lemma {:induction false} TypesArePlain(keys: seq<string>, l: map<string, LogicalObject>,
                                         r: map<string, LogicalObject>, e: Entry)
    requires KeyedMap(l) && KeyedMap(r) && forall k :: k in keys ==> k in l || k in r
    requires e in EntriesFor(keys, l, r)
    ensures NulFree(e.typ)
    decreases |keys|
  {
    assert keys[0] in keys;
    if e !in EntryFor(keys[0], l, r) {
      TypesArePlain(keys[1..], l, r, e);
    }
  }

  // ---------- order ----------

  /** Entries come strictly ordered by type, then by identifier: at most one per identity. */
  ghost predicate InOrder(es: seq<Entry>) {
    forall i, j :: 0 <= i < j < |es| ==> Before(es[i].typ, es[i].id, es[j].typ, es[j].id)
  }

  lemma EntriesAreInOrder(left: Database, right: Database)
    requires NamesPlain(left, right)
    ensures InOrder(Diff(left, right))
  {
    ByKeyIsKeyed(left);
    ByKeyIsKeyed(right);
    var l, r := ByKey(left), ByKey(right);
    OrderedFor(SortedKeys(l.Keys + r.Keys), l, r);
  }

  lemma {:induction false} OrderedFor(keys: seq<string>, l: map<string, LogicalObject>, r: map<string, LogicalObject>)
    requires KeyedMap(l) && KeyedMap(r) && StrictlySorted(keys) && forall k :: k in keys ==> k in l || k in r
    ensures InOrder(EntriesFor(keys, l, r))
    decreases |keys|
  {
    hide EntryFor, Before, Leq;
    if keys != [] {
      var es, rest := EntryFor(keys[0], l, r), EntriesFor(keys[1..], l, r);
      assert keys[0] in keys;
      EntryForIsAbout(keys[0], l, r);
      EntriesAreAbout(keys[1..], l, r);
      OrderedFor(keys[1..], l, r);
      if es != [] {
        forall k | 0 <= k < |rest| ensures Before(es[0].typ, es[0].id, rest[k].typ, rest[k].id) {
          var e, f := es[0], rest[k];
          assert f in rest;
          assert e in EntriesFor(keys, l, r) && f in EntriesFor(keys, l, r);
          TypesArePlain(keys, l, r, e);
          TypesArePlain(keys, l, r, f);
          var n :| 0 <= n < |keys[1..]| && keys[1..][n] == MapKey(f.typ, f.id);
          assert Less(keys[0], keys[n + 1]);
          StrictKeyOrder(e.typ, e.id, f.typ, f.id);
        }
      }
    }
  }

  lemma StrictKeyOrder(t: string, i: string, u: string, j: string)
    requires NulFree(t) && NulFree(u) && Less(MapKey(t, i), MapKey(u, j))
    ensures Before(t, i, u, j)
  {
    KeyOrder(t, i, u, j);
  }

  // ---------- applying the entries ----------

  function ApplyEntry(m: map<string, LogicalObject>, e: Entry): map<string, LogicalObject> {
    var key := MapKey(e.typ, e.id);
    if e.newValue.None? then m - {key}
    else m[key := LogicalObject(e.typ, e.id, e.newValue.value, e.newSources)]
  }

  function ApplyEntries(m: map<string, LogicalObject>, es: seq<Entry>): map<string, LogicalObject>
    decreases |es|
  {
    if es == [] then m else ApplyEntries(ApplyEntry(m, es[0]), es[1..])
  }

  ghost predicate Agrees(a: Option<LogicalObject>, b: Option<LogicalObject>) {
    (a.None? && b.None?) || Unchanged(a, b)
  }

  lemma ApplyOne(m: map<string, LogicalObject>, e: Entry, key: string, a: Option<LogicalObject>,
                 b: Option<LogicalObject>)
    requires EntryAbout(e, key) && Classifies(e, a, b) && NulFree(e.typ)
    requires b.Some? ==> NulFree(b.value.typ) && KeyOf(b.value) == key
    ensures Lookup(ApplyEntry(m, e), key) == b
    ensures forall k :: k != key ==> Lookup(ApplyEntry(m, e), k) == Lookup(m, k)
  {
    hide Equiv;
    if b.Some? {
      MapKeyIsInjective(e.typ, e.id, b.value.typ, b.value.id);
    }
  }

  lemma AgreesWithItself(a: Option<LogicalObject>)
    ensures Agrees(a, a)
  {
    if a.Some? { EquivReflexive(Object(a.value.fields)); }
  }

  lemma ApplyForKey(m: map<string, LogicalObject>, key: string, l: map<string, LogicalObject>,
                    r: map<string, LogicalObject>)
    requires BuiltMap(l) && BuiltMap(r) && (key in l || key in r)
    requires Lookup(m, key) == Lookup(l, key)
    ensures var p := ApplyEntries(m, EntryFor(key, l, r));
            Agrees(Lookup(p, key), Lookup(r, key)) && forall k :: k != key ==> Lookup(p, k) == Lookup(m, k)
  {
    hide Clean, SameRecord, Classifies, EntryAbout;
    EntryForClassifies(key, l, r);
    AgreesWithItself(Lookup(r, key));
    var es := EntryFor(key, l, r);
    if es != [] {
      var keys := [key];
      assert es[0] in es && es[1..] == [];
      assert EntriesFor(keys, l, r) == es + [] by { assert keys[1..] == []; }
      TypesArePlain(keys, l, r, es[0]);
      hide EntryFor;
      ApplyOne(m, es[0], key, Lookup(l, key), Lookup(r, key));
    }
  }

  lemma {:induction false} ApplyConcat(m: map<string, LogicalObject>, es: seq<Entry>, fs: seq<Entry>)
    ensures ApplyEntries(m, es + fs) == ApplyEntries(ApplyEntries(m, es), fs)
    decreases |es|
  {
    if es == [] {
      assert es + fs == fs;
    } else {
      assert (es + fs)[1..] == es[1..] + fs;
      ApplyConcat(ApplyEntry(m, es[0]), es[1..], fs);
    }
  }

  lemma {:induction false} ApplyForKeys(m: map<string, LogicalObject>, keys: seq<string>,
                                        l: map<string, LogicalObject>, r: map<string, LogicalObject>)
    requires BuiltMap(l) && BuiltMap(r) && StrictlySorted(keys) && forall k :: k in keys ==> k in l || k in r
    requires forall k :: k in keys ==> Lookup(m, k) == Lookup(l, k)
    ensures var p := ApplyEntries(m, EntriesFor(keys, l, r));
            && (forall k :: k in keys ==> Agrees(Lookup(p, k), Lookup(r, k)))
            && (forall k :: k !in keys ==> Lookup(p, k) == Lookup(m, k))
    decreases |keys|
  {
    hide EntryFor, Agrees, Lookup;
    if keys != [] {
      assert keys[0] in keys && keys[0] !in keys[1..];
      ApplyForKey(m, keys[0], l, r);
      ApplyConcat(m, EntryFor(keys[0], l, r), EntriesFor(keys[1..], l, r));
      ApplyForKeys(ApplyEntries(m, EntryFor(keys[0], l, r)), keys[1..], l, r);
    }
  }

  /** Applying the entries to the left database gives the right one, up to list and source order. */
  lemma ApplyingTheDiff(left: Database, right: Database, key: string)
    requires Built(left) && Built(right)
    ensures Agrees(Lookup(ApplyEntries(ByKey(left), Diff(left, right)), key), Lookup(ByKey(right), key))
  {
    hide Agrees, EntriesFor;
    ByKeyIsBuilt(left);
    ByKeyIsBuilt(right);
    var l, r := ByKey(left), ByKey(right);
    var keys := SortedKeys(l.Keys + r.Keys);
    ApplyForKeys(l, keys, l, r);
    if key !in keys {
      BothAbsent(Lookup(ApplyEntries(l, EntriesFor(keys, l, r)), key), Lookup(r, key));
    }
  }

  lemma BothAbsent(a: Option<LogicalObject>, b: Option<LogicalObject>)
    requires a.None? && b.None?
    ensures Agrees(a, b)
  {
  }

  // ---------- exchanging the databases ----------

  function FlipKind(k: Kind): Kind {
    match k
    case Added => Removed
    case Removed => Added
    case _ => k
  }

  function Flip(e: Entry): Entry {
    Entry(FlipKind(e.kind), e.typ, e.id, e.newValue, e.oldValue, Swapped(e.fieldChanges), e.newSources, e.oldSources)
  }

  function FlipAll(es: seq<Entry>): seq<Entry> {
    if es == [] then [] else [Flip(es[0])] + FlipAll(es[1..])
  }

  lemma {:induction false} FlipConcat(es: seq<Entry>, fs: seq<Entry>)
    ensures FlipAll(es + fs) == FlipAll(es) + FlipAll(fs)
  {
    if es == [] {
      assert es + fs == fs;
    } else {
      assert (es + fs)[1..] == es[1..] + fs;
      FlipConcat(es[1..], fs);
    }
  }

  lemma FlipForKey(key: string, l: map<string, LogicalObject>, r: map<string, LogicalObject>)
    requires KeyedMap(l) && KeyedMap(r) && (key in l || key in r)
    ensures EntryFor(key, r, l) == FlipAll(EntryFor(key, l, r))
  {
    hide Clean, DiffFields;
    if key in l && key in r {
      SwapSides("", Object(l[key].fields), Object(r[key].fields));
      MapKeyIsInjective(l[key].typ, l[key].id, r[key].typ, r[key].id);
    }
  }

  lemma {:induction false} FlipForKeys(keys: seq<string>, l: map<string, LogicalObject>, r: map<string, LogicalObject>)
    requires KeyedMap(l) && KeyedMap(r) && forall k :: k in keys ==> k in l || k in r
    ensures EntriesFor(keys, r, l) == FlipAll(EntriesFor(keys, l, r))
    decreases |keys|
  {
    hide EntryFor, KeyedMap;
    if keys != [] {
      assert keys[0] in keys;
      FlipForKey(keys[0], l, r);
      FlipForKeys(keys[1..], l, r);
      FlipConcat(EntryFor(keys[0], l, r), EntriesFor(keys[1..], l, r));
    }
  }

  /** Comparing in the other direction exchanges added with removed and old with new. */
  lemma DiffFlips(left: Database, right: Database)
    requires NamesPlain(left, right)
    ensures Diff(right, left) == FlipAll(Diff(left, right))
  {
    hide EntriesFor;
    ByKeyIsKeyed(left);
    ByKeyIsKeyed(right);
    var l, r := ByKey(left), ByKey(right);
    assert l.Keys + r.Keys == r.Keys + l.Keys;
    FlipForKeys(SortedKeys(l.Keys + r.Keys), l, r);
  }

  // ---------- nothing changed ----------

  lemma SelfFields(v: Value)
    requires v.Object?
    ensures DiffFields("", v, v) == []
  {
    EmptyByKey("", SortedKeys(UnionKeys(v, v)), v, v);
  }

  lemma {:induction false} SelfEntries(keys: seq<string>, m: map<string, LogicalObject>)
    requires forall k :: k in keys ==> k in m
    ensures EntriesFor(keys, m, m) == []
    decreases |keys|
  {
    hide DiffFields;
    if keys != [] {
      assert keys[0] in keys;
      SelfFields(Object(m[keys[0]].fields));
      SelfEntries(keys[1..], m);
    }
  }

  /** A database compared with itself has no entries, whatever it holds. */
  lemma SelfDiffIsEmpty(db: Database)
    ensures Diff(db, db) == []
  {
    hide EntriesFor;
    var m := ByKey(db);
    SelfEntries(SortedKeys(m.Keys + m.Keys), m);
  }

  // ---------- what is found in the files ----------

  /** The records of the files that parse, file by file. */
  lemma {:induction false} FoundExactly(a: seq<Batch>, b: seq<Batch>, objects: seq<LogicalObject>)
    ensures AllObjects([]) == [] && AllObjects([Failed]) == [] && AllObjects([Parsed(objects)]) == objects
    ensures AllObjects(a + b) == AllObjects(a) + AllObjects(b)
    decreases |b|
  {
    assert [Failed][..0] == [] && [Parsed(objects)][..0] == [] && [] + objects == objects;
    if b == [] {
      assert a + b == a;
    } else {
      FoundExactly(a, b[..|b| - 1], objects);
      assert (a + b)[..|a + b| - 1] == a + b[..|b| - 1];
    }
  }
}
