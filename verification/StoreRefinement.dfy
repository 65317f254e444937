/**
 The store refines a map from a type and an identifier to fields: what each operation does to it,
 and what whole runs keep (internal/data/store_ops.go, load.go).
*/
module StoreRefinement {
  import opened Text
  import Inheritance
  import opened StoreFiles
  import opened StoreOps
  import opened StoreListings

  // ---------- the map a store stands for ----------

  function Inline(w: World, t: string): Result<seq<Object>, StoreFiles.Error>
    requires w.Valid() && t in w.types
  {
    FromInline(w, t, w.inlineData[t], {})
  }

  ghost predicate DistinctIds(objects: seq<Object>) {
    forall i, j :: 0 <= i < j < |objects| ==> objects[i].id != objects[j].id
  }

  /** The type's files and inline data load, and no two of its file objects share an identifier. */
  ghost predicate HealthyType(w: World, files: Files, t: string)
    requires w.Valid() && t in w.types
  {
    FileObjects(w, files, t).Ok? && Inline(w, t).Ok? && DistinctIds(FileObjects(w, files, t).value)
  }

  /** The identifiers the type's files and inline data declare. */
  ghost function Known(w: World, files: Files, t: string): set<string>
    requires w.Valid() && t in w.types && HealthyType(w, files, t)
  {
    Ids(FileObjects(w, files, t).value) + Ids(Inline(w, t).value)
  }

  /** Every type is healthy, and identifiers are unique across each inheritance tree. */
  ghost predicate Healthy(w: World, files: Files)
    requires w.Valid()
  {
    && (forall t :: t in w.types ==> HealthyType(w, files, t))
    && (forall t, u ::
          t in w.types && u in w.types && t != u && Inheritance.Root(w.types, t) == Inheritance.Root(w.types, u)
          ==> Known(w, files, t) !! Known(w, files, u))
  }

  /** A file's object under the identifier, or else the inline one. */
  ghost function Lookup(w: World, files: Files, t: string, id: string): (r: Option<Fields>)
    requires w.Valid() && t in w.types && HealthyType(w, files, t)
    ensures r.Some? <==> id in Known(w, files, t)
  {
    match FirstWith(FileObjects(w, files, t).value, id)
    case Some(o) => Some(o.fields)
    case None => InlineFields(w, t, id)
  }

  ghost function InlineFields(w: World, t: string, id: string): (r: Option<Fields>)
    requires w.Valid() && t in w.types && Inline(w, t).Ok?
    ensures r.Some? <==> id in Ids(Inline(w, t).value)
  {
    match FirstWith(Inline(w, t).value, id) case Some(o) => Some(o.fields) case None => None
  }

  type Key = (string, string)

  ghost function Keys(w: World, files: Files): (r: set<Key>)
    requires w.Valid() && Healthy(w, files)
    ensures forall t, id :: (t, id) in r <==> t in w.types && id in Known(w, files, t)
  {
    set t, id | t in w.types && id in Known(w, files, t) :: (t, id)
  }

  /** The map the files stand for: the fields of each type's objects by identifier. */
  ghost function Contents(w: World, files: Files): (r: map<Key, Fields>)
    requires w.Valid() && Healthy(w, files)
    ensures r.Keys == Keys(w, files)
    ensures forall k :: k in r ==> Lookup(w, files, k.0, k.1) == Some(r[k])
  {
    map k | k in Keys(w, files) :: Lookup(w, files, k.0, k.1).value
  }

  // ---------- a change of one listing is a change of one binding ----------

  lemma InsertedObject(a: seq<Object>, o: Object, b: seq<Object>, id: string)
    ensures DistinctIds(a + [o] + b) <==> DistinctIds(a + b) && o.id !in Ids(a + b)
    ensures Ids(a + [o] + b) == Ids(a + b) + {o.id}
    ensures o.id !in Ids(a + b) ==> FirstWith(a + [o] + b, id) == if id == o.id then Some(o) else FirstWith(a + b, id)
  {
    hide FirstWith;
    FirstOfBoth(a + [o], b, id);
    FirstOfBoth(a, [o], id);
    FirstOfBoth(a, b, id);
    FirstOfOne(o, id);
    InsertedDistinct(a, o, b);
  }

  lemma FirstOfOne(o: Object, id: string)
    ensures FirstWith([o], id) == if o.id == id then Some(o) else None
    ensures Ids([o]) == {o.id}
  {
    assert [o][0] == o;
  }

  lemma InsertedDistinct(a: seq<Object>, o: Object, b: seq<Object>)
    ensures DistinctIds(a + [o] + b) <==> DistinctIds(a + b) && o.id !in Ids(a + b)
  {
    var all, rest := a + [o] + b, a + b;
    assert forall i :: 0 <= i < |rest| ==> rest[i] == all[if i < |a| then i else i + 1];
    assert forall i :: 0 <= i < |all| && i != |a| ==> all[i] == rest[if i < |a| then i else i - 1];
    assert all[|a|] == o;
    if DistinctIds(all) {
      forall i | 0 <= i < |rest| ensures rest[i].id != o.id {
        assert rest[i] == all[if i < |a| then i else i + 1];
      }
    }
    if DistinctIds(rest) && o.id !in Ids(rest) {
      forall i | 0 <= i < |rest| ensures rest[i].id != o.id {
        assert rest[i] in rest;
      }
    }
  }

  lemma ChangedListing(before: seq<Object>, later: seq<Object>, a: seq<Object>, gone: seq<Object>, come: seq<Object>,
                       b: seq<Object>,
                       id: string, other: string)
    requires Places(before, later, a, gone, come, b) && DistinctIds(before)
    requires |gone| <= 1 && |come| <= 1 && (forall o :: o in gone + come ==> o.id == id)
    requires gone == [] ==> id !in Ids(before)
    ensures DistinctIds(later)
    ensures FirstWith(later, other)
            == if other != id then FirstWith(before, other) else if come != [] then Some(come[0]) else None
    ensures gone != [] ==> FirstWith(before, id) == Some(gone[0])
    ensures Ids(later) <= Ids(before) + (if come == [] then {} else {id})
  {
    hide FirstWith, DistinctIds, Ids;
    assert a + [] + b == a + b;
    if gone != [] {
      assert gone[0] in gone + come && gone == [gone[0]];
      InsertedObject(a, gone[0], b, id);
      InsertedObject(a, gone[0], b, other);
    }
    assert DistinctIds(a + b) && id !in Ids(a + b);
    if come != [] {
      assert come[0] in gone + come && come == [come[0]];
      InsertedObject(a, come[0], b, other);
    }
  }

  /** Adding, replacing or removing one object of a healthy type, and the type stays healthy. */
  lemma ChangedType(w: World, files: Files, after: Files, t: string, gone: seq<Object>, come: seq<Object>, id: string,
                    other: string)
    requires w.Valid() && t in w.types && HealthyType(w, files, t) && Changes(w, files, after, t, gone, come)
    requires |gone| <= 1 && |come| <= 1 && (forall o :: o in gone + come ==> o.id == id)
    requires gone == [] ==> id !in Ids(FileObjects(w, files, t).value)
    ensures HealthyType(w, after, t)
    ensures Lookup(w, after, t, other) ==
            if other != id then Lookup(w, files, t, other)
            else if come != [] then Some(come[0].fields) else InlineFields(w, t, id)
    ensures gone != [] ==> Lookup(w, files, t, id) == Some(gone[0].fields)
    ensures Known(w, after, t) <= Known(w, files, t) + (if come == [] then {} else {id})
  {
    hide FileObjects, Ids, FirstWith, Inline, InlineFields, DistinctIds;
    var before, later := FileObjects(w, files, t).value, FileObjects(w, after, t).value;
    var a, b :| Places(before, later, a, gone, come, b);
    ChangedListing(before, later, a, gone, come, b, id, id);
    ChangedListing(before, later, a, gone, come, b, id, other);
  }

  /** A create must find its identifier nowhere in the tree; an update or a delete acts on one object. */
  ghost predicate Fresh(w: World, files: Files, t: string, gone: seq<Object>, id: string)
    requires w.Valid() && t in w.types && Healthy(w, files)
  {
    gone == [] ==>
      forall u :: u in w.types && Inheritance.Root(w.types, u) == Inheritance.Root(w.types, t) ==>
          id !in Known(w, files, u)
  }

  /** The files stay healthy, and exactly one binding of the map changes. */
  lemma ChangedContents(w: World, files: Files, after: Files, t: string, gone: seq<Object>, come: seq<Object>,
                        id: string)
    requires w.Valid() && t in w.types && Healthy(w, files) && Changes(w, files, after, t, gone, come)
    requires |gone| <= 1 && |come| <= 1 && (forall o :: o in gone + come ==> o.id == id) && Fresh(w, files, t, gone, id)
    ensures Healthy(w, after)
    ensures gone != [] ==> (t, id) in Contents(w, files) && Contents(w, files)[(t, id)] == gone[0].fields
    ensures Inline(w, t).Ok? && Contents(w, after) == Bound(Contents(w, files), (t, id), Binding(w, t, come, id))
  {
    hide FileObjects, Ids, FirstWith, Inline, InlineFields, DistinctIds, Changes, Lookup, Known, HealthyType;
    assert HealthyType(w, files, t);
    OthersHealthy(w, files, after, t, gone, come);
    FreshHere(w, files, t, gone, id);
    ChangedType(w, files, after, t, gone, come, id, id);
    ChangedStaysHealthy(w, files, after, t, gone, come, id);
    forall u, i | u in w.types ensures BecomesAt(w, files, after, t, id, Binding(w, t, come, id), u, i) {
      LookupAfter(w, files, after, t, gone, come, id, u, i);
    }
    ContentsBecome(w, files, after, t, id, Binding(w, t, come, id));
  }

  /** What the identifier is bound to once its file objects are these: an inline object shows through. */
  ghost function Binding(w: World, t: string, come: seq<Object>, id: string): Option<Fields>
    requires w.Valid() && t in w.types && Inline(w, t).Ok?
  {
    if come != [] then Some(come[0].fields) else InlineFields(w, t, id)
  }

  ghost predicate BecomesAt(w: World, files: Files, after: Files, t: string, id: string, binding: Option<Fields>,
                            u: string, i: string)
    requires w.Valid() && u in w.types && Healthy(w, files) && Healthy(w, after)
  {
    && HealthyType(w, files, u) && HealthyType(w, after, u)
    && Lookup(w, after, u, i) == if u == t && i == id then binding else Lookup(w, files, u, i)
  }

  function Bound(m: map<Key, Fields>, k: Key, binding: Option<Fields>): map<Key, Fields> {
    match binding case Some(fields) => m[k := fields] case None => m - {k}
  }

  lemma ContentsBecome(w: World, files: Files, after: Files, t: string, id: string, binding: Option<Fields>)
    requires w.Valid() && t in w.types && Healthy(w, files) && Healthy(w, after)
    requires forall u, i :: u in w.types ==> BecomesAt(w, files, after, t, id, binding, u, i)
    ensures Contents(w, after) == Bound(Contents(w, files), (t, id), binding)
  {
    hide Healthy, HealthyType, Known, Lookup, Contents, Got;
    forall k: Key
      ensures Got(Contents(w, after), k) == if k == (t, id) then binding else Got(Contents(w, files), k)
    {
      ContentsAt(w, files, k);
      ContentsAt(w, after, k);
      if k.0 in w.types { assert BecomesAt(w, files, after, t, id, binding, k.0, k.1); }
    }
    MapBecomes(Contents(w, files), Contents(w, after), (t, id), binding);
  }

  function Got(m: map<Key, Fields>, k: Key): Option<Fields> {
    if k in m then Some(m[k]) else None
  }

  lemma ContentsAt(w: World, files: Files, k: Key)
    requires w.Valid() && Healthy(w, files)
    ensures k.0 in w.types ==> HealthyType(w, files, k.0)
    ensures Got(Contents(w, files), k) == if k.0 in w.types then Lookup(w, files, k.0, k.1) else None
  {
    hide HealthyType, Known, Lookup;
    assert k in Contents(w, files) <==> (k.0, k.1) in Keys(w, files);
  }

  lemma MapBecomes(was: map<Key, Fields>, now: map<Key, Fields>, key: Key, binding: Option<Fields>)
    requires forall k :: Got(now, k) == if k == key then binding else Got(was, k)
    ensures now == Bound(was, key, binding)
  {
    forall k ensures k in now <==> k in Bound(was, key, binding) {
      assert Got(now, k) == if k == key then binding else Got(was, k);
    }
    forall k | k in now ensures now[k] == Bound(was, key, binding)[k] {
      assert Got(now, k) == if k == key then binding else Got(was, k);
    }
  }

  lemma OthersHealthy(w: World, files: Files, after: Files, t: string, gone: seq<Object>, come: seq<Object>)
    requires w.Valid() && t in w.types && Healthy(w, files) && Changes(w, files, after, t, gone, come)
    ensures forall u :: u in w.types && u != t ==> HealthyType(w, after, u) && Known(w, after, u) == Known(w, files, u)
  {
    hide FileObjects, Inline, Ids, DistinctIds;
    forall u | u in w.types && u != t ensures HealthyType(w, after, u) && Known(w, after, u) == Known(w, files, u) {
      assert HealthyType(w, files, u);
    }
  }

  lemma FreshHere(w: World, files: Files, t: string, gone: seq<Object>, id: string)
    requires w.Valid() && t in w.types && Healthy(w, files) && Fresh(w, files, t, gone, id)
    ensures HealthyType(w, files, t) && (gone == [] ==> id !in Ids(FileObjects(w, files, t).value))
  {
    if gone == [] { assert id !in Known(w, files, t); }
  }

  lemma ChangedStaysHealthy(w: World, files: Files, after: Files, t: string, gone: seq<Object>, come: seq<Object>,
                            id: string)
    requires w.Valid() && t in w.types && Healthy(w, files) && Changes(w, files, after, t, gone, come)
    requires |gone| <= 1 && |come| <= 1 && (forall o :: o in gone + come ==> o.id == id) && Fresh(w, files, t, gone, id)
    ensures Healthy(w, after)
  {
    hide FileObjects, Ids, FirstWith, Inline, InlineFields, DistinctIds, Changes, Lookup, HealthyType;
    assert HealthyType(w, files, t);
    OthersHealthy(w, files, after, t, gone, come);
    FreshHere(w, files, t, gone, id);
    ChangedType(w, files, after, t, gone, come, id, id);
    hide Known;
    if gone != [] { assert id in Known(w, files, t); }
    forall u | u in w.types && u != t && Inheritance.Root(w.types, t) == Inheritance.Root(w.types, u)
      ensures Known(w, after, t) !! Known(w, after, u)
    {
      assert HealthyType(w, files, u);
    }
  }

  lemma LookupAfter(w: World, files: Files, after: Files, t: string, gone: seq<Object>, come: seq<Object>, id: string,
                    u: string, i: string)
    requires w.Valid() && t in w.types && u in w.types && Healthy(w, files) && Healthy(w, after)
             && Changes(w, files, after, t, gone, come)
    requires |gone| <= 1 && |come| <= 1 && (forall o :: o in gone + come ==> o.id == id) && Fresh(w, files, t, gone, id)
    ensures HealthyType(w, files, u) && HealthyType(w, after, u)
    ensures Lookup(w, after, u, i) ==
            if u != t || i != id then Lookup(w, files, u, i)
            else if come != [] then Some(come[0].fields) else InlineFields(w, t, id)
  {
    hide FileObjects, Ids, FirstWith, Inline, InlineFields, DistinctIds;
    if u == t {
      FreshHere(w, files, t, gone, id);
      ChangedType(w, files, after, t, gone, come, id, i);
    }
  }

  // ---------- a healthy store loads ----------

  lemma {:induction false} InlineSeen(w: World, t: string, items: seq<Fields>, seen: set<string>, more: set<string>,
                                      id: string)
    requires t in w.types && FromInline(w, t, items, seen).Ok?
    ensures FromInline(w, t, items, seen + more).Ok?
    ensures FirstWith(FromInline(w, t, items, seen + more).value, id) ==
            if id in more then None else FirstWith(FromInline(w, t, items, seen).value, id)
  {
    if items != [] {
      var head := IdOf(w, t, items[0]).value;
      InlineSeen(w, t, items[1..], seen + {head}, more, id);
      assert seen + {head} + more == seen + more + {head};
      var one := [InlineObject(t, head, items[0])];
      FirstOfBoth(if head in seen then [] else one, FromInline(w, t, items[1..], seen + {head}).value, id);
      FirstOfBoth(if head in seen + more then []
                  else one, FromInline(w, t, items[1..], seen + more + {head}).value, id);
      InlineUnseen(w, t, items[1..], seen + {head});
      assert FirstWith(one, id) == if id == head then Some(one[0]) else None by { FirstOfOne(one[0], id); }
    }
  }

  lemma {:induction false} InlineUnseen(w: World, t: string, items: seq<Fields>, seen: set<string>)
    requires t in w.types && FromInline(w, t, items, seen).Ok?
    ensures Ids(FromInline(w, t, items, seen).value) !! seen
  {
    if items != [] {
      InlineUnseen(w, t, items[1..], seen + {IdOf(w, t, items[0]).value});
    }
  }

  /** What loads for a healthy type is what the map binds, files before inline data. */
  lemma HealthyLoadsExact(w: World, files: Files, t: string, id: string)
    requires w.Valid() && t in w.types && HealthyType(w, files, t)
    ensures LoadExact(w, files, t).Ok?
    ensures var first := FirstWith(LoadExact(w, files, t).value, id);
            Lookup(w, files, t, id) == if first.Some? then Some(first.value.fields) else None
  {
    var objects := FileObjects(w, files, t).value;
    hide FileObjects, FirstWith, Ids, DistinctIds;
    InlineSeen(w, t, w.inlineData[t], {}, Ids(objects), id);
    assert {} + Ids(objects) == Ids(objects);
    FirstOfBoth(objects, FromInline(w, t, w.inlineData[t], Ids(objects)).value, id);
  }

  lemma HealthyIds(w: World, files: Files, t: string)
    requires w.Valid() && t in w.types && HealthyType(w, files, t)
    ensures LoadExact(w, files, t).Ok? && Ids(LoadExact(w, files, t).value) == Known(w, files, t)
  {
    hide FileObjects, FirstWith, Ids, DistinctIds, Known, LoadExact, HealthyType, Lookup;
    HealthyLoadsExact(w, files, t, "");
    forall id ensures id in Ids(LoadExact(w, files, t).value) <==> id in Known(w, files, t) {
      HealthyLoadsExact(w, files, t, id);
    }
  }

  ghost predicate OneTree(w: World, names: seq<string>) {
    && (forall n :: n in names ==> n in w.types)
    && (forall n, m :: n in names && m in names ==> Inheritance.Root(w.types, n) == Inheritance.Root(w.types, m))
    && Inheritance.Distinct(names)
  }

  ghost predicate KnownIn(w: World, files: Files, names: seq<string>, id: string)
    requires w.Valid() && Healthy(w, files)
  {
    exists n :: n in names && n in w.types && id in Known(w, files, n)
  }

  lemma {:induction false} HealthyLoads(w: World, files: Files, names: seq<string>, loaded: seq<Object>)
    requires w.Valid() && Healthy(w, files) && OneTree(w, names)
    requires forall n :: n in names ==> Ids(loaded) !! Known(w, files, n)
    ensures LoadNames(w, files, names, loaded).Ok?
    ensures forall id :: id in Ids(LoadNames(w, files, names, loaded).value) <==>
                         id in Ids(loaded) || KnownIn(w, files, names, id)
  {
    if names != [] {
      hide FirstWith, Known, HealthyType, LoadExact, Ids;
      var n := names[0];
      assert n in names && HealthyType(w, files, n);
      HealthyIds(w, files, n);
      var objects := LoadExact(w, files, n).value;
      FirstOfBoth(loaded, objects, "");
      TailOfTree(w, names);
      forall m | m in names[1..] ensures Ids(loaded + objects) !! Known(w, files, m) {
        assert m in names;
      }
      HealthyLoads(w, files, names[1..], loaded + objects);
      forall id ensures KnownIn(w, files, names, id) <==>
          id in Known(w, files, n) || KnownIn(w, files, names[1..], id) {
        KnownSplits(w, files, names, id);
      }
    }
  }

  lemma TailOfTree(w: World, names: seq<string>)
    requires OneTree(w, names) && names != []
    ensures OneTree(w, names[1..]) && names[0] !in names[1..]
    ensures forall m :: m in names[1..] ==>
              m in names && m in w.types && Inheritance.Root(w.types, m) == Inheritance.Root(w.types, names[0])
  {
    var rest := names[1..];
    assert forall i :: 0 <= i < |rest| ==> rest[i] == names[i + 1];
  }

  lemma KnownSplits(w: World, files: Files, names: seq<string>, id: string)
    requires w.Valid() && Healthy(w, files) && names != [] && names[0] in w.types
    ensures KnownIn(w, files, names, id) <==> id in Known(w, files, names[0]) || KnownIn(w, files, names[1..], id)
  {
    hide Known, HealthyType;
    if KnownIn(w, files, names, id) {
      var n :| n in names && n in w.types && id in Known(w, files, n);
      assert n == names[0] || n in names[1..];
    }
    if KnownIn(w, files, names[1..], id) {
      var n :| n in names[1..] && n in w.types && id in Known(w, files, n);
      assert n in names;
    }
  }

  // ---------- the operations on the map ----------

  lemma TreeIsOneTree(w: World, t: string)
    requires w.Trees() && t in w.types
    ensures OneTree(w, Tree(w, t))
    ensures forall u :: u in Tree(w, t) <==>
            u in w.types && Inheritance.Root(w.types, u) == Inheritance.Root(w.types, t)
  {
    var root := Inheritance.Root(w.types, t);
    Inheritance.AssignableNames(w.types, root);
    forall u | u in w.types ensures u in Tree(w, t) <==> Inheritance.Root(w.types, u) == root {
      Inheritance.TreeOfRoot(w.types, t, u);
    }
  }

  lemma AssignableIsOneTree(w: World, t: string)
    requires w.Trees() && t in w.types
    ensures OneTree(w, Inheritance.Assignable(w.types, t))
  {
    Inheritance.AssignableNames(w.types, t);
    forall u | u in Inheritance.Assignable(w.types, t)
      ensures Inheritance.Root(w.types, u) == Inheritance.Root(w.types, t) {
      Inheritance.SubtypesShareRoot(w.types, t, u);
    }
  }

  /** Searching the tree of a healthy store finds an identifier exactly when some type of the tree has it. */
  lemma FindInTree(w: World, files: Files, names: seq<string>, id: string)
    requires w.Valid() && Healthy(w, files) && OneTree(w, names)
    ensures FindInTypes(w, files, names, None, id).Ok?
    ensures FindInTypes(w, files, names, None, id).value.Some? <==> KnownIn(w, files, names, id)
  {
    assert forall n :: n in names ==> n in w.types;
    hide Healthy, OneTree, KnownIn, Known;
    HealthyLoads(w, files, names, []);
    FindInTypesAgrees(w, files, names, [], None, id);
  }

  /** A create succeeds exactly when its identifier is new to the whole tree and there is a file to write it to. */
  lemma CreateSucceeds(w: World, files: Files, t: string, fields: Fields)
    requires w.Trees() && Healthy(w, files)
    ensures Create(w, files, t, fields).Ok? <==>
              && t in w.types && IdOf(w, t, fields).Some?
              && var id := IdOf(w, t, fields).value;
                 && (forall u :: u in w.types && Inheritance.Root(w.types, u) == Inheritance.Root(w.types, t)
                       ==> (u, id) !in Contents(w, files))
                 && TargetOf(w, t, id).Ok?
                 && Stored(w, files, t, TargetOf(w, t, id).value, Created(w, t, id, fields)).Ok?
  {
    if t in w.types && IdOf(w, t, fields).Some? {
      var id := IdOf(w, t, fields).value;
      hide Healthy, OneTree, Contents, Known, ChooseTarget, Stored, Created, Tree;
      TreeIsOneTree(w, t);
      FindInTree(w, files, Tree(w, t), id);
      TreeBindings(w, files, t, id);
    }
  }

  lemma TreeBindings(w: World, files: Files, t: string, id: string)
    requires w.Trees() && Healthy(w, files) && t in w.types
    ensures KnownIn(w, files, Tree(w, t), id) <==>
              exists u :: u in w.types && Inheritance.Root(w.types, u) == Inheritance.Root(w.types, t)
                  && (u, id) in Contents(w, files)
  {
    hide Known, Tree;
    TreeIsOneTree(w, t);
    if KnownIn(w, files, Tree(w, t), id) {
      var u :| u in Tree(w, t) && u in w.types && id in Known(w, files, u);
      assert (u, id) in Contents(w, files);
    }
    if u :|
      u in w.types && Inheritance.Root(w.types, u) == Inheritance.Root(w.types, t) && (u, id) in Contents(w, files)
    {
      assert u in Tree(w, t) && id in Known(w, files, u);
    }
  }

  /** A create into a receiving target binds the new identifier and changes no other binding. */
  lemma CreateRefines(w: World, files: Files, t: string, fields: Fields)
    requires w.Trees() && Healthy(w, files) && Create(w, files, t, fields).Ok? && t in w.types
    requires var o := Create(w, files, t, fields).value.1;
             && TargetOf(w, t, o.id).Ok? && Exclusive(w, o.file)
             && Read(w, t, o.file) && Receives(files, t, TargetOf(w, t, o.id).value, fields)
    requires PlainId(w, t)
    ensures var (after, o) := Create(w, files, t, fields).value;
            Healthy(w, after) && Contents(w, after) == Contents(w, files)[(t, o.id) := o.fields]
  {
    var (after, o) := Create(w, files, t, fields).value;
    CreateParts(w, files, t, fields);
    HealthyFiles(w, files, t);
    hide *;
    CreateAddsOne(w, files, t, fields);
    CreateIsFresh(w, files, t, o);
    ChangedContents(w, files, after, t, [], [o], o.id);
  }

  lemma CreateIsFresh(w: World, files: Files, t: string, o: Object)
    requires w.Trees() && Healthy(w, files) && t in w.types && FindInTypes(w, files, Tree(w, t), None, o.id) == Ok(None)
    ensures Fresh(w, files, t, [], o.id) && |[o]| == 1 && forall x :: x in [] + [o] ==> x.id == o.id
  {
    hide Tree, FindInTypes, Known;
    TreeIsOneTree(w, t);
    FindInTree(w, files, Tree(w, t), o.id);
  }

  /** What an update or a delete finds is what the map binds. */
  lemma WritableIsBound(w: World, files: Files, t: string, id: string)
    requires w.Valid() && Healthy(w, files) && t in w.types
    ensures HealthyType(w, files, t) && LoadExact(w, files, t).Ok?
    ensures var first := FirstWith(LoadExact(w, files, t).value, id);
            && (Writable(w, files, t, id).Ok? <==> first.Some? && !first.value.inlined && !first.value.readOnly)
            && (Writable(w, files, t, id).Ok? ==> Writable(w, files, t, id).value.found == first.value)
  {
    assert HealthyType(w, files, t);
    hide Healthy, HealthyType, LoadExact, FindInType, FirstWith, Lookup;
    HealthyLoadsExact(w, files, t, id);
    FindInTypeAgrees(w, files, t, id);
    WritableParts(w, files, t, id);
    hide Writable;
    if FindInType(w, files, t, id).value.Some? { FindFlags(w, files, t, id); }
  }

  lemma WritableParts(w: World, files: Files, t: string, id: string)
    requires w.Valid() && t in w.types
    ensures var r := FindInType(w, files, t, id);
            && (Writable(w, files, t, id).Ok? <==>
                r.Ok? && r.value.Some? && r.value.value.content.Some? && !r.value.value.content.value.readOnly)
            && (Writable(w, files, t, id).Ok? ==> Writable(w, files, t, id).value == r.value.value)
  {
    hide FindInType;
    assert FindInTypes(w, files, [t], None, id) == FindInType(w, files, t, id) by { assert [t][1..] == []; }
  }

  lemma FindFlags(w: World, files: Files, t: string, id: string)
    requires w.Valid() && t in w.types && FindInType(w, files, t, id).Ok? && FindInType(w, files, t, id).value.Some?
    ensures var loc := FindInType(w, files, t, id).value.value;
            && (loc.content.None? <==> loc.found.inlined)
            && (loc.content.Some? ==> loc.found.readOnly == loc.content.value.readOnly)
  {
    hide FileMatches, LoadFile, FindInFiles, FindItem, FindInline, IsAt;
    FindPlace(w, files, t, FileMatches(w, files.Keys, t), id);
    var r := FindInFiles(w, files, t, FileMatches(w, files.Keys, t), id);
    if r.value.Some? {
      var loc := r.value.value;
      FindItemPlace(w, t, Objects(loc.content.value), loc.content.value, loc.path, 0, id);
    }
    InlineFlags(w, t, w.inlineData[t], 0, id);
  }

  lemma {:induction false} InlineFlags(w: World, t: string, items: seq<Fields>, index: nat, id: string)
    requires t in w.types
    ensures var r := FindInline(w, t, items, index, id);
            r.Ok? && r.value.Some? ==> r.value.value.content.None? && r.value.value.found.inlined
  {
    if items != [] { InlineFlags(w, t, items[1..], index + 1, id); }
  }

  /** An update rebinds the identifier to the merged or replaced fields and changes no other binding. */
  lemma UpdateRefines(w: World, files: Files, t: string, id: string, fields: Fields, merge: bool)
    requires w.Valid() && Healthy(w, files) && Update(w, files, t, id, fields, merge).Ok? && t in w.types
    requires var loc := Writable(w, files, t, id).value;
             && Exclusive(w, loc.path) && loc.content.Some? && (loc.content.value.Single? ==> "items" !in fields)
    requires PlainId(w, t)
    ensures var (after, o) := Update(w, files, t, id, fields, merge).value;
            && Healthy(w, after) && (t, id) in Contents(w, files)
            && o.fields == Updated(w, t, id, Contents(w, files)[(t, id)], fields, merge)
            && Contents(w, after) == Contents(w, files)[(t, id) := o.fields]
  {
    hide *;
    UpdateParts(w, files, t, id, fields, merge);
    HealthyFiles(w, files, t);
    var loc := Writable(w, files, t, id).value;
    var (after, o) := Update(w, files, t, id, fields, merge).value;
    UpdateReplacesOne(w, files, t, id, fields, merge);
    ReplacedIsFresh(w, files, t, loc.found, [o], id);
    ChangedContents(w, files, after, t, [loc.found], [o], id);
    Rebound(w, t, o, id, Contents(w, files));
  }

  lemma Rebound(w: World, t: string, o: Object, id: string, m: map<Key, Fields>)
    requires w.Valid() && t in w.types && Inline(w, t).Ok?
    ensures Bound(m, (t, id), Binding(w, t, [o], id)) == m[(t, id) := o.fields]
  {
  }

  lemma UpdateParts(w: World, files: Files, t: string, id: string, fields: Fields, merge: bool)
    requires w.Valid() && Update(w, files, t, id, fields, merge).Ok?
    ensures Writable(w, files, t, id).Ok?
    ensures var loc := Writable(w, files, t, id).value;
            var o := Update(w, files, t, id, fields, merge).value.1;
            t in w.types && loc.found.id == id && o.id == id
                && o.fields == Updated(w, t, id, loc.found.fields, fields, merge)
  {
    WritableAt(w, files, t, id);
  }

  lemma HealthyFiles(w: World, files: Files, t: string)
    requires w.Valid() && Healthy(w, files) && t in w.types
    ensures FileObjects(w, files, t).Ok? && Inline(w, t).Ok?
  {
    assert HealthyType(w, files, t);
  }

  lemma ReplacedIsFresh(w: World, files: Files, t: string, gone: Object, come: seq<Object>, id: string)
    requires w.Valid() && t in w.types && Healthy(w, files) && gone.id == id && (forall o :: o in come ==> o.id == id)
    ensures Fresh(w, files, t, [gone], id) && |[gone]| == 1 && forall o :: o in [gone] + come ==> o.id == id
  {
  }

  /** A delete unbinds the identifier, unless inline data has it too and now shows, and changes no other binding. */
  lemma DeleteRefines(w: World, files: Files, t: string, id: string)
    requires w.Valid() && Healthy(w, files) && Delete(w, files, t, id).Ok? && t in w.types
    requires Exclusive(w, Writable(w, files, t, id).value.path)
    ensures var after := Delete(w, files, t, id).value;
            && Healthy(w, after) && (t, id) in Contents(w, files)
            && Inline(w, t).Ok? && Contents(w, after) == Bound(Contents(w, files), (t, id), InlineFields(w, t, id))
  {
    var loc := Writable(w, files, t, id).value;
    var after := Delete(w, files, t, id).value;
    WritableAt(w, files, t, id);
    HealthyFiles(w, files, t);
    assert Binding(w, t, [], id) == InlineFields(w, t, id);
    hide *;
    DeleteRemovesOne(w, files, t, id);
    ReplacedIsFresh(w, files, t, loc.found, [], id);
    ChangedContents(w, files, after, t, [loc.found], [], id);
  }

  /** A get finds exactly what some assignable type binds, with its fields. */
  lemma GetRefines(w: World, files: Files, t: string, id: string)
    requires w.Trees() && Healthy(w, files) && t in w.types && id != ""
    ensures Get(w, files, t, id).Ok? <==>
            exists u :: Inheritance.InheritsFrom(w.types, u, t) && (u, id) in Contents(w, files)
    ensures Get(w, files, t, id).Ok? ==>
              var o := Get(w, files, t, id).value;
              && o.id == id && Inheritance.InheritsFrom(w.types, o.typeName, t)
              && (o.typeName, id) in Contents(w, files) && o.fields == Contents(w, files)[(o.typeName, id)]
  {
    hide Healthy, Known, Contents, KnownIn;
    var names := Inheritance.Assignable(w.types, t);
    Inheritance.AssignableNames(w.types, t);
    AssignableIsOneTree(w, t);
    FindInTree(w, files, names, id);
    KnownNames(w, files, names, id);
    if Get(w, files, t, id).Ok? {
      FoundAmong(w, files, names, None, id);
    }
  }

  lemma KnownNames(w: World, files: Files, names: seq<string>, id: string)
    requires w.Valid() && Healthy(w, files) && forall n :: n in names ==> n in w.types
    ensures KnownIn(w, files, names, id) <==> exists u :: u in names && (u, id) in Contents(w, files)
  {
    hide Known;
    if KnownIn(w, files, names, id) {
      var n :| n in names && n in w.types && id in Known(w, files, n);
      assert (n, id) in Contents(w, files);
    }
    if u :| u in names && (u, id) in Contents(w, files) {
      assert u in names && u in w.types && id in Known(w, files, u);
    }
  }

  lemma {:induction false} FoundAmong(w: World, files: Files, names: seq<string>, found: Option<Location>, id: string)
    requires w.Valid() && Healthy(w, files) && forall n :: n in names ==> n in w.types
    requires FindInTypes(w, files, names, found, id).Ok? && FindInTypes(w, files, names, found, id).value.Some?
    ensures var loc := FindInTypes(w, files, names, found, id).value.value;
            || found == Some(loc)
            || (loc.found.id == id && loc.found.typeName in names
                && (loc.found.typeName, id) in Contents(w, files)
                    && loc.found.fields == Contents(w, files)[(loc.found.typeName, id)])
  {
    hide Known, Contents, HealthyType, LoadExact, FindInType, Healthy;
    if names != [] {
      var n := names[0];
      var here := FindInType(w, files, n, id);
      FoundAmong(w, files, names[1..], if here.value.Some? then here.value else found, id);
      if here.value.Some? { FoundInType(w, files, n, id); }
      forall m | m in names[1..] ensures m in names { }
    }
  }

  lemma FoundInType(w: World, files: Files, t: string, id: string)
    requires w.Valid() && Healthy(w, files) && t in w.types && FindInType(w, files, t, id).Ok?
             && FindInType(w, files, t, id).value.Some?
    ensures var o := FindInType(w, files, t, id).value.value.found;
            o.id == id && o.typeName == t && (t, id) in Contents(w, files) && o.fields == Contents(w, files)[(t, id)]
  {
    assert HealthyType(w, files, t);
    HealthyLoadsExact(w, files, t, id);
    FindInTypeAgrees(w, files, t, id);
    TypeOfLoaded(w, files, t);
    var first := FirstWith(LoadExact(w, files, t).value, id);
    hide FileObjects, HealthyType, FirstWith, LoadExact, FindInType, Known;
    ContentsAt(w, files, (t, id));
  }

  lemma {:induction false} TypeOfMatches(w: World, files: Files, t: string, ms: seq<Match>)
    requires t in w.types && FromMatches(w, files, t, ms).Ok?
    ensures forall o :: o in FromMatches(w, files, t, ms).value ==> o.typeName == t
  {
    if ms != [] {
      var content := LoadFile(w, files, ms[0].path, t, ms[0].selector).value;
      TypeOfItems(w, t, Objects(content), ms[0].path, content.readOnly);
      TypeOfMatches(w, files, t, ms[1..]);
    }
  }

  lemma {:induction false} TypeOfItems(w: World, t: string, items: seq<Fields>, path: string, readOnly: bool)
    requires t in w.types && FromItems(w, t, items, path, readOnly).Ok?
    ensures forall o :: o in FromItems(w, t, items, path, readOnly).value ==> o.typeName == t
  {
    if items != [] { TypeOfItems(w, t, items[1..], path, readOnly); }
  }

  lemma {:induction false} TypeOfInline(w: World, t: string, items: seq<Fields>, seen: set<string>)
    requires t in w.types && FromInline(w, t, items, seen).Ok?
    ensures forall o :: o in FromInline(w, t, items, seen).value ==> o.typeName == t
  {
    if items != [] { TypeOfInline(w, t, items[1..], seen + {IdOf(w, t, items[0]).value}); }
  }

  lemma TypeOfLoaded(w: World, files: Files, t: string)
    requires w.Valid() && t in w.types && LoadExact(w, files, t).Ok?
    ensures forall o :: o in LoadExact(w, files, t).value ==> o.typeName == t
  {
    TypeOfMatches(w, files, t, FileMatches(w, files.Keys, t));
    TypeOfInline(w, t, w.inlineData[t], Ids(FileObjects(w, files, t).value));
  }

  // ---------- runs ----------

  datatype Op =
    | Creating(t: string, fields: Fields)
    | Updating(t: string, id: string, fields: Fields, merge: bool)
    | Deleting(t: string, id: string)

  function Apply(w: World, files: Files, op: Op): Result<Files, StoreFiles.Error>
    requires w.Valid()
  {
    match op
    case Creating(t, fields) => (match Create(w, files, t, fields) case Ok(r) => Ok(r.0) case Err(e) => Err(e))
    case Updating(t, id, fields, merge) => (match Update(w, files, t, id, fields, merge) case Ok(r) => Ok(r.0)
                                            case Err(e) => Err(e))
    case Deleting(t, id) => Delete(w, files, t, id)
  }

  /** What a caller can check first: a receiving target, and no items field for an object alone in its file. */
  ghost predicate Safe(w: World, files: Files, op: Op)
    requires w.Valid()
  {
    match op
    case Creating(t, fields) =>
      t in w.types && IdOf(w, t, fields).Some? ==>
        var target := TargetOf(w, t, IdOf(w, t, fields).value);
        target.Ok? ==> Read(w, t, target.value.path) && Receives(files, t, target.value, fields)
    case Updating(t, id, fields, _) =>
      Writable(w, files, t, id).Ok? ==>
        var content := Writable(w, files, t, id).value.content;
        content.Some? && content.value.Single? ==> "items" !in fields
    case Deleting(_, _) => true
  }

  /** The operation on the map; a failed operation leaves it alone. */
  ghost function Effect(w: World, m: map<Key, Fields>, op: Op): map<Key, Fields>
    requires w.Valid() && forall t :: t in w.types ==> Inline(w, t).Ok?
  {
    match op
    case Creating(t, fields) =>
      if t !in w.types || IdOf(w, t, fields).None? then m
      else var id := IdOf(w, t, fields).value; m[(t, id) := Created(w, t, id, fields)]
    case Updating(t, id, fields, merge) =>
      if t !in w.types || (t, id) !in m then m else m[(t, id) := Updated(w, t, id, m[(t, id)], fields, merge)]
    case Deleting(t, id) => if t !in w.types then m else Bound(m, (t, id), InlineFields(w, t, id))
  }

  lemma StepRefines(w: World, files: Files, op: Op)
    requires w.Trees() && Healthy(w, files) && (forall p :: Exclusive(w, p)) && Safe(w, files, op)
             && Apply(w, files, op).Ok?
    requires forall t :: t in w.types ==> PlainId(w, t)
    ensures Healthy(w, Apply(w, files, op).value)
    ensures forall t :: t in w.types ==> Inline(w, t).Ok?
    ensures Contents(w, Apply(w, files, op).value) == Effect(w, Contents(w, files), op)
  {
    forall t | t in w.types ensures Inline(w, t).Ok? { assert HealthyType(w, files, t); }
    hide Healthy, Contents, Exclusive, Inline, Read, Receives;
    match op {
      case Creating(t, fields) =>
        CreateParts(w, files, t, fields);
        hide Create, IdOf, TargetOf, Created, Stored;
        CreateRefines(w, files, t, fields);
      case Updating(t, id, fields, merge) =>
        WritableAt(w, files, t, id);
        hide Update, Writable, Updated;
        UpdateRefines(w, files, t, id, fields, merge);
      case Deleting(t, id) =>
        WritableAt(w, files, t, id);
        hide Delete, Writable, InlineFields;
        DeleteRefines(w, files, t, id);
    }
  }

  /** The files after some operations: one that fails leaves them as they were. */
  function Run(w: World, files: Files, ops: seq<Op>): Files
    requires w.Valid()
    decreases |ops|
  {
    if ops == [] then files else Run(w, Applied(w, files, ops[0]), ops[1..])
  }

  function Applied(w: World, files: Files, op: Op): Files
    requires w.Valid()
  {
    match Apply(w, files, op) case Ok(after) => after case Err(_) => files
  }

  ghost predicate SafeRun(w: World, files: Files, ops: seq<Op>)
    requires w.Valid()
    decreases |ops|
  {
    ops == [] || (Safe(w, files, ops[0]) && SafeRun(w, Applied(w, files, ops[0]), ops[1..]))
  }

  /** The operations of a run that succeed, applied to a map. */
  ghost function RunEffect(w: World, files: Files, ops: seq<Op>, m: map<Key, Fields>): map<Key, Fields>
    requires w.Valid() && forall t :: t in w.types ==> Inline(w, t).Ok?
    decreases |ops|
  {
    if ops == [] then m
    else RunEffect(w, Applied(w, files, ops[0]), ops[1..],
                   if Apply(w, files, ops[0]).Ok? then Effect(w, m, ops[0]) else m)
  }

  /** Over every run the store stays healthy and stands for the map that the successful operations build. */
  lemma {:induction false} RunRefines(w: World, files: Files, ops: seq<Op>)
    requires w.Trees() && Healthy(w, files) && (forall p :: Exclusive(w, p)) && SafeRun(w, files, ops)
    requires forall t :: t in w.types ==> PlainId(w, t)
    ensures Healthy(w, Run(w, files, ops))
    ensures forall t :: t in w.types ==> Inline(w, t).Ok?
    ensures Contents(w, Run(w, files, ops)) == RunEffect(w, files, ops, Contents(w, files))
    decreases |ops|
  {
    forall t | t in w.types ensures Inline(w, t).Ok? { HealthyFiles(w, files, t); }
    hide Healthy, Contents, Exclusive, Inline, Safe, Apply, Effect;
    if ops != [] {
      if Apply(w, files, ops[0]).Ok? {
        StepRefines(w, files, ops[0]);
      }
      RunRefines(w, Applied(w, files, ops[0]), ops[1..]);
    }
  }
}
