/**
 What reading a store gives, file by file and object by object: which files a type reads, when a file can be
 read and which objects it holds, and the listing of a type (internal/data/load.go, fileio.go).
*/
module StoreReading {
  import opened Text
  import Inheritance
  import opened StoreFiles
  import opened StoreOps

  // ---------- one file ----------

  /** A value declares another type under the key. */
  ghost predicate DeclaresOther(value: Fields, key: string, t: string) {
    key in value && exists x :: x != "" && x != t && value[key] in {Str(x), Number(x)}
  }

  /** The identifier of a type's fields, as text. */
  ghost predicate HasId(w: World, t: string, fields: Fields, x: string)
    requires t in w.types
  {
    var field := w.types[t].identifier.field;
    field != "" && field in fields && fields[field] in {Str(x), Number(x)} && x != ""
  }

  ghost predicate Identified(w: World, t: string, fields: Fields)
    requires t in w.types
  {
    exists x :: HasId(w, t, fields, x)
  }

  /** The objects are the items in order, each with its identifier. */
  ghost predicate AreItems(w: World, t: string, objects: seq<Object>, items: seq<Fields>, path: string, readOnly: bool)
    requires t in w.types
  {
    && |objects| == |items|
    && forall k :: 0 <= k < |items| ==>
         && HasId(w, t, items[k], objects[k].id)
         && objects[k] == Object(t, objects[k].id, items[k], path, false, readOnly)
  }

  lemma HasIdExactly(w: World, t: string, fields: Fields, x: string)
    requires t in w.types
    ensures IdOf(w, t, fields) == Some(x) <==> HasId(w, t, fields, x)
  {
  }

  lemma IdentifiedExactly(w: World, t: string, fields: Fields)
    requires t in w.types
    ensures IdOf(w, t, fields).Some? <==> Identified(w, t, fields)
    ensures IdOf(w, t, fields).Some? ==> HasId(w, t, fields, IdOf(w, t, fields).value)
  {
    hide HasId, IdOf;
    if IdOf(w, t, fields).Some? { HasIdExactly(w, t, fields, IdOf(w, t, fields).value); }
    if x :| HasId(w, t, fields, x) { HasIdExactly(w, t, fields, x); }
  }

  /** Items load exactly if each has an identifier, and then as they are. */
  lemma {:induction false} ItemsExactly(w: World, t: string, items: seq<Fields>, path: string, readOnly: bool)
    requires t in w.types
    ensures var r := FromItems(w, t, items, path, readOnly);
            && (r.Ok? <==> forall k :: 0 <= k < |items| ==> Identified(w, t, items[k]))
            && (r.Ok? ==> AreItems(w, t, r.value, items, path, readOnly))
  {
    if items != [] {
      ItemsExactly(w, t, items[1..], path, readOnly);
      IdentifiedExactly(w, t, items[0]);
      hide IdOf, HasId, Identified;
      assert forall k :: 0 <= k < |items| - 1 ==> items[1..][k] == items[k + 1];
    }
  }

  /** What a selector's value is read as. */
  ghost function Stripped(value: Value): Fields
    requires value.Map?
  {
    value.fields - {"type", "Type", "$path"}
  }

  /** A value that a type can read through a selector. */
  ghost predicate Readable(w: World, t: string, value: Value)
    requires t in w.types
  {
    && value.Map? && !DeclaresOther(value.fields, "type", t) && !DeclaresOther(value.fields, "Type", t)
    && Identified(w, t, Stripped(value))
  }

  /**
   Exactly when what a selector picks from a file loads: if every value is an object that declares no other type
   and has an identifier. Then each is listed, in order, without the keys of the store.
  */
  lemma SelectorReadsExactly(w: World, files: Files, t: string, m: Match, values: seq<Value>)
    requires t in w.types && m.selector != "" && m.path in files
    requires w.select(m.selector, files[m.path]) == Some(values) && values != []
    ensures var r := FromFile(w, files, t, m);
            && (r.Ok? <==> forall k :: 0 <= k < |values| ==> Readable(w, t, values[k]))
            && (r.Ok? ==> |r.value| == |values| && forall k :: 0 <= k < |values| ==>
                  && HasId(w, t, Stripped(values[k]), r.value[k].id)
                  && r.value[k] == Object(t, r.value[k].id, Stripped(values[k]), m.path, false, true))
  {
    SelectedExactly(values, t);
    var selected := Selected(values, t);
    if selected.Ok? {
      ItemsExactly(w, t, selected.value, m.path, true);
      SelectedLoads(w, files, t, m, values);
    }
    hide Identified, DeclaresOther, FromItems, Selected, Stripped;
    assert selected.Err? ==> FromFile(w, files, t, m).Err?;
  }

  lemma SelectedLoads(w: World, files: Files, t: string, m: Match, values: seq<Value>)
    requires t in w.types && m.selector != "" && m.path in files && Selected(values, t).Ok?
    requires w.select(m.selector, files[m.path]) == Some(values) && values != []
    ensures FromFile(w, files, t, m) == FromItems(w, t, Selected(values, t).value, m.path, true)
  {
    hide FromItems;
    var items := Selected(values, t).value;
    assert |items| == 1 ==> [items[0]] == items;
  }

  lemma {:induction false} SelectedExactly(values: seq<Value>, t: string)
    ensures var r := Selected(values, t);
            && (r.Ok? <==> forall k :: 0 <= k < |values| ==>
                  values[k].Map? && !DeclaresOther(values[k].fields, "type", t)
                      && !DeclaresOther(values[k].fields, "Type", t))
            && (r.Ok? ==> |r.value| == |values| && forall k :: 0 <= k < |values| ==> r.value[k] == Stripped(values[k]))
  {
    if values != [] {
      SelectedExactly(values[1..], t);
      if values[0].Map? {
        DeclaredExactly(values[0].fields, "type", t);
        DeclaredExactly(values[0].fields, "Type", t);
      }
      hide DeclaredAs, DeclaresOther;
      assert forall k :: 0 <= k < |values| - 1 ==> values[1..][k] == values[k + 1];
    }
  }

  lemma DeclaredExactly(fields: Fields, key: string, t: string)
    ensures DeclaredAs(fields, key, t) <==> !DeclaresOther(fields, key, t)
  {
    if !DeclaredAs(fields, key, t) {
      var x := GetString(fields, key).value;
      assert x != "" && x != t && fields[key] in {Str(x), Number(x)};
    }
  }

  /** What a document holds for a type: itself without the type it names, or the items it lists. */
  ghost predicate Holds(doc: Fields, t: string, items: seq<Fields>) {
    && !DeclaresOther(doc, "type", t)
    && if "items" !in doc then items == [Named(doc)]
       else doc["items"].List? && |doc["items"].items| == |items|
            && forall k :: 0 <= k < |items| ==> doc["items"].items[k] == Map(items[k])
  }

  /** The document without the type it names. */
  ghost function Named(doc: Fields): Fields {
    if "type" in doc && exists x :: x != "" && doc["type"] in {Str(x), Number(x)} then doc - {"type"} else doc
  }

  /** Exactly when a whole file loads, and what it lists. */
  lemma FileReadsExactly(w: World, files: Files, t: string, m: Match)
    requires t in w.types && m.selector == ""
    ensures var r := FromFile(w, files, t, m);
            && (r.Ok? <==> m.path in files && files[m.path].Document?
                           && exists items :: Holds(files[m.path].doc, t, items)
                                              && forall k :: 0 <= k < |items| ==> Identified(w, t, items[k]))
            && (r.Ok? ==> exists items ::
                  Holds(files[m.path].doc, t, items) && AreItems(w, t, r.value, items, m.path, false))
  {
    if m.path in files && files[m.path].Document? {
      var doc := files[m.path].doc;
      DecodesExactly(doc, t);
      if Decode(doc, t).Ok? { ItemsExactly(w, t, Objects(Decode(doc, t).value), m.path, false); }
      DocumentLoads(w, files, t, m);
      hide Holds, Identified, Decode, FromItems, Objects, FromFile, AreItems;
    }
  }

  lemma DocumentLoads(w: World, files: Files, t: string, m: Match)
    requires t in w.types && m.selector == "" && m.path in files && files[m.path].Document?
    ensures var content := Decode(files[m.path].doc, t);
            FromFile(w, files, t, m) ==
            if content.Ok? then FromItems(w, t, Objects(content.value), m.path, false) else Err(content.error)
  {
    hide FromItems, AsFields;
  }

  lemma DecodesExactly(doc: Fields, t: string)
    ensures Decode(doc, t).Ok? ==> Holds(doc, t, Objects(Decode(doc, t).value))
    ensures forall items :: Holds(doc, t, items) ==> Decode(doc, t).Ok? && Objects(Decode(doc, t).value) == items
  {
    DeclaredExactly(doc, "type", t);
    NamedExactly(doc);
    if "items" in doc && doc["items"].List? {
      MapsExactly(doc["items"].items);
    }
    hide AsFields, DeclaresOther, Named;
  }

  lemma NamedExactly(doc: Fields)
    ensures Named(doc) == if GetString(doc, "type").Some? then doc - {"type"} else doc
  {
    if GetString(doc, "type").Some? {
      var x := GetString(doc, "type").value;
      assert x != "" && doc["type"] in {Str(x), Number(x)};
    }
  }

  lemma {:induction false} MapsExactly(values: seq<Value>)
    ensures var r := AsFields(values);
            && (r.Some? ==> |r.value| == |values| && forall k :: 0 <= k < |values| ==> values[k] == Map(r.value[k]))
            && forall items: seq<Fields> ::
                 |items| == |values| && (forall k :: 0 <= k < |items| ==> values[k] == Map(items[k]))
                 ==> r == Some(items)
  {
    if values != [] {
      MapsExactly(values[1..]);
      assert forall k :: 0 <= k < |values| - 1 ==> values[1..][k] == values[k + 1];
      forall items: seq<Fields> | |items| == |values| && (forall k :: 0 <= k < |items| ==> values[k] == Map(items[k]))
        ensures AsFields(values) == Some(items)
      {
        assert forall k :: 0 <= k < |items| - 1 ==> values[1..][k] == Map(items[1..][k]);
        assert AsFields(values[1..]) == Some(items[1..]) && [items[0]] + items[1..] == items;
      }
    }
  }

  // ---------- the files a type reads ----------

  /** The include at the index is the first of its kind, and matches the file. */
  ghost predicate ReadThrough(w: World, incs: seq<Include>, paths: set<string>, i: nat, m: Match) {
    && i < |incs| && incs[i] !in incs[..i]
    && incs[i].path != "" && w.matches(incs[i].path, m.path) && m.path in paths && m.selector == incs[i].selector
  }

  /**
   From an include on, each file is read once through each include that matches it, in the order of includes
   and then of paths.
  */
  ghost predicate InIncludeOrder(w: World, incs: seq<Include>, paths: set<string>, n: nat, ms: seq<Match>,
                                 at: seq<nat>) {
    && |at| == |ms|
    && (forall k :: 0 <= k < |ms| ==> at[k] >= n && ReadThrough(w, incs, paths, at[k], ms[k]))
    && (forall j, k :: 0 <= j < k < |ms| ==> at[j] < at[k] || (at[j] == at[k] && Less(ms[j].path, ms[k].path)))
    && (forall i: nat, m :: i >= n && ReadThrough(w, incs, paths, i, m) ==> IsListed(ms, at, m, i))
  }

  ghost predicate IsListed(ms: seq<Match>, at: seq<nat>, m: Match, i: nat)
    requires |at| == |ms|
  {
    exists k :: 0 <= k < |ms| && ms[k] == m && at[k] == i
  }

  /** Exactly which files a type reads, and in which order. */
  lemma FilesExactly(w: World, t: string, paths: set<string>) returns (at: seq<nat>)
    requires t in w.includes
    ensures InIncludeOrder(w, w.includes[t], paths, 0, FileMatches(w, paths, t), at)
  {
    at := MatchesInOrder(w, w.includes[t], paths, 0);
    assert w.includes[t][0..] == w.includes[t] && Before(w.includes[t], 0) == {};
  }

  ghost function Before(incs: seq<Include>, n: nat): set<Include>
    requires n <= |incs|
  {
    set inc | inc in incs[..n]
  }

  lemma {:induction false} MatchesInOrder(w: World, incs: seq<Include>, paths: set<string>, n: nat)
      returns (at: seq<nat>)
    requires n <= |incs|
    ensures InIncludeOrder(w, incs, paths, n, MatchesOf(w, incs[n..], paths, Before(incs, n)), at)
    decreases |incs| - n
  {
    hide *;
    if n == |incs| {
      at := [];
      NoneAtEnd(w, incs, paths);
    } else {
      var later := MatchesInOrder(w, incs, paths, n + 1);
      var rest := MatchesOf(w, incs[n + 1..], paths, Before(incs, n + 1));
      MatchesStep(w, incs, paths, n);
      if incs[n] in incs[..n] {
        at := later;
        SeenIsNotFirst(w, incs, paths, n, rest, later);
      } else {
        MatchedExactly(w, incs, paths, n);
        at := JoinsInOrder(w, incs, paths, n, Matched(w, incs[n], paths), rest, later);
      }
    }
  }

  lemma MatchesStep(w: World, incs: seq<Include>, paths: set<string>, n: nat)
    requires n < |incs|
    ensures var rest := MatchesOf(w, incs[n + 1..], paths, Before(incs, n + 1));
            MatchesOf(w, incs[n..], paths, Before(incs, n))
            == if incs[n] in incs[..n] then rest else Matched(w, incs[n], paths) + rest
  {
    hide Matched;
    assert incs[n..][0] == incs[n] && incs[n..][1..] == incs[n + 1..];
    assert Before(incs, n + 1) == Before(incs, n) + {incs[n]};
    assert incs[n] in Before(incs, n) ==> Before(incs, n) + {incs[n]} == Before(incs, n);
  }

  lemma SeenIsNotFirst(w: World, incs: seq<Include>, paths: set<string>, n: nat, ms: seq<Match>, at: seq<nat>)
    requires n < |incs| && incs[n] in incs[..n] && InIncludeOrder(w, incs, paths, n + 1, ms, at)
    ensures InIncludeOrder(w, incs, paths, n, ms, at)
  {
    assert forall m :: !ReadThrough(w, incs, paths, n, m);
    hide ReadThrough, Less;
  }

  lemma NoneAtEnd(w: World, incs: seq<Include>, paths: set<string>)
    ensures InIncludeOrder(w, incs, paths, |incs|, MatchesOf(w, incs[|incs|..], paths, Before(incs, |incs|)), [])
  {
  }

  /** What one include matches, in order. */
  lemma MatchedExactly(w: World, incs: seq<Include>, paths: set<string>, n: nat)
    requires n < |incs| && incs[n] !in incs[..n]
    ensures var here := Matched(w, incs[n], paths);
            && (forall k :: 0 <= k < |here| ==> ReadThrough(w, incs, paths, n, here[k]))
            && (forall j, k :: 0 <= j < k < |here| ==> Less(here[j].path, here[k].path))
            && (forall m :: ReadThrough(w, incs, paths, n, m) ==> m in here)
  {
    var owned := set p | p in paths && Owns(w, incs[n], p);
    var keys := SortedKeys(owned);
    assert forall k :: 0 <= k < |keys| ==> keys[k] in keys;
    forall m | ReadThrough(w, incs, paths, n, m) ensures m in Matched(w, incs[n], paths) {
      assert m.path in keys;
      var k :| 0 <= k < |keys| && keys[k] == m.path;
      assert Matched(w, incs[n], paths)[k] == m;
    }
  }

  /** What one include matches, in front of what the later ones do. */
  lemma JoinsInOrder(w: World, incs: seq<Include>, paths: set<string>, n: nat, here: seq<Match>, rest: seq<Match>,
                     later: seq<nat>) returns (at: seq<nat>)
    requires n < |incs| && InIncludeOrder(w, incs, paths, n + 1, rest, later)
    requires forall k :: 0 <= k < |here| ==> ReadThrough(w, incs, paths, n, here[k])
    requires forall j, k :: 0 <= j < k < |here| ==> Less(here[j].path, here[k].path)
    requires forall m :: ReadThrough(w, incs, paths, n, m) ==> m in here
    ensures InIncludeOrder(w, incs, paths, n, here + rest, at)
  {
    at := seq(|here|, k requires 0 <= k < |here| => n) + later;
    hide ReadThrough, Less, IsListed;
    JoinedSorted(n, here, rest, later, at);
    forall i: nat, m | i >= n && ReadThrough(w, incs, paths, i, m) ensures IsListed(here + rest, at, m, i) {
      JoinedLists(n, here, rest, later, at, i, m);
    }
    forall k | 0 <= k < |at| ensures at[k] >= n && ReadThrough(w, incs, paths, at[k], (here + rest)[k]) {
      if k >= |here| { assert at[k] == later[k - |here|] && (here + rest)[k] == rest[k - |here|]; }
    }
  }

  lemma JoinedSorted(n: nat, here: seq<Match>, rest: seq<Match>, later: seq<nat>, at: seq<nat>)
    requires |later| == |rest| && at == seq(|here|, k requires 0 <= k < |here| => n) + later
    requires forall j, k :: 0 <= j < k < |here| ==> Less(here[j].path, here[k].path)
    requires forall k :: 0 <= k < |later| ==> later[k] > n
    requires forall j, k :: 0 <= j < k < |rest| ==>
               later[j] < later[k] || (later[j] == later[k] && Less(rest[j].path, rest[k].path))
    ensures var ms := here + rest;
            forall j, k :: 0 <= j < k < |ms| ==> at[j] < at[k] || (at[j] == at[k] && Less(ms[j].path, ms[k].path))
  {
    hide Less;
  }

  lemma JoinedLists(n: nat, here: seq<Match>, rest: seq<Match>, later: seq<nat>, at: seq<nat>, i: nat, m: Match)
    requires |later| == |rest| && at == seq(|here|, k requires 0 <= k < |here| => n) + later
    requires i == n ==> m in here
    requires i != n ==> IsListed(rest, later, m, i)
    ensures IsListed(here + rest, at, m, i)
  {
    if i == n {
      var k :| 0 <= k < |here| && here[k] == m;
      assert (here + rest)[k] == m && at[k] == n;
    } else {
      var k :| 0 <= k < |rest| && later[k] == i && rest[k] == m;
      assert (here + rest)[|here| + k] == m && at[|here| + k] == i;
    }
  }

  // ---------- the listing of a type ----------

  ghost function Flat<T>(parts: seq<seq<T>>): seq<T> {
    if parts == [] then [] else Flat(parts[..|parts| - 1]) + parts[|parts| - 1]
  }

  /** The files load exactly if each does, and then their objects follow one another. */
  lemma {:induction false} FilesLoadExactly(w: World, files: Files, t: string, ms: seq<Match>, parts: seq<seq<Object>>)
    requires t in w.types
    ensures FromMatches(w, files, t, ms).Ok? <==> forall m :: m in ms ==> FromFile(w, files, t, m).Ok?
    ensures |parts| == |ms| && (forall k :: 0 <= k < |ms| ==> FromFile(w, files, t, ms[k]) == Ok(parts[k])) ==>
              FromMatches(w, files, t, ms) == Ok(Flat(parts))
  {
    hide FromFile;
    if ms != [] {
      assert ms == [ms[0]] + ms[1..];
      if parts == [] {
        FilesLoadExactly(w, files, t, ms[1..], []);
      } else {
        FilesLoadExactly(w, files, t, ms[1..], parts[1..]);
        FlatHead(parts);
      }
    }
  }

  lemma {:induction false} FlatHead<T>(parts: seq<seq<T>>)
    requires parts != []
    ensures Flat(parts) == parts[0] + Flat(parts[1..])
  {
    if |parts| == 1 {
      assert parts[..0] == [] && parts[1..] == [];
      assert parts[0] + [] == [] + parts[0];
    } else {
      var most, tail := parts[..|parts| - 1], parts[1..];
      FlatHead(most);
      assert most[1..] == tail[..|tail| - 1];
      assert parts[0] + Flat(most[1..]) + parts[|parts| - 1] == parts[0] + (Flat(most[1..]) + parts[|parts| - 1]);
    }
  }

  /** The inline item has an identifier that is not among those given and that no earlier item has. */
  ghost predicate IsNew(w: World, t: string, items: seq<Fields>, seen: set<string>, k: nat)
    requires t in w.types
  {
    && k < |items| && Identified(w, t, items[k])
    && forall x :: HasId(w, t, items[k], x) ==> x !in seen && forall j :: 0 <= j < k ==> !HasId(w, t, items[j], x)
  }

  /** The inline objects are the new items, in order. */
  ghost predicate AreNew(w: World, t: string, objects: seq<Object>, items: seq<Fields>, seen: set<string>, at: seq<nat>)
    requires t in w.types
  {
    && |at| == |objects|
    && (forall j, k :: 0 <= j < k < |at| ==> at[j] < at[k])
    && (forall k :: 0 <= k < |at| ==>
          && at[k] < |items| && HasId(w, t, items[at[k]], objects[k].id)
          && objects[k] == Object(t, objects[k].id, items[at[k]], "", true, true))
    && (forall k :: k in at <==> IsNew(w, t, items, seen, k))
  }

  /** Inline data loads exactly if every item has an identifier, and lists the items that are new. */
  lemma {:induction false} InlineExactly(w: World, t: string, items: seq<Fields>, seen: set<string>)
      returns (at: seq<nat>)
    requires t in w.types
    ensures var r := FromInline(w, t, items, seen);
            && (r.Ok? <==> forall k :: 0 <= k < |items| ==> Identified(w, t, items[k]))
            && (r.Ok? ==> AreNew(w, t, r.value, items, seen, at))
  {
    at := [];
    if items != [] {
      IdentifiedExactly(w, t, items[0]);
      assert forall k :: 0 <= k < |items| - 1 ==> items[1..][k] == items[k + 1];
      if IdOf(w, t, items[0]).Some? {
        var id := IdOf(w, t, items[0]).value;
        var later := InlineExactly(w, t, items[1..], seen + {id});
        hide IdOf, HasId, Identified, AreNew;
        if FromInline(w, t, items[1..], seen + {id}).Ok? {
          var rest := FromInline(w, t, items[1..], seen + {id}).value;
          at := ShiftedBy(if id in seen then [] else [0], later);
          OneId(w, t, items[0], id);
          NewInFront(w, t, items, seen, id, rest, later, at);
        }
      }
    } else {
      assert forall k: nat :: !IsNew(w, t, items, seen, k);
    }
  }

  /** The places in a tail, one further, behind some others. */
  ghost function ShiftedBy(front: seq<nat>, later: seq<nat>): (at: seq<nat>)
    ensures |at| == |front| + |later| && at[..|front|] == front
    ensures forall k :: 0 <= k < |later| ==> at[|front| + k] == later[k] + 1
    ensures forall k :: |front| <= k < |at| ==> at[k] == later[k - |front|] + 1
  {
    front + seq(|later|, k requires 0 <= k < |later| => later[k] + 1)
  }

  lemma OneId(w: World, t: string, fields: Fields, id: string)
    requires t in w.types && IdOf(w, t, fields) == Some(id)
    ensures forall x :: HasId(w, t, fields, x) <==> x == id
  {
    forall x ensures HasId(w, t, fields, x) <==> x == id { HasIdExactly(w, t, fields, x); }
  }

  lemma NewInFront(w: World, t: string, items: seq<Fields>, seen: set<string>, id: string, rest: seq<Object>,
                   later: seq<nat>, at: seq<nat>)
    requires t in w.types && items != [] && AreNew(w, t, rest, items[1..], seen + {id}, later)
    requires forall x :: HasId(w, t, items[0], x) <==> x == id
    requires at == ShiftedBy(if id in seen then [] else [0], later)
    ensures AreNew(w, t, (if id in seen then [] else [InlineObject(t, id, items[0])]) + rest, items, seen, at)
  {
    forall k: nat ensures k in at <==> IsNew(w, t, items, seen, k) {
      NewAt(w, t, items, seen, id, later, at, k);
    }
    assert HasId(w, t, items[0], id);
    hide HasId, IsNew, ShiftedBy;
    ShiftedSorted(if id in seen then [] else [0], later);
    NewObjects(w, t, items, seen, id, rest, later, at);
  }

  lemma ShiftedSorted(front: seq<nat>, later: seq<nat>)
    requires front in {[], [0]} && forall j, k :: 0 <= j < k < |later| ==> later[j] < later[k]
    ensures var at := ShiftedBy(front, later); forall j, k :: 0 <= j < k < |at| ==> at[j] < at[k]
  {
    hide ShiftedBy;
    var at := ShiftedBy(front, later);
    assert front != [] ==> at[0] == at[..1][0] == 0;
  }

  lemma NewObjects(w: World, t: string, items: seq<Fields>, seen: set<string>, id: string, rest: seq<Object>,
                   later: seq<nat>, at: seq<nat>)
    requires t in w.types && items != [] && |later| == |rest| && HasId(w, t, items[0], id)
    requires forall k :: 0 <= k < |later| ==>
               && later[k] < |items| - 1 && HasId(w, t, items[1..][later[k]], rest[k].id)
               && rest[k] == Object(t, rest[k].id, items[1..][later[k]], "", true, true)
    requires at == ShiftedBy(if id in seen then [] else [0], later)
    ensures var objects := (if id in seen then [] else [InlineObject(t, id, items[0])]) + rest;
            && |at| == |objects|
            && forall k :: 0 <= k < |at| ==>
                 && at[k] < |items| && HasId(w, t, items[at[k]], objects[k].id)
                 && objects[k] == Object(t, objects[k].id, items[at[k]], "", true, true)
  {
    hide HasId, ShiftedBy;
    var front := if id in seen then [] else [InlineObject(t, id, items[0])];
    var objects := front + rest;
    forall k | 0 <= k < |at|
      ensures at[k] < |items| && HasId(w, t, items[at[k]], objects[k].id)
              && objects[k] == Object(t, objects[k].id, items[at[k]], "", true, true)
    {
      if k >= |front| {
        assert objects[k] == rest[k - |front|] && items[1..][later[k - |front|]] == items[at[k]];
      } else {
        assert at[..1][0] == 0;
      }
    }
  }

  lemma NewAt(w: World, t: string, items: seq<Fields>, seen: set<string>, id: string, later: seq<nat>, at: seq<nat>,
              k: nat)
    requires t in w.types && items != [] && forall x :: HasId(w, t, items[0], x) <==> x == id
    requires forall k :: k in later <==> IsNew(w, t, items[1..], seen + {id}, k)
    requires at == ShiftedBy(if id in seen then [] else [0], later)
    ensures k in at <==> IsNew(w, t, items, seen, k)
  {
    NewLater(w, t, items, seen, id, k);
    ShiftedHas(if id in seen then [] else [0], later, k);
    hide *;
  }

  lemma ShiftedHas(front: seq<nat>, later: seq<nat>, k: nat)
    ensures k in ShiftedBy(front, later) <==> k in front || (k > 0 && k - 1 in later)
  {
    hide ShiftedBy;
    var at := ShiftedBy(front, later);
    if k in at[|front|..] {
      var i :| |front| <= i < |at| && at[i] == k;
      assert later[i - |front|] == k - 1;
    }
    if k > 0 && k - 1 in later {
      var i :| 0 <= i < |later| && later[i] == k - 1;
      assert at[|front| + i] == k;
    }
    assert at == front + at[|front|..];
  }

  lemma NewLater(w: World, t: string, items: seq<Fields>, seen: set<string>, id: string, k: nat)
    requires t in w.types && items != [] && forall x :: HasId(w, t, items[0], x) <==> x == id
    ensures k > 0 ==> (IsNew(w, t, items, seen, k) <==> IsNew(w, t, items[1..], seen + {id}, k - 1))
    ensures IsNew(w, t, items, seen, 0) <==> id !in seen
  {
    hide HasId;
    var tail := items[1..];
    assert forall j :: 0 <= j < |tail| ==> tail[j] == items[j + 1];
    if k > 0 && IsNew(w, t, tail, seen + {id}, k - 1) {
      forall x, j | HasId(w, t, items[k], x) && 0 <= j < k ensures !HasId(w, t, items[j], x) {
        if j > 0 { assert !HasId(w, t, tail[j - 1], x); }
      }
    }
    if k > 0 && IsNew(w, t, items, seen, k) {
      forall x, j | HasId(w, t, tail[k - 1], x) && 0 <= j < k - 1 ensures !HasId(w, t, tail[j], x) {
        assert !HasId(w, t, items[j + 1], x);
      }
    }
    assert HasId(w, t, items[0], id);
  }

  /** A type loads exactly if its files do and every inline item has an identifier. */
  lemma TypeLoadsExactly(w: World, files: Files, t: string)
    requires w.Valid() && t in w.types
    ensures LoadExact(w, files, t).Ok? <==>
              && (forall m :: m in FileMatches(w, files.Keys, t) ==> FromFile(w, files, t, m).Ok?)
              && forall k :: 0 <= k < |w.inlineData[t]| ==> Identified(w, t, w.inlineData[t][k])
  {
    var ms := FileMatches(w, files.Keys, t);
    FilesLoadExactly(w, files, t, ms, []);
    hide FromFile, FileMatches, FromMatches, FromInline, Identified;
    if FromMatches(w, files, t, ms).Ok? {
      var at := InlineExactly(w, t, w.inlineData[t], Ids(FromMatches(w, files, t, ms).value));
    }
  }

  /** Its objects are those of its files, one file after another, and then the inline items that are new. */
  lemma TypeListsExactly(w: World, files: Files, t: string, parts: seq<seq<Object>>)
      returns (inlined: seq<Object>, at: seq<nat>)
    requires w.Valid() && t in w.types && LoadExact(w, files, t).Ok?
    requires var ms := FileMatches(w, files.Keys, t);
             |parts| == |ms| && forall k :: 0 <= k < |ms| ==> FromFile(w, files, t, ms[k]) == Ok(parts[k])
    ensures LoadExact(w, files, t) == Ok(Flat(parts) + inlined)
    ensures AreNew(w, t, inlined, w.inlineData[t], Ids(Flat(parts)), at)
  {
    FilesLoadExactly(w, files, t, FileMatches(w, files.Keys, t), parts);
    hide FromFile, FileMatches, FromMatches, FromInline, AreNew, Flat;
    inlined := FromInline(w, t, w.inlineData[t], Ids(Flat(parts))).value;
    at := InlineExactly(w, t, w.inlineData[t], Ids(Flat(parts)));
  }

  // ---------- the listing of a type and those below it ----------

  /** No identifier is listed for two types, or is among those already loaded. */
  ghost predicate Apart(loaded: seq<Object>, parts: seq<seq<Object>>) {
    && (forall k :: 0 <= k < |parts| ==> Ids(loaded) !! Ids(parts[k]))
    && (forall j, k :: 0 <= j < k < |parts| ==> Ids(parts[j]) !! Ids(parts[k]))
  }

  lemma {:induction false} NamesLoadExactly(w: World, files: Files, names: seq<string>, loaded: seq<Object>,
                                            parts: seq<seq<Object>>)
    requires w.Valid() && (forall n :: n in names ==> n in w.types) && |parts| == |names|
    requires forall k :: 0 <= k < |names| ==> LoadExact(w, files, names[k]) == Ok(parts[k])
    ensures LoadNames(w, files, names, loaded)
            == if Apart(loaded, parts) then Ok(loaded + Flat(parts)) else Err(Ambiguous)
    decreases |names|
  {
    hide LoadExact, Ids;
    if names == [] {
      assert loaded + [] == loaded;
    } else {
      NamesLoadExactly(w, files, names[1..], loaded + parts[0], parts[1..]);
      ApartHead(loaded, parts);
      FlatHead(parts);
      assert loaded + parts[0] + Flat(parts[1..]) == loaded + (parts[0] + Flat(parts[1..]));
    }
  }

  lemma ApartHead(loaded: seq<Object>, parts: seq<seq<Object>>)
    requires parts != []
    ensures Apart(loaded, parts) <==> Ids(loaded) !! Ids(parts[0]) && Apart(loaded + parts[0], parts[1..])
  {
    IdsOfBoth(loaded, parts[0]);
    hide Ids;
    assert forall k :: 0 <= k < |parts| - 1 ==> parts[1..][k] == parts[k + 1];
    assert forall k :: 0 < k < |parts| ==> parts[k] == parts[1..][k - 1];
  }

  lemma IdsOfBoth(a: seq<Object>, b: seq<Object>)
    ensures Ids(a + b) == Ids(a) + Ids(b)
  {
    FirstOfBoth(a, b, "");
  }

  lemma {:induction false} NamesNeedEach(w: World, files: Files, names: seq<string>, loaded: seq<Object>)
    requires w.Valid() && (forall n :: n in names ==> n in w.types) && LoadNames(w, files, names, loaded).Ok?
    ensures forall n :: n in names ==> LoadExact(w, files, n).Ok?
    decreases |names|
  {
    if names != [] {
      hide LoadExact;
      NamesNeedEach(w, files, names[1..], loaded + LoadExact(w, files, names[0]).value);
    }
  }

  /** Exactly when the objects of a type and of those below it load, and in which order they are listed. */
  lemma LoadAllExactly(w: World, files: Files, t: string, parts: seq<seq<Object>>)
    requires w.Valid() && t in w.types
    ensures LoadAll(w, files, t).Ok? ==>
              forall u :: Inheritance.InheritsFrom(w.types, u, t) ==> LoadExact(w, files, u).Ok?
    ensures var names := Inheritance.Assignable(w.types, t);
            |parts| == |names| && (forall k :: 0 <= k < |names| ==>
                                     names[k] in w.types && LoadExact(w, files, names[k]) == Ok(parts[k])) ==>
              LoadAll(w, files, t) == if Apart([], parts) then Ok(Flat(parts)) else Err(Ambiguous)
  {
    Inheritance.AssignableNames(w.types, t);
    var names := Inheritance.Assignable(w.types, t);
    assert forall n :: n in names ==> n in w.types;
    hide LoadExact, Apart, Flat, LoadNames, Inheritance.Assignable;
    if LoadAll(w, files, t).Ok? { NamesNeedEach(w, files, names, []); }
    if |parts| == |names| && (forall k :: 0 <= k < |names| ==> LoadExact(w, files, names[k]) == Ok(parts[k])) {
      NamesLoadExactly(w, files, names, [], parts);
      assert [] + Flat(parts) == Flat(parts);
    }
  }
}
