/**
 The object store as a class over its files: its loops and branches, proved equal to the functions
 whose properties StoreListings and StoreRefinement state (internal/data/load.go, store_ops.go, fileio.go, util.go).
*/
module Store {
  import opened Text
  import Inheritance
  import opened StoreFiles
  import opened StoreOps

  type Error = StoreFiles.Error

  /** What was gathered, followed by the rest if it loads. */
  function Then(gathered: seq<Object>, rest: Result<seq<Object>, Error>): Result<seq<Object>, Error> {
    match rest case Ok(more) => Ok(gathered + more) case Err(e) => Err(e)
  }

  lemma ThenOnce(r: Result<seq<Object>, Error>, a: seq<Object>)
    ensures Then([], r) == r && Then(a, Ok([])) == Ok(a)
  {
    if r.Ok? { assert [] + r.value == r.value; }
    assert a + [] == a;
  }

  lemma ThenTwice(a: seq<Object>, b: seq<Object>, r: Result<seq<Object>, Error>)
    ensures Then(a, Then(b, r)) == Then(a + b, r)
  {
    if r.Ok? { assert a + (b + r.value) == a + b + r.value; }
  }

  // ---------- choosing and naming files ----------

  method SanitizeFilename(value: string) returns (name: string)
    ensures name == Sanitize(value)
  {
    if value == "" { return "object"; }
    name := "";
    for i := 0 to |value|
      invariant name == Sanitize(value)[..i]
    {
      name := name + [if IsFileChar(value[i]) then value[i] else '-'];
    }
  }

  method ChooseCreateTarget(incs: seq<Include>, id: string) returns (r: Result<Target, Error>)
    ensures r == ChooseTarget(incs, id, None)
  {
    var literal: Option<Target> := None;
    for i := 0 to |incs|
      invariant ChooseTarget(incs, id, None) == ChooseTarget(incs[i..], id, literal)
    {
      var inc := incs[i];
      assert incs[i..][1..] == incs[i + 1..];
      if inc.selector != "" || inc.path == "" { continue; }
      if IsGlob(inc.path) {
        var name := SanitizeFilename(id);
        return Ok(Target(ReplaceGlob(inc.path, name), false));
      }
      if literal.None? {
        literal := Some(Target(inc.path, true));
      }
    }
    return if literal.Some? then Ok(literal.value) else Err(NoTarget);
  }

  lemma MergeAt(dst: Fields, src: Fields, k: string)
    requires k in dst || k in src
    ensures Merge(dst, src)[k] ==
            if k !in src then dst[k]
            else if k in dst && dst[k].Map? && src[k].Map? then Map(Merge(dst[k].fields, src[k].fields))
            else src[k]
  {
  }

  /** All keys but some have their merged values, and those still have their old ones. */
  ghost predicate Partly<V(!new)>(dst: map<string, V>, src: map<string, V>, merged: map<string, V>, todo: set<string>,
                                  r: map<string, V>) {
    && todo <= src.Keys && r.Keys == dst.Keys + (src.Keys - todo)
    && merged.Keys == dst.Keys + src.Keys
    && forall k :: k in r ==> r[k] == if k in src && k !in todo then merged[k] else dst[k]
  }

  lemma PartlyStep<V(!new)>(dst: map<string, V>, src: map<string, V>, merged: map<string, V>, todo: set<string>,
                            r: map<string, V>, k: string)
    requires Partly(dst, src, merged, todo, r) && k in todo
    ensures k in merged && Partly(dst, src, merged, todo - {k}, r[k := merged[k]])
  {
  }

  lemma PartlyEnds<V(!new)>(dst: map<string, V>, src: map<string, V>, merged: map<string, V>)
    requires merged.Keys == dst.Keys + src.Keys && forall k :: k in dst && k !in src ==> merged[k] == dst[k]
    ensures Partly(dst, src, merged, src.Keys, dst)
    ensures forall r: map<string, V> :: Partly(dst, src, merged, {}, r) ==> r == merged
  {
  }

  /** Merge one object into another, key by key in any order. */
  method MergeMaps(dst: Fields, src: Fields) returns (r: Fields)
    ensures r == Merge(dst, src)
    decreases Map(src), 1
  {
    hide Merge, Partly;
    ghost var merged := Merge(dst, src);
    forall k | k in dst && k !in src ensures merged[k] == dst[k] { MergeAt(dst, src, k); }
    PartlyEnds(dst, src, merged);
    r := dst;
    var todo := src.Keys;
    while todo != {}
      invariant todo <= src.Keys && Partly(dst, src, merged, todo, r)
      decreases |todo|
    {
      var k :| k in todo;
      var value := MergeField(dst, src, k);
      PartlyStep(dst, src, merged, todo, r, k);
      r := r[k := value];
      todo := todo - {k};
    }
  }

  method MergeField(dst: Fields, src: Fields, k: string) returns (value: Value)
    requires k in src
    ensures value == Merge(dst, src)[k]
    decreases Map(src), 0
  {
    MergeAt(dst, src, k);
    hide Merge;
    value := src[k];
    if k in dst && dst[k].Map? && value.Map? {
      assert src[k] < Map(src) && value == Map(value.fields);
      var merged := MergeMaps(dst[k].fields, value.fields);
      value := Map(merged);
    }
  }

  class Store {
    const world: World
    var files: Files

    constructor (world: World, files: Files)
      ensures this.world == world && this.files == files
    {
      this.world := world;
      this.files := files;
    }

    // ---------- reading ----------

    method ResolveIncludeMatches(t: string) returns (ms: seq<Match>)
      requires t in world.includes
      ensures ms == FileMatches(world, files.Keys, t)
    {
      ms := [];
      var incs := world.includes[t];
      var seen: set<Include> := {};
      for i := 0 to |incs|
        invariant MatchesOf(world, incs, files.Keys, {}) == ms + MatchesOf(world, incs[i..], files.Keys, seen)
      {
        assert incs[i..][1..] == incs[i + 1..];
        if incs[i] !in seen {
          ms := ms + Matched(world, incs[i], files.Keys);
          seen := seen + {incs[i]};
        }
      }
    }

    method LoadItems(t: string, items: seq<Fields>, path: string, readOnly: bool)
        returns (r: Result<seq<Object>, Error>)
      requires t in world.types
      ensures r == FromItems(world, t, items, path, readOnly)
    {
      var objects: seq<Object> := [];
      ThenOnce(FromItems(world, t, items, path, readOnly), []);
      assert items[0..] == items;
      for i := 0 to |items|
        invariant FromItems(world, t, items, path, readOnly)
                  == Then(objects, FromItems(world, t, items[i..], path, readOnly))
      {
        assert items[i..][1..] == items[i + 1..];
        var id := IdOf(world, t, items[i]);
        if id.None? { return Err(MissingId); }
        ThenTwice(objects, [FileObject(t, id.value, items[i], path, readOnly)],
                  FromItems(world, t, items[i + 1..], path, readOnly));
        objects := objects + [FileObject(t, id.value, items[i], path, readOnly)];
      }
      assert items[|items|..] == [];
      ThenOnce(Ok([]), objects);
      return Ok(objects);
    }

    method LoadMatches(t: string, ms: seq<Match>) returns (r: Result<seq<Object>, Error>)
      requires t in world.types
      ensures r == FromMatches(world, files, t, ms)
    {
      var objects: seq<Object> := [];
      ThenOnce(FromMatches(world, files, t, ms), []);
      assert ms[0..] == ms;
      for i := 0 to |ms|
        invariant FromMatches(world, files, t, ms) == Then(objects, FromMatches(world, files, t, ms[i..]))
      {
        assert ms[i..][1..] == ms[i + 1..];
        var content := LoadFile(world, files, ms[i].path, t, ms[i].selector);
        if content.Err? { return Err(content.error); }
        var loaded := LoadItems(t, Objects(content.value), ms[i].path, content.value.readOnly);
        if loaded.Err? { return loaded; }
        ThenTwice(objects, loaded.value, FromMatches(world, files, t, ms[i + 1..]));
        objects := objects + loaded.value;
      }
      assert ms[|ms|..] == [];
      ThenOnce(Ok([]), objects);
      return Ok(objects);
    }

    method LoadExactAll(t: string) returns (r: Result<seq<Object>, Error>)
      requires world.Valid() && t in world.types
      ensures r == LoadExact(world, files, t)
    {
      var ms := ResolveIncludeMatches(t);
      r := LoadMatches(t, ms);
      if r.Err? { return; }
      var objects := r.value;
      var seen := Ids(objects);
      var items := world.inlineData[t];
      for i := 0 to |items|
        invariant LoadExact(world, files, t) == Then(objects, FromInline(world, t, items[i..], seen))
      {
        assert items[i..][1..] == items[i + 1..];
        var id := IdOf(world, t, items[i]);
        if id.None? { return Err(MissingId); }
        ghost var one := if id.value in seen then [] else [InlineObject(t, id.value, items[i])];
        assert objects + [] == objects;
        ThenTwice(objects, one, FromInline(world, t, items[i + 1..], seen + {id.value}));
        if id.value !in seen {
          objects := objects + [InlineObject(t, id.value, items[i])];
        }
        seen := seen + {id.value};
      }
      assert items[|items|..] == [];
      ThenOnce(Ok([]), objects);
      return Ok(objects);
    }

    method LoadTypes(names: seq<string>) returns (r: Result<seq<Object>, Error>)
      requires world.Valid() && forall n :: n in names ==> n in world.types
      ensures r == LoadNames(world, files, names, [])
    {
      hide LoadExact;
      var objects: seq<Object> := [];
      for i := 0 to |names|
        invariant LoadNames(world, files, names, []) == LoadNames(world, files, names[i..], objects)
      {
        assert names[i..][1..] == names[i + 1..];
        var loaded := LoadExactAll(names[i]);
        if loaded.Err? { return loaded; }
        if !(Ids(objects) !! Ids(loaded.value)) { return Err(Ambiguous); }
        objects := objects + loaded.value;
      }
      assert names[|names|..] == [];
      return Ok(objects);
    }

    /** Objects of a type and those below it; an identifier that two types declare is an error. */
    method LoadAllObjects(t: string) returns (r: Result<seq<Object>, Error>)
      requires world.Trees()
      ensures r == LoadAll(world, files, t)
    {
      if t !in world.types { return Err(UnknownType); }
      Inheritance.AssignableNames(world.types, t);
      var names := Inheritance.AssignableTypes(world.types, t);
      r := LoadTypes(names);
    }

    method FindObjectInType(t: string, id: string) returns (r: Result<Option<Location>, Error>)
      requires world.Valid() && t in world.types
      ensures r == FindInType(world, files, t, id)
    {
      var ms := ResolveIncludeMatches(t);
      for i := 0 to |ms|
        invariant FindInFiles(world, files, t, ms, id) == FindInFiles(world, files, t, ms[i..], id)
      {
        assert ms[i..][1..] == ms[i + 1..];
        var content := LoadFile(world, files, ms[i].path, t, ms[i].selector);
        if content.Err? {
          if content.error == FileMissing { continue; }
          return Err(content.error);
        }
        var items := Objects(content.value);
        for j := 0 to |items|
          invariant FindItem(world, t, items, content.value, ms[i].path, 0, id)
                 == FindItem(world, t, items[j..], content.value, ms[i].path, j, id)
        {
          assert items[j..][1..] == items[j + 1..];
          var found := IdOf(world, t, items[j]);
          if found.None? { return Err(MissingId); }
          if found.value == id {
            return Ok(Some(Location(ms[i].path, Some(content.value), j,
                                    FileObject(t, id, items[j], ms[i].path, content.value.readOnly))));
          }
        }
        assert items[|items|..] == [];
      }
      assert ms[|ms|..] == [];
      var items := world.inlineData[t];
      for j := 0 to |items|
        invariant FindInline(world, t, items, 0, id) == FindInline(world, t, items[j..], j, id)
      {
        assert items[j..][1..] == items[j + 1..];
        var found := IdOf(world, t, items[j]);
        if found.None? { return Err(MissingId); }
        if found.value == id {
          return Ok(Some(Location("", None, j, InlineObject(t, id, items[j]).(readOnly := false))));
        }
      }
      assert items[|items|..] == [];
      return Ok(None);
    }

    method FindObjectInTypes(names: seq<string>, id: string) returns (r: Result<Option<Location>, Error>)
      requires world.Valid() && forall n :: n in names ==> n in world.types
      ensures r == FindInTypes(world, files, names, None, id)
    {
      var found: Option<Location> := None;
      for i := 0 to |names|
        invariant FindInTypes(world, files, names, None, id) == FindInTypes(world, files, names[i..], found, id)
      {
        assert names[i..][1..] == names[i + 1..];
        var here := FindObjectInType(names[i], id);
        if here.Err? { return here; }
        if here.value.None? { continue; }
        if found.Some? { return Err(Ambiguous); }
        found := here.value;
      }
      assert names[|names|..] == [];
      return Ok(found);
    }

    method GetObject(t: string, id: string) returns (r: Result<Object, Error>)
      requires world.Trees()
      ensures r == Get(world, files, t, id)
    {
      if id == "" { return Err(MissingId); }
      if t !in world.types { return Err(UnknownType); }
      Inheritance.AssignableNames(world.types, t);
      var names := Inheritance.AssignableTypes(world.types, t);
      var found := FindObjectInTypes(names, id);
      if found.Err? { return Err(found.error); }
      if found.value.None? { return Err(NotFound); }
      return Ok(found.value.value.found);
    }

    /** The identifiers of a type and those below it, sorted, one for each object. */
    method List(t: string) returns (r: Result<seq<string>, Error>)
      requires world.Trees()
      ensures r.Ok? <==> LoadAll(world, files, t).Ok?
      ensures r.Ok? ==> Sorted(r.value) && forall id :: id in r.value <==> id in Ids(LoadAll(world, files, t).value)
      ensures r.Ok? ==> |r.value| == |LoadAll(world, files, t).value|
    {
      var loaded := LoadAllObjects(t);
      if loaded.Err? { return Err(loaded.error); }
      var ids: seq<string> := [];
      for i := 0 to |loaded.value|
        invariant |ids| == i && forall j :: 0 <= j < i ==> ids[j] == loaded.value[j].id
      {
        ids := ids + [loaded.value[i].id];
      }
      SortIsSortedPermutation(ids);
      var sorted := SortStrings(ids);
      forall id ensures id in sorted <==> id in Ids(loaded.value) {
        assert id in sorted <==> id in multiset(sorted);
        assert id in ids <==> id in multiset(ids);
        if id in Ids(loaded.value) {
          var o :| o in loaded.value && o.id == id;
          var j :| 0 <= j < |loaded.value| && loaded.value[j] == o;
          assert ids[j] == id;
        }
      }
      assert |sorted| == |multiset(sorted)| == |multiset(ids)|;
      return Ok(sorted);
    }

    // ---------- writing ----------

    /** An object is created in the file its type writes to, or nothing changes. */
    method CreateObject(t: string, fields: Fields) returns (r: Result<Object, Error>)
      requires world.Valid()
      modifies this`files
      ensures var spec := Create(world, old(files), t, fields);
              match spec case Err(e) => r == Err(e) && files == old(files)
                         case Ok((after, o)) => r == Ok(o) && files == after
    {
      if t !in world.types { return Err(UnknownType); }
      var idOf := IdOf(world, t, fields);
      if idOf.None? { return Err(MissingId); }
      var id := idOf.value;
      var found := FindObjectInTypes(Tree(world, t), id);
      if found.Err? { return Err(found.error); }
      if found.value.Some? { return Err(AlreadyExists); }
      var chosen := ChooseCreateTarget(world.includes[t], id);
      if chosen.Err? { return Err(chosen.error); }
      var target := chosen.value;
      var doc := LoadFile(world, files, target.path, t, "");
      if doc.Err? && doc.error != FileMissing { return Err(doc.error); }
      var item := Clean(fields);
      item := item[IdField(world, t) := StoredId(world, t, id, fields[IdField(world, t)])];
      if target.multi {
        var content := if doc.Ok? then doc.value else Multi(t, [], false);
        if content.Multi? {
          content := content.(items := content.items + [item]);
        }
        assert [] + [item] == [item];
        files := files[target.path := Encode(content)];
      } else {
        files := files[target.path := Document(item)];
      }
      return Ok(FileObject(t, id, item, target.path, false));
    }

    method FindWritable(t: string, id: string) returns (r: Result<Location, Error>)
      requires world.Valid()
      ensures r == Writable(world, files, t, id)
    {
      if t !in world.types { return Err(UnknownType); }
      var found := FindObjectInTypes([t], id);
      if found.Err? { return Err(found.error); }
      if found.value.None? { return Err(NotFound); }
      var loc := found.value.value;
      if loc.content.None? { return Err(Inlined); }
      if loc.content.value.readOnly { return Err(ReadOnlyFile); }
      return Ok(loc);
    }

    method UpdateObject(t: string, id: string, fields: Fields, merge: bool) returns (r: Result<Object, Error>)
      requires world.Valid()
      modifies this`files
      ensures var spec := Update(world, old(files), t, id, fields, merge);
              match spec case Err(e) => r == Err(e) && files == old(files)
                         case Ok((after, o)) => r == Ok(o) && files == after
    {
      var found := FindWritable(t, id);
      if found.Err? { return Err(found.error); }
      WritableAt(world, files, t, id);
      var loc := found.value;
      var content := loc.content.value;
      var updated: Fields;
      if merge {
        updated := MergeMaps(loc.found.fields, fields);
      } else {
        updated := Clean(fields);
      }
      updated := updated[IdField(world, t) := Str(id)];
      updated := updated - SystemKeys;
      if content.Multi? {
        files := files[loc.path := Encode(content.(items := content.items[loc.index := updated]))];
      } else {
        files := files[loc.path := Document(updated)];
      }
      return Ok(FileObject(t, id, updated, loc.path, false));
    }

    /** The error that stopped the delete, if any. */
    method DeleteObject(t: string, id: string) returns (failed: Option<Error>)
      requires world.Valid()
      modifies this`files
      ensures var spec := Delete(world, old(files), t, id);
              match spec case Err(e) => failed == Some(e) && files == old(files)
                         case Ok(after) => failed == None && files == after
    {
      var found := FindWritable(t, id);
      if found.Err? { return Some(found.error); }
      WritableAt(world, files, t, id);
      var loc := found.value;
      var content := loc.content.value;
      if content.Multi? {
        var items := content.items[..loc.index] + content.items[loc.index + 1..];
        if items == [] {
          files := files - {loc.path};
          return None;
        }
        files := files[loc.path := Encode(content.(items := items))];
        return None;
      }
      files := files - {loc.path};
      return None;
    }
  }
}
