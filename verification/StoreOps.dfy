/**
 What creating, updating and deleting an object do to the files, and what that does to the objects
 read back from them (internal/data/store_ops.go, fileio.go, util.go).
*/
module StoreOps {
  import opened Text
  import Inheritance
  import opened StoreFiles

  // ---------- where a new object goes ----------

  datatype Target = Target(path: string, multi: bool)

  predicate IsGlob(pattern: string) {
    '*' in pattern || '?' in pattern || '[' in pattern
  }

  function Replace(pattern: string, c: char, value: string): string {
    if pattern == "" then "" else (if pattern[0] == c then value else [pattern[0]]) + Replace(pattern[1..], c, value)
  }

  function ReplaceGlob(pattern: string, value: string): string {
    Replace(Replace(pattern, '*', value), '?', value)
  }

  predicate IsFileChar(c: char) {
    'a' <= c <= 'z' || 'A' <= c <= 'Z' || '0' <= c <= '9' || c == '-' || c == '_' || c == '.'
  }

  function Sanitize(value: string): string {
    if value == "" then "object" else seq(|value|,
                                          i requires 0 <= i < |value| => if IsFileChar(value[i]) then value[i] else '-')
  }

  /** The first writable pattern with a wildcard; failing that, the first literal path. */
  function ChooseTarget(incs: seq<Include>, id: string, literal: Option<Target>): Result<Target, Error> {
    if incs == [] then (if literal.Some? then Ok(literal.value) else Err(NoTarget))
    else if incs[0].selector != "" || incs[0].path == "" then ChooseTarget(incs[1..], id, literal)
    else if IsGlob(incs[0].path) then Ok(Target(ReplaceGlob(incs[0].path, Sanitize(id)), false))
    else ChooseTarget(incs[1..], id, if literal.Some? then literal else Some(Target(incs[0].path, true)))
  }

  // ---------- what is written ----------

  const SystemKeys := {"type", "Type", "$path"}

  function Clean(fields: Fields): Fields {
    fields - SystemKeys
  }

  /** Fields of the second replace those of the first, except that objects merge. */
  function Merge(dst: Fields, src: Fields): (r: Fields)
    ensures r.Keys == dst.Keys + src.Keys
    decreases Map(src)
  {
    map k | k in dst.Keys + src.Keys ::
      if k !in src then dst[k]
      else if k in dst && dst[k].Map? && src[k].Map? then Map(Merge(dst[k].fields, src[k].fields))
      else src[k]
  }

  function IdField(w: World, t: string): string
    requires t in w.types
  {
    w.types[t].identifier.field
  }

  /** The identifier is not kept under a key that the store itself writes or removes. */
  predicate PlainId(w: World, t: string)
    requires t in w.types
  {
    IdField(w, t) !in SystemKeys + {"", "items"}
  }

  /** Identifier fields declared as text are stored as text, others as given. */
  function StoredId(w: World, t: string, id: string, raw: Value): Value
    requires t in w.types
  {
    var field := IdField(w, t);
    if field in w.types[t].fields && w.types[t].fields[field].typ in {"string", "enum"} then Str(id) else raw
  }

  function Created(w: World, t: string, id: string, fields: Fields): Fields
    requires t in w.types && IdField(w, t) in fields
  {
    Clean(fields)[IdField(w, t) := StoredId(w, t, id, fields[IdField(w, t)])]
  }

  function Updated(w: World, t: string, id: string, was: Fields, fields: Fields, merge: bool): Fields
    requires t in w.types
  {
    (if merge then Merge(was, fields) else Clean(fields))[IdField(w, t) := Str(id)] - SystemKeys
  }

  // ---------- the operations ----------

  function Tree(w: World, t: string): (r: seq<string>)
    requires w.Valid() && t in w.types
    ensures forall n :: n in r ==> n in w.types
  {
    Inheritance.AssignableNames(w.types, Inheritance.Root(w.types, t));
    Inheritance.Assignable(w.types, Inheritance.Root(w.types, t))
  }

  /** Appending to a file that holds one bare object writes that object back and nothing else. */
  function Appended(t: string, existing: Result<Content, Error>, item: Fields): Content {
    match existing
    case Err(_) => Multi(t, [item], false)
    case Ok(Multi(name, items, readOnly)) => Multi(name, items + [item], readOnly)
    case Ok(single) => single
  }

  /** Write a new object to its target; whatever else is in the way of a single-object file is written over. */
  function Stored(w: World, files: Files, t: string, target: Target, item: Fields): Result<Files, Error> {
    var existing := LoadFile(w, files, target.path, t, "");
    if existing.Err? && existing.error != FileMissing then Err(existing.error)
    else Ok(files[target.path := if target.multi then Encode(Appended(t, existing, item)) else Document(item)])
  }

  function Create(w: World, files: Files, t: string, fields: Fields): Result<(Files, Object), Error>
    requires w.Valid()
  {
    if t !in w.types then Err(UnknownType)
    else match IdOf(w, t, fields)
      case None => Err(MissingId)
      case Some(id) =>
        match FindInTypes(w, files, Tree(w, t), None, id)
        case Err(e) => Err(e)
        case Ok(Some(_)) => Err(AlreadyExists)
        case Ok(None) =>
          match ChooseTarget(w.includes[t], id, None)
          case Err(e) => Err(e)
          case Ok(target) =>
            var item := Created(w, t, id, fields);
            match Stored(w, files, t, target, item)
            case Err(e) => Err(e)
            case Ok(after) => Ok((after, FileObject(t, id, item, target.path, false)))
  }

  /** The object an update or a delete is about, in a file that may be written. */
  function Writable(w: World, files: Files, t: string, id: string): Result<Location, Error>
    requires w.Valid()
  {
    if t !in w.types then Err(UnknownType)
    else match FindInTypes(w, files, [t], None, id)
      case Err(e) => Err(e)
      case Ok(None) => Err(NotFound)
      case Ok(Some(loc)) =>
        if loc.content.None? then Err(Inlined) else if loc.content.value.readOnly then Err(ReadOnlyFile) else Ok(loc)
  }

  function Rewritten(files: Files, path: string, content: Content, index: nat, item: Fields): Files
    requires index < |Objects(content)|
  {
    files[path := if content.Multi? then Encode(content.(items := content.items[index := item])) else Document(item)]
  }

  /** The last object of a file takes the file with it. */
  function Removed(files: Files, path: string, content: Content, index: nat): Files
    requires index < |Objects(content)|
  {
    if content.Multi? && |content.items| > 1 then
      files[path := Encode(content.(items := Without(content.items, index)))]
    else files - {path}
  }

  function Update(w: World, files: Files, t: string, id: string, fields: Fields, merge: bool): Result<(Files, Object),
      Error>
    requires w.Valid()
  {
    match Writable(w, files, t, id)
    case Err(e) => Err(e)
    case Ok(loc) =>
      WritableAt(w, files, t, id);
      var item := Updated(w, t, id, loc.found.fields, fields, merge);
      Ok((Rewritten(files, loc.path, loc.content.value, loc.index, item), FileObject(t, id, item, loc.path, false)))
  }

  function Delete(w: World, files: Files, t: string, id: string): Result<Files, Error>
    requires w.Valid()
  {
    match Writable(w, files, t, id)
    case Err(e) => Err(e)
    case Ok(loc) =>
      WritableAt(w, files, t, id);
      Ok(Removed(files, loc.path, loc.content.value, loc.index))
  }

  function Get(w: World, files: Files, t: string, id: string): Result<Object, Error>
    requires w.Valid()
  {
    if id == "" then Err(MissingId)
    else if t !in w.types then Err(UnknownType)
    else
      Inheritance.AssignableNames(w.types, t);
      match FindInTypes(w, files, Inheritance.Assignable(w.types, t), None, id)
      case Err(e) => Err(e)
      case Ok(None) => Err(NotFound)
      case Ok(Some(loc)) => Ok(loc.found)
  }

  function LoadAll(w: World, files: Files, t: string): Result<seq<Object>, Error>
    requires w.Valid()
  {
    if t !in w.types then Err(UnknownType)
    else
      Inheritance.AssignableNames(w.types, t);
      LoadNames(w, files, Inheritance.Assignable(w.types, t), [])
  }

  /**
   Whenever every object of a type loads, Get finds exactly the identifiers listed, and the first object under
   each.
  */
  lemma GetAgreesWithLoadAll(w: World, files: Files, t: string, id: string)
    requires w.Valid() && LoadAll(w, files, t).Ok?
    ensures Get(w, files, t, id).Ok? <==> id in Ids(LoadAll(w, files, t).value)
    ensures Get(w, files, t, id).Ok? ==>
              var first := FirstWith(LoadAll(w, files, t).value, id).value;
              Get(w, files, t, id).value == first.(readOnly := first.readOnly && !first.inlined)
  {
    Inheritance.AssignableNames(w.types, t);
    FindInTypesAgrees(w, files, Inheritance.Assignable(w.types, t), [], None, id);
    LoadedIds(w, files, Inheritance.Assignable(w.types, t), []);
  }

  // ---------- where a find is ----------

  /** A file-backed location is an index of what its file decodes to, and the file is one the type reads. */
  ghost predicate Locates(w: World, files: Files, t: string, ms: seq<Match>, id: string, loc: Location)
    requires t in w.types
  {
    && loc.content.Some?
    && (exists m :: m in ms && IsAt(w, files, t, m, loc))
    && FindItem(w, t, Objects(loc.content.value), loc.content.value, loc.path, 0, id) == Ok(Some(loc))
  }

  ghost predicate IsAt(w: World, files: Files, t: string, m: Match, loc: Location) {
    m.path == loc.path && loc.content.Some? && LoadFile(w, files, m.path, t, m.selector) == Ok(loc.content.value)
  }

  lemma {:induction false} FindItemPlace(w: World, t: string, items: seq<Fields>, content: Content, path: string,
                                         index: nat, id: string)
    requires t in w.types
    ensures var r := FindItem(w, t, items, content, path, index, id);
            r.Ok? && r.value.Some? ==>
              var loc := r.value.value;
              && loc.content == Some(content) && loc.path == path && index <= loc.index < index + |items|
              && loc.found == FileObject(t, id, items[loc.index - index], path, content.readOnly) && id != ""
              && IdOf(w, t, loc.found.fields) == Some(id)
  {
    if items != [] {
      FindItemPlace(w, t, items[1..], content, path, index + 1, id);
    }
  }

  lemma {:induction false} FindPlace(w: World, files: Files, t: string, ms: seq<Match>, id: string)
    requires t in w.types
    ensures var r := FindInFiles(w, files, t, ms, id);
            r.Ok? && r.value.Some? ==> Locates(w, files, t, ms, id, r.value.value)
  {
    if ms != [] {
      FindPlace(w, files, t, ms[1..], id);
      var load := LoadFile(w, files, ms[0].path, t, ms[0].selector);
      if load.Ok? {
        FindItemPlace(w, t, Objects(load.value), load.value, ms[0].path, 0, id);
        var here := FindItem(w, t, Objects(load.value), load.value, ms[0].path, 0, id);
        if here.Ok? && here.value.Some? {
          assert IsAt(w, files, t, ms[0], here.value.value);
        }
      }
      forall m | m in ms[1..] ensures m in ms { }
    }
  }

  lemma {:induction false} InlinePlace(w: World, t: string, items: seq<Fields>, index: nat, id: string)
    requires t in w.types
    ensures var r := FindInline(w, t, items, index, id); r.Ok? && r.value.Some? ==> r.value.value.content.None?
  {
    if items != [] {
      InlinePlace(w, t, items[1..], index + 1, id);
    }
  }

  /** The location an update or a delete writes to. */
  lemma WritableAt(w: World, files: Files, t: string, id: string)
    requires w.Valid() && Writable(w, files, t, id).Ok?
    ensures t in w.types && id != ""
    ensures var loc := Writable(w, files, t, id).value;
            && loc.content.Some? && loc.path in files && files[loc.path].Document?
            && !loc.content.value.readOnly && loc.content.value.typeName == t && t != ""
            && Decode(files[loc.path].doc, t) == Ok(loc.content.value)
            && loc.index < |Objects(loc.content.value)|
                && loc.found == FileObject(t, id, Objects(loc.content.value)[loc.index], loc.path, false)
            && FindItem(w, t, Objects(loc.content.value), loc.content.value, loc.path, 0, id) == Ok(Some(loc))
            && Match("", loc.path) in FileMatches(w, files.Keys, t)
  {
    hide FindInFiles, FindItem, FindInline, FileMatches, FromItems, Decode;
    var loc := Writable(w, files, t, id).value;
    var ms := FileMatches(w, files.Keys, t);
    assert FindInTypes(w, files, [t], None, id) == FindInType(w, files, t, id) by {
      assert [t][1..] == [];
    }
    FindPlace(w, files, t, ms, id);
    InlinePlace(w, t, w.inlineData[t], 0, id);
    assert Locates(w, files, t, ms, id, loc);
    var m :| m in ms && IsAt(w, files, t, m, loc);
    FindItemPlace(w, t, Objects(loc.content.value), loc.content.value, loc.path, 0, id);
    SelectorsAreReadOnly(w, files, m.path, t, m.selector);
    assert m == Match("", loc.path);
  }

  lemma SelectorsAreReadOnly(w: World, files: Files, path: string, t: string, selector: string)
    ensures var r := LoadFile(w, files, path, t, selector);
            r.Ok? ==> r.value.readOnly == (selector != "") && r.value.typeName == t
  {
  }

  lemma {:induction false} ItemIds(w: World, t: string, items: seq<Fields>, path: string, readOnly: bool)
    requires t in w.types && FromItems(w, t, items, path, readOnly).Ok?
    ensures "" !in Ids(FromItems(w, t, items, path, readOnly).value)
  {
    if items != [] { ItemIds(w, t, items[1..], path, readOnly); }
  }

  lemma {:induction false} MatchIds(w: World, files: Files, t: string, ms: seq<Match>)
    requires t in w.types && FromMatches(w, files, t, ms).Ok?
    ensures "" !in Ids(FromMatches(w, files, t, ms).value)
  {
    if ms != [] {
      var content := LoadFile(w, files, ms[0].path, t, ms[0].selector).value;
      ItemIds(w, t, Objects(content), ms[0].path, content.readOnly);
      MatchIds(w, files, t, ms[1..]);
    }
  }

  lemma {:induction false} InlineIds(w: World, t: string, items: seq<Fields>, seen: set<string>)
    requires t in w.types && FromInline(w, t, items, seen).Ok?
    ensures "" !in Ids(FromInline(w, t, items, seen).value)
  {
    if items != [] { InlineIds(w, t, items[1..], seen + {IdOf(w, t, items[0]).value}); }
  }

  /** No loaded object has an empty identifier. */
  lemma {:induction false} LoadedIds(w: World, files: Files, names: seq<string>, loaded: seq<Object>)
    requires w.Valid() && (forall n :: n in names ==> n in w.types) && "" !in Ids(loaded)
    requires LoadNames(w, files, names, loaded).Ok?
    ensures "" !in Ids(LoadNames(w, files, names, loaded).value)
  {
    if names != [] {
      var objects := LoadExact(w, files, names[0]).value;
      MatchIds(w, files, names[0], FileMatches(w, files.Keys, names[0]));
      InlineIds(w, names[0], w.inlineData[names[0]], Ids(FileObjects(w, files, names[0]).value));
      LoadedIds(w, files, names[1..], loaded + objects);
    }
  }

  // ---------- merging ----------

  /** Merging the same fields twice changes nothing more, and merging nothing changes nothing. */
  lemma {:induction false} MergeTwice(dst: Fields, src: Fields)
    ensures Merge(Merge(dst, src), src) == Merge(dst, src)
    ensures Merge(dst, map[]) == dst
    decreases Map(src)
  {
    var once := Merge(dst, src);
    forall k | k in once ensures Merge(once, src)[k] == once[k] {
      if k in src && src[k].Map? {
        assert src[k] < Map(src) && src[k] == Map(src[k].fields);
        MergeTwice(if k in dst && dst[k].Map? then dst[k].fields else map[], src[k].fields);
        MergeSelf(src[k].fields);
      }
    }
  }

  lemma {:induction false} MergeSelf(fields: Fields)
    ensures Merge(fields, fields) == fields
    decreases Map(fields)
  {
    forall k | k in fields ensures Merge(fields, fields)[k] == fields[k] {
      if fields[k].Map? {
        assert fields[k] < Map(fields) && fields[k] == Map(fields[k].fields);
        MergeSelf(fields[k].fields);
      }
    }
  }

  /** What stands at a path of keys, if anything. */
  function At(fields: Fields, path: seq<string>): Option<Value>
    requires path != []
    decreases |path|
  {
    if path[0] !in fields then None
    else if |path| == 1 then Some(fields[path[0]])
    else if fields[path[0]].Map? then At(fields[path[0]].fields, path[1..])
    else None
  }

  /** A merge sets every path at which the new fields hold no object, whatever was there. */
  lemma {:induction false} MergeSets(dst: Fields, src: Fields, path: seq<string>)
    requires path != [] && At(src, path).Some? && !At(src, path).value.Map?
    ensures At(Merge(dst, src), path) == At(src, path)
    decreases |path|
  {
    if |path| > 1 && path[0] in dst && dst[path[0]].Map? {
      MergeSets(dst[path[0]].fields, src[path[0]].fields, path[1..]);
    }
  }

  /** No key along the path is set to anything but an object by the new fields. */
  ghost predicate Spares(src: Fields, path: seq<string>)
    decreases |path|
  {
    path == [] || path[0] !in src || (|path| > 1 && src[path[0]].Map? && Spares(src[path[0]].fields, path[1..]))
  }

  /** A merge keeps every path that the new fields do not reach. */
  lemma {:induction false} MergeKeeps(dst: Fields, src: Fields, path: seq<string>)
    requires path != [] && At(dst, path).Some? && Spares(src, path)
    ensures At(Merge(dst, src), path) == At(dst, path)
    decreases |path|
  {
    if path[0] in src {
      MergeKeeps(dst[path[0]].fields, src[path[0]].fields, path[1..]);
    }
  }
}
