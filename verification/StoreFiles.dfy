/**
 Reading objects from data files: which files a type reads, the two encodings of a file, loading
 every object of a type and finding one by identifier (internal/data/load.go, fileio.go).
*/
module StoreFiles {
  import opened Text
  import opened Inheritance

  datatype Value =
    | Null
    | Str(text: string)
    | Number(token: string)
    | List(items: seq<Value>)
    | Map(fields: Fields)

  type Fields = map<string, Value>

  /** A file that decodes to an object, or any other file. */
  datatype File = Document(doc: Fields) | Unreadable(bytes: string)

  type Files = map<string, File>

  datatype Include = Include(path: string, selector: string)

  /**
   The configuration, and what libraries decide: which paths a pattern matches, and what a selector
   picks from a file (nothing when the file or the selector cannot be parsed).
  */
  datatype World = World(
    types: map<string, TypeDef>,
    includes: map<string, seq<Include>>,
    inlineData: map<string, seq<Fields>>,
    matches: (string, string) -> bool,
    select: (string, File) -> Option<seq<Value>>)
  {
    ghost predicate Valid() {
      includes.Keys == types.Keys && inlineData.Keys == types.Keys && "" !in types
    }

    /** The types form inheritance trees. */
    ghost predicate Trees() {
      Valid() && Consistent(types)
    }
  }

  datatype Error =
    | UnknownType | MissingId | NotFound | AlreadyExists | Ambiguous
    | FileMissing | BadFile | TypeMismatch | NotObject | NoTarget | Inlined | ReadOnlyFile

  /** What a file holds for a type: several items or a single object. */
  datatype Content =
    | Multi(typeName: string, items: seq<Fields>, readOnly: bool)
    | Single(typeName: string, fields: Fields, readOnly: bool)

  datatype Match = Match(selector: string, path: string)

  datatype Object = Object(typeName: string, id: string, fields: Fields, file: string, inlined: bool, readOnly: bool)

  // ---------- identifiers ----------

  function AsString(v: Value): Option<string> {
    match v
    case Str(text) => if text == "" then None else Some(text)
    case Number(token) => if token == "" then None else Some(token)
    case _ => None
  }

  function GetString(m: Fields, key: string): Option<string> {
    if key in m then AsString(m[key]) else None
  }

  function IdOf(w: World, t: string, fields: Fields): Option<string>
    requires t in w.types
  {
    if w.types[t].identifier.field == "" then None else GetString(fields, w.types[t].identifier.field)
  }

  // ---------- the files a type reads ----------

  predicate Owns(w: World, inc: Include, path: string) {
    inc.path != "" && w.matches(inc.path, path)
  }

  function Tagged(selector: string, paths: seq<string>): (ms: seq<Match>)
    ensures |ms| == |paths| && forall i :: 0 <= i < |ms| ==> ms[i] == Match(selector, paths[i])
  {
    seq(|paths|, i requires 0 <= i < |paths| => Match(selector, paths[i]))
  }

  function Matched(w: World, inc: Include, paths: set<string>): seq<Match> {
    Tagged(inc.selector, SortedKeys(set p | p in paths && Owns(w, inc, p)))
  }

  /** The matches of the includes in order, each include once. */
  function MatchesOf(w: World, incs: seq<Include>, paths: set<string>, seen: set<Include>): seq<Match> {
    if incs == [] then []
    else if incs[0] in seen then MatchesOf(w, incs[1..], paths, seen)
    else Matched(w, incs[0], paths) + MatchesOf(w, incs[1..], paths, seen + {incs[0]})
  }

  function FileMatches(w: World, paths: set<string>, t: string): seq<Match>
    requires t in w.includes
  {
    MatchesOf(w, w.includes[t], paths, {})
  }

  // ---------- the encodings of a file ----------

  function AsFields(values: seq<Value>): Option<seq<Fields>> {
    if values == [] then Some([])
    else match AsFields(values[1..])
      case None => None
      case Some(rest) => if values[0].Map? then Some([values[0].fields] + rest) else None
  }

  function AsValues(items: seq<Fields>): (r: seq<Value>)
    ensures |r| == |items| && forall i :: 0 <= i < |r| ==> r[i] == Map(items[i])
  {
    seq(|items|, i requires 0 <= i < |items| => Map(items[i]))
  }

  lemma {:induction false} ItemsReadBack(items: seq<Fields>)
    ensures AsFields(AsValues(items)) == Some(items)
  {
    if items != [] {
      ItemsReadBack(items[1..]);
      assert AsValues(items)[1..] == AsValues(items[1..]);
      assert [items[0]] + items[1..] == items;
    }
  }

  function DeclaredAs(fields: Fields, key: string, t: string): bool {
    match GetString(fields, key) case None => true case Some(name) => name == t
  }

  function Selected(values: seq<Value>, t: string): Result<seq<Fields>, Error> {
    if values == [] then Ok([])
    else if !values[0].Map? then Err(NotObject)
    else if !DeclaredAs(values[0].fields, "type", t) || !DeclaredAs(values[0].fields, "Type", t) then Err(TypeMismatch)
    else match Selected(values[1..], t)
      case Err(e) => Err(e)
      case Ok(rest) => Ok([values[0].fields - {"type", "Type", "$path"}] + rest)
  }

  function Decode(doc: Fields, t: string): Result<Content, Error> {
    if !DeclaredAs(doc, "type", t) then Err(TypeMismatch)
    else
      var rest := if GetString(doc, "type").Some? then doc - {"type"} else doc;
      if "items" !in rest then Ok(Single(t, rest, false))
      else if !rest["items"].List? then Err(NotObject)
      else match AsFields(rest["items"].items)
        case None => Err(NotObject)
        case Some(items) => Ok(Multi(t, items, false))
  }

  function LoadFile(w: World, files: Files, path: string, t: string, selector: string): Result<Content, Error> {
    if path !in files then Err(FileMissing)
    else if selector == "" then
      if files[path].Unreadable? then Err(BadFile) else Decode(files[path].doc, t)
    else
      match w.select(selector, files[path])
      case None => Err(BadFile)
      case Some(values) =>
        if values == [] then Err(NotFound)
        else match Selected(values, t)
          case Err(e) => Err(e)
          case Ok(items) => if |items| == 1 then Ok(Single(t, items[0], true)) else Ok(Multi(t, items, true))
  }

  function Encode(content: Content): File {
    match content
    case Multi(t, items, _) => Document(map["type" := Str(t), "items" := List(AsValues(items))])
    case Single(t, fields, _) => Document(map["type" := Str(t)] + fields)
  }

  function Objects(content: Content): seq<Fields> {
    if content.Multi? then content.items else [content.fields]
  }

  /** A file written with its items reads back as those items; a bare object does too, unless it has an items field. */
  lemma EncodeDecode(content: Content)
    requires content.typeName != ""
    requires content.Single? ==> "type" !in content.fields && "items" !in content.fields
    ensures Decode(Encode(content).doc, content.typeName) == Ok(content.(readOnly := false))
  {
    if content.Multi? {
      ItemsReadBack(content.items);
    } else {
      assert Encode(content).doc - {"type"} == content.fields;
    }
  }

  // ---------- objects of one type ----------

  function FileObject(t: string, id: string, fields: Fields, path: string, readOnly: bool): Object {
    Object(t, id, fields, path, false, readOnly)
  }

  function FromItems(w: World, t: string, items: seq<Fields>, path: string, readOnly: bool): Result<seq<Object>, Error>
    requires t in w.types
  {
    if items == [] then Ok([])
    else match IdOf(w, t, items[0])
      case None => Err(MissingId)
      case Some(id) =>
        match FromItems(w, t, items[1..], path, readOnly)
        case Err(e) => Err(e)
        case Ok(rest) => Ok([FileObject(t, id, items[0], path, readOnly)] + rest)
  }

  function FromFile(w: World, files: Files, t: string, m: Match): Result<seq<Object>, Error>
    requires t in w.types
  {
    match LoadFile(w, files, m.path, t, m.selector)
    case Err(e) => Err(e)
    case Ok(content) => FromItems(w, t, Objects(content), m.path, content.readOnly)
  }

  function FromMatches(w: World, files: Files, t: string, ms: seq<Match>): Result<seq<Object>, Error>
    requires t in w.types
  {
    if ms == [] then Ok([])
    else match FromFile(w, files, t, ms[0])
      case Err(e) => Err(e)
      case Ok(first) =>
        match FromMatches(w, files, t, ms[1..])
        case Err(e) => Err(e)
        case Ok(rest) => Ok(first + rest)
  }

  function Ids(objects: seq<Object>): set<string> {
    set o | o in objects :: o.id
  }

  function InlineObject(t: string, id: string, fields: Fields): Object {
    Object(t, id, fields, "", true, true)
  }

  /** Inline items whose identifier no file and no earlier item has. */
  function FromInline(w: World, t: string, items: seq<Fields>, seen: set<string>): Result<seq<Object>, Error>
    requires t in w.types
  {
    if items == [] then Ok([])
    else match IdOf(w, t, items[0])
      case None => Err(MissingId)
      case Some(id) =>
        match FromInline(w, t, items[1..], seen + {id})
        case Err(e) => Err(e)
        case Ok(rest) => Ok((if id in seen then [] else [InlineObject(t, id, items[0])]) + rest)
  }

  function FileObjects(w: World, files: Files, t: string): Result<seq<Object>, Error>
    requires w.Valid() && t in w.types
  {
    FromMatches(w, files, t, FileMatches(w, files.Keys, t))
  }

  function LoadExact(w: World, files: Files, t: string): Result<seq<Object>, Error>
    requires w.Valid() && t in w.types
  {
    match FileObjects(w, files, t)
    case Err(e) => Err(e)
    case Ok(objects) =>
      match FromInline(w, t, w.inlineData[t], Ids(objects))
      case Err(e) => Err(e)
      case Ok(more) => Ok(objects + more)
  }

  // ---------- objects of a type and those below it ----------

  /** Fails when two types declare the same identifier. */
  function LoadNames(w: World, files: Files, names: seq<string>, loaded: seq<Object>): Result<seq<Object>, Error>
    requires w.Valid() && forall n :: n in names ==> n in w.types
  {
    if names == [] then Ok(loaded)
    else match LoadExact(w, files, names[0])
      case Err(e) => Err(e)
      case Ok(objects) =>
        if Ids(loaded) !! Ids(objects) then LoadNames(w, files, names[1..], loaded + objects) else Err(Ambiguous)
  }

  // ---------- finding one object ----------

  /** Where an object is: at an index of a file's items, alone in its file, or inline. */
  datatype Location = Location(path: string, content: Option<Content>, index: nat, found: Object)

  function FindItem(w: World, t: string, items: seq<Fields>, content: Content, path: string, index: nat, id: string)
      : Result<Option<Location>, Error>
    requires t in w.types
  {
    if items == [] then Ok(None)
    else match IdOf(w, t, items[0])
      case None => Err(MissingId)
      case Some(found) =>
        if found == id then Ok(Some(Location(path, Some(content), index,
                                             FileObject(t, id, items[0], path, content.readOnly))))
        else FindItem(w, t, items[1..], content, path, index + 1, id)
  }

  function FindInFiles(w: World, files: Files, t: string, ms: seq<Match>, id: string): Result<Option<Location>, Error>
    requires t in w.types
  {
    if ms == [] then Ok(None)
    else match LoadFile(w, files, ms[0].path, t, ms[0].selector)
      case Err(FileMissing) => FindInFiles(w, files, t, ms[1..], id)
      case Err(e) => Err(e)
      case Ok(content) =>
        match FindItem(w, t, Objects(content), content, ms[0].path, 0, id)
        case Err(e) => Err(e)
        case Ok(Some(loc)) => Ok(Some(loc))
        case Ok(None) => FindInFiles(w, files, t, ms[1..], id)
  }

  function FindInline(w: World, t: string, items: seq<Fields>, index: nat, id: string): Result<Option<Location>, Error>
    requires t in w.types
  {
    if items == [] then Ok(None)
    else match IdOf(w, t, items[0])
      case None => Err(MissingId)
      case Some(found) =>
        if found == id then Ok(Some(Location("", None, index, InlineObject(t, id, items[0]).(readOnly := false))))
        else FindInline(w, t, items[1..], index + 1, id)
  }

  function FindInType(w: World, files: Files, t: string, id: string): Result<Option<Location>, Error>
    requires w.Valid() && t in w.types
  {
    match FindInFiles(w, files, t, FileMatches(w, files.Keys, t), id)
    case Err(e) => Err(e)
    case Ok(Some(loc)) => Ok(Some(loc))
    case Ok(None) => FindInline(w, t, w.inlineData[t], 0, id)
  }

  /** Every type is searched, and a second find is an error. */
  function FindInTypes(w: World, files: Files, names: seq<string>, found: Option<Location>, id: string)
      : Result<Option<Location>, Error>
    requires w.Valid() && forall n :: n in names ==> n in w.types
  {
    if names == [] then Ok(found)
    else match FindInType(w, files, names[0], id)
      case Err(e) => Err(e)
      case Ok(None) => FindInTypes(w, files, names[1..], found, id)
      case Ok(Some(loc)) => if found.Some? then Err(Ambiguous) else FindInTypes(w, files, names[1..], Some(loc), id)
  }

  // ---------- loading and finding agree ----------

  function FirstWith(objects: seq<Object>, id: string): (r: Option<Object>)
    ensures r.None? <==> id !in Ids(objects)
    ensures r.Some? ==> r.value in objects && r.value.id == id
  {
    if objects == [] then None
    else if objects[0].id == id then Some(objects[0])
    else
      assert objects == [objects[0]] + objects[1..];
      FirstWith(objects[1..], id)
  }

  lemma {:induction false} FirstOfBoth(left: seq<Object>, right: seq<Object>, id: string)
    ensures FirstWith(left + right, id) == if id in Ids(left) then FirstWith(left, id) else FirstWith(right, id)
    ensures Ids(left + right) == Ids(left) + Ids(right)
  {
    if left == [] {
      assert left + right == right;
    } else {
      assert (left + right)[1..] == left[1..] + right;
      assert left == [left[0]] + left[1..];
      FirstOfBoth(left[1..], right, id);
    }
  }

  /** The find is what loading lists first under the identifier, but an inline object is not marked read-only. */
  ghost predicate Agrees(found: Option<Location>, first: Option<Object>) {
    match found
    case None => first.None?
    case Some(loc) => first.Some? && loc.found == first.value.(readOnly := first.value.readOnly && !first.value.inlined)
  }

  /** The k-th object is the one found, and none before it has the identifier. */
  ghost predicate FoundAt(es: seq<Object>, items: seq<Fields>, k: nat, found: Object, id: string) {
    && k < |es| == |items|
    && es[k] == found && found.fields == items[k] && found.id == id
    && forall j :: 0 <= j < k ==> es[j].id != id
  }

  lemma FoundAtIsFirst(es: seq<Object>, items: seq<Fields>, k: nat, found: Object, id: string)
    requires FoundAt(es, items, k, found, id)
    ensures FirstWith(es, id) == Some(found) && id !in Ids(es[..k])
    decreases k
  {
    if k > 0 {
      FoundAtIsFirst(es[1..], items[1..], k - 1, found, id);
    }
  }

  lemma {:induction false} FindItemAgrees(w: World, t: string, items: seq<Fields>, content: Content, path: string,
                                          index: nat, id: string)
    requires t in w.types && FromItems(w, t, items, path, content.readOnly).Ok?
    ensures var es := FromItems(w, t, items, path, content.readOnly).value;
            var r := FindItem(w, t, items, content, path, index, id);
            && r.Ok? && |es| == |items|
            && (r.value.None? ==> FirstWith(es, id) == None)
            && (r.value.Some? ==>
                  var loc := r.value.value;
                  && loc.content == Some(content) && loc.path == path && loc.index >= index && !loc.found.inlined
                  && FoundAt(es, items, loc.index - index, loc.found, id))
  {
    if items != [] {
      hide Ids;
      FindItemAgrees(w, t, items[1..], content, path, index + 1, id);
      var es := FromItems(w, t, items, path, content.readOnly).value;
      assert es[1..] == FromItems(w, t, items[1..], path, content.readOnly).value;
    }
  }

  lemma {:induction false} FindInFilesAgrees(w: World, files: Files, t: string, ms: seq<Match>, id: string)
    requires t in w.types && FromMatches(w, files, t, ms).Ok?
    ensures FindInFiles(w, files, t, ms, id).Ok?
    ensures Agrees(FindInFiles(w, files, t, ms, id).value, FirstWith(FromMatches(w, files, t, ms).value, id))
  {
    hide LoadFile, FromItems, FindItem, Ids;
    if ms != [] {
      var content := LoadFile(w, files, ms[0].path, t, ms[0].selector).value;
      FindItemAgrees(w, t, Objects(content), content, ms[0].path, 0, id);
      var here := FindItem(w, t, Objects(content), content, ms[0].path, 0, id).value;
      if here.Some? {
        FoundAtIsFirst(FromFile(w, files, t, ms[0]).value, Objects(content), here.value.index, here.value.found, id);
      }
      FindInFilesAgrees(w, files, t, ms[1..], id);
      FirstOfBoth(FromFile(w, files, t, ms[0]).value, FromMatches(w, files, t, ms[1..]).value, id);
    }
  }

  lemma {:induction false} FindInlineAgrees(w: World, t: string, items: seq<Fields>, seen: set<string>, index: nat,
                                            id: string)
    requires t in w.types && FromInline(w, t, items, seen).Ok?
    ensures FindInline(w, t, items, index, id).Ok?
    ensures Agrees(if id in seen then None else FindInline(w, t, items, index, id).value,
                   FirstWith(FromInline(w, t, items, seen).value, id))
  {
    if items != [] {
      var head := IdOf(w, t, items[0]).value;
      FindInlineAgrees(w, t, items[1..], seen + {head}, index + 1, id);
      FirstOfBoth(if head in seen then [] else [InlineObject(t, head, items[0])],
                  FromInline(w, t, items[1..], seen + {head}).value, id);
    }
  }

  lemma FindInTypeAgrees(w: World, files: Files, t: string, id: string)
    requires w.Valid() && t in w.types && LoadExact(w, files, t).Ok?
    ensures FindInType(w, files, t, id).Ok?
    ensures Agrees(FindInType(w, files, t, id).value, FirstWith(LoadExact(w, files, t).value, id))
  {
    var objects := FileObjects(w, files, t).value;
    var more := FromInline(w, t, w.inlineData[t], Ids(objects)).value;
    FindInFilesAgrees(w, files, t, FileMatches(w, files.Keys, t), id);
    FindInlineAgrees(w, t, w.inlineData[t], Ids(objects), 0, id);
    FirstOfBoth(objects, more, id);
  }

  /** Searching several types agrees with loading them all, which fails on an identifier two of them declare. */
  lemma {:induction false} FindInTypesAgrees(w: World, files: Files, names: seq<string>, loaded: seq<Object>,
                                             found: Option<Location>, id: string)
    requires w.Valid() && forall n :: n in names ==> n in w.types
    requires LoadNames(w, files, names, loaded).Ok? && Agrees(found, FirstWith(loaded, id))
    ensures FindInTypes(w, files, names, found, id).Ok?
    ensures Agrees(FindInTypes(w, files, names, found, id).value,
                   FirstWith(LoadNames(w, files, names, loaded).value, id))
  {
    if names != [] {
      var objects := LoadExact(w, files, names[0]).value;
      FindInTypeAgrees(w, files, names[0], id);
      FirstOfBoth(loaded, objects, id);
      var here := FindInType(w, files, names[0], id).value;
      FindInTypesAgrees(w, files, names[1..], loaded + objects, if here.Some? then here else found, id);
    }
  }
}
