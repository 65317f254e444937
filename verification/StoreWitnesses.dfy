/**
 Concrete stores in which a write is lost, misread or undone: one type, one include, at most one file
 (internal/data/store_ops.go, fileio.go, util.go). Each store is sound, so nothing is amiss but the operation.
*/
module StoreWitnesses {
  import opened Text
  import Inheritance
  import opened StoreFiles
  import opened StoreOps
  import opened StoreListings
  import opened StoreRefinement
  import opened StoreFields

  const TYPE := Inheritance.TypeDef("T", "", [], Inheritance.Identifier("id", false, ""),
                                    map["id" := Inheritance.FieldDef("string", true, false)], ["id"])

  /** The patterns used here: a wildcard, a class of characters, and literal paths. */
  predicate Matches(pattern: string, path: string) {
    if pattern == "*" then true else if pattern == "[a]" then path == "a" else path == pattern
  }

  /** One type read through one include, and its inline data. */
  function One(pattern: string, inlined: seq<Fields>): (w: World)
    ensures w.Valid() && w.types == map["T" := TYPE] && w.inlineData == map["T" := inlined]
    ensures w.includes == map["T" := [Include(pattern, "")]]
    ensures forall inc, p :: Owns(w, inc, p) <==> inc.path != "" && Matches(inc.path, p)
  {
    World(map["T" := TYPE], map["T" := [Include(pattern, "")]], map["T" := inlined], Matches, (selector, file) => None)
  }

  function Named(id: string): Fields {
    map["id" := Str(id)]
  }

  /** What a get answers. */
  function Answer(pattern: string, inlined: seq<Fields>, files: Files, id: string): Result<Object, StoreFiles.Error> {
    Get(One(pattern, inlined), files, "T", id)
  }

  /** The files after an operation. */
  function After(pattern: string, inlined: seq<Fields>, files: Files, op: Op): Result<Files, StoreFiles.Error> {
    Apply(One(pattern, inlined), files, op)
  }

  /** The file at the path and no other. */
  function Only(p: string, doc: Fields): Files {
    map[p := Document(doc)]
  }

  /** What the theorems on operations assume of a store: nothing is amiss before the operation. */
  ghost predicate Sound(pattern: string, inlined: seq<Fields>, files: Files) {
    var w := One(pattern, inlined);
    && w.Trees() && (forall p :: Exclusive(w, p)) && (forall t :: t in w.types ==> PlainId(w, t))
    && Healthy(w, files)
  }

  lemma OneIsSound(pattern: string, inlined: seq<Fields>, files: Files)
    requires HealthyType(One(pattern, inlined), files, "T")
    ensures Sound(pattern, inlined, files)
  {
    hide One, Owns, PlainId, Exclusive, HealthyType, Known;
    var w := One(pattern, inlined);
    assert Inheritance.ConsistentType(w.types, "T");
    assert PlainId(w, "T") by { IdIsPlain(w); }
    forall p ensures Exclusive(w, p) { OneInclude(w, p); }
  }

  lemma IdIsPlain(w: World)
    requires w.types == map["T" := TYPE]
    ensures PlainId(w, "T")
  {
  }

  lemma OneInclude(w: World, p: string)
    requires exists inc :: w.includes == map["T" := [inc]]
    ensures Exclusive(w, p)
  {
    hide Owns;
  }

  /** What the include matches in a store with no file or one. */
  lemma OneMatch(pattern: string, inlined: seq<Fields>, paths: set<string>, p: string)
    requires paths <= {p}
    ensures FileMatches(One(pattern, inlined), paths, "T")
            == if p in paths && pattern != "" && Matches(pattern, p) then [Match("", p)] else []
  {
    hide One;
    var w, inc := One(pattern, inlined), Include(pattern, "");
    var owned := set q | q in paths && Owns(w, inc, q);
    assert Matched(w, inc, paths) == Tagged("", SortedKeys(owned));
    assert MatchesOf(w, [], paths, {inc}) == [] && w.includes["T"] == [inc] && [inc][1..] == [];
    assert FileMatches(w, paths, "T") == Matched(w, inc, paths);
    if p in paths && pattern != "" && Matches(pattern, p) {
      assert owned == {p};
      assert SortedKeys(owned) == [p];
    } else {
      assert owned == {};
      assert SortedKeys(owned) == [];
    }
  }

  /** With one type every search is the search of that type. */
  lemma OneSearch(pattern: string, inlined: seq<Fields>, files: Files, id: string)
    requires id != ""
    ensures var w := One(pattern, inlined);
            && Tree(w, "T") == ["T"] && Inheritance.Assignable(w.types, "T") == ["T"]
            && FindInTypes(w, files, ["T"], None, id) == FindInType(w, files, "T", id)
  {
    hide One, FindInType;
    var w := One(pattern, inlined);
    assert (set n | n in w.types && n != "T" && Inheritance.InheritsFrom(w.types, n, "T")) == {};
    assert ["T"][1..] == [];
  }

  /** Files the include does not match leave only the inline data. */
  lemma ReadsNone(pattern: string, inlined: seq<Fields>, files: Files, p: string, id: string)
    requires files.Keys <= {p} && (p in files ==> !Matches(pattern, p))
    ensures FindInType(One(pattern, inlined), files, "T", id) == FindInline(One(pattern, inlined), "T", inlined, 0, id)
  {
    hide One, FindInline, FileMatches, Matches;
    OneMatch(pattern, inlined, files.Keys, p);
  }

  /** The one file is searched before the inline data. */
  lemma ReadsOne(pattern: string, inlined: seq<Fields>, p: string, doc: Fields, content: Content, id: string)
    requires pattern != "" && Matches(pattern, p) && Decode(doc, "T") == Ok(content)
    ensures var w := One(pattern, inlined);
            FindInType(w, Only(p, doc), "T", id)
            == match FindItem(w, "T", Objects(content), content, p, 0, id)
               case Err(e) => Err(e)
               case Ok(Some(loc)) => Ok(Some(loc))
               case Ok(None) => FindInline(w, "T", inlined, 0, id)
  {
    hide One, FindInline, FindItem, FileMatches, Decode, Matches, Objects;
    OneMatch(pattern, inlined, {p}, p);
    var w, files, ms := One(pattern, inlined), Only(p, doc), [Match("", p)];
    assert files.Keys == {p} && ms[1..] == [];
    assert LoadFile(w, files, p, "T", "") == Ok(content);
    assert FindInFiles(w, files, "T", [], id) == Ok(None);
  }

  lemma OneGet(pattern: string, inlined: seq<Fields>, files: Files, id: string)
    requires id != ""
    ensures Answer(pattern, inlined, files, id)
            == match FindInType(One(pattern, inlined), files, "T", id)
               case Err(e) => Err(e)
               case Ok(None) => Err(NotFound)
               case Ok(Some(loc)) => Ok(loc.found)
  {
    hide One, FindInTypes, FindInType, Inheritance.Assignable;
    OneSearch(pattern, inlined, files, id);
  }

  /** Where an object of the identifier goes. */
  function PlaceOf(pattern: string, id: string): Target {
    if IsGlob(pattern) then Target(ReplaceGlob(pattern, Sanitize(id)), false) else Target(pattern, true)
  }

  /** A create of a new identifier writes the object to its place. */
  lemma OneCreate(pattern: string, inlined: seq<Fields>, files: Files, id: string, fields: Fields)
    requires pattern != "" && id != "" && "id" in fields && fields["id"] == Str(id) && fields.Keys !! SystemKeys
    requires FindInType(One(pattern, inlined), files, "T", id) == Ok(None)
    ensures var stored := Stored(One(pattern, inlined), files, "T", PlaceOf(pattern, id), fields);
            stored.Ok? ==> After(pattern, inlined, files, Creating("T", fields)) == stored
  {
    var w := One(pattern, inlined);
    hide One;
    OneSearch(pattern, inlined, files, id);
    assert IdOf(w, "T", fields) == Some(id);
    assert Created(w, "T", id, fields) == fields by {
      assert Clean(fields) == fields && fields["id" := Str(id)] == fields;
    }
    assert ChooseTarget(w.includes["T"], id, None) == Ok(PlaceOf(pattern, id)) by {
      assert w.includes["T"][1..] == [];
    }
    hide FindInTypes, FindInType, Tree, Stored, PlaceOf, Created, IdOf, ChooseTarget;
  }

  /** The objects of a file that holds at most one. */
  function Held(content: Content, p: string, id: string): Option<Object> {
    if |Objects(content)| == 1 && GetString(Objects(content)[0], "id") == Some(id)
    then Some(FileObject("T", id, Objects(content)[0], p, content.readOnly)) else None
  }

  /** A file with at most one object shows that object and nothing else. */
  lemma Shows(pattern: string, p: string, doc: Fields, content: Content, id: string)
    requires pattern != "" && Matches(pattern, p) && Decode(doc, "T") == Ok(content) && id != ""
    requires |Objects(content)| <= 1 && forall item :: item in Objects(content) ==> GetString(item, "id").Some?
    ensures var held := Held(content, p, id);
            && (FindInType(One(pattern, []), Only(p, doc), "T", id) == Ok(None) <==> held.None?)
            && Answer(pattern, [], Only(p, doc), id) == if held.Some? then Ok(held.value) else Err(NotFound)
  {
    hide One, FindInType, Answer, Decode, Matches, Only;
    ReadsOne(pattern, [], p, doc, content, id);
    OneGet(pattern, [], Only(p, doc), id);
    assert forall item: Fields :: [item][1..] == [];
  }

  /** A bare object shows itself, whether or not its type is written beside it. */
  lemma ShowsBare(pattern: string, p: string, doc: Fields, here: string, id: string)
    requires pattern != "" && Matches(pattern, p) && here != "" && id != ""
    requires doc == Named(here) || doc == map["type" := Str("T")] + Named(here)
    ensures FindInType(One(pattern, []), Only(p, doc), "T", id) == Ok(None) <==> here != id
    ensures Answer(pattern, [], Only(p, doc), id)
            == if here == id then Ok(FileObject("T", id, Named(id), p, false)) else Err(NotFound)
  {
    BareDecodes(Named(here));
    assert GetString(Named(here), "id") == Some(here);
    hide One, FindInType, Answer, Decode, Matches, Named, Only;
    Shows(pattern, p, doc, Single("T", Named(here), false), id);
  }

  lemma BareDecodes(doc: Fields)
    requires "type" !in doc && "items" !in doc
    ensures Decode(doc, "T") == Ok(Single("T", doc, false))
    ensures Decode(map["type" := Str("T")] + doc, "T") == Ok(Single("T", doc, false))
  {
    assert map["type" := Str("T")] + doc - {"type"} == doc;
  }

  // ---------- the stores are sound ----------

  lemma InlineLoads(w: World, inlined: seq<Fields>)
    requires w.Valid() && w.types == map["T" := TYPE] && w.inlineData == map["T" := inlined]
    requires |inlined| <= 1 && forall item :: item in inlined ==> GetString(item, "id").Some?
    ensures Inline(w, "T").Ok?
  {
    if inlined != [] {
      var id := GetString(inlined[0], "id");
      assert IdOf(w, "T", inlined[0]) == id && id.Some?;
      assert inlined[1..] == [];
      assert FromInline(w, "T", inlined[1..], {} + {id.value}) == Ok([]);
      assert FromInline(w, "T", inlined, {}).Ok?;
    }
  }

  /** A store without files is sound. */
  lemma EmptyIsSound(pattern: string, inlined: seq<Fields>)
    requires |inlined| <= 1 && forall item :: item in inlined ==> GetString(item, "id").Some?
    ensures Sound(pattern, inlined, map[])
  {
    hide One, Sound, FileMatches, Inline;
    var w, files: Files := One(pattern, inlined), map[];
    assert files.Keys == {};
    OneMatch(pattern, inlined, files.Keys, "");
    assert FileObjects(w, files, "T") == Ok([]);
    InlineLoads(w, inlined);
    OneIsSound(pattern, inlined, files);
  }

  /** So is one with a bare object. */
  lemma AloneIsSound(pattern: string, inlined: seq<Fields>, p: string, here: string)
    requires |inlined| <= 1 && forall item :: item in inlined ==> GetString(item, "id").Some?
    requires pattern != "" && Matches(pattern, p) && here != ""
    ensures Sound(pattern, inlined, Only(p, Named(here)))
  {
    var w, files := One(pattern, inlined), Only(p, Named(here));
    hide One, Sound, FileMatches, Inline, Matches, FromFile;
    assert files.Keys == {p};
    OneMatch(pattern, inlined, files.Keys, p);
    AloneLoads(w, p, here);
    assert [Match("", p)][1..] == [] && FromMatches(w, files, "T", []) == Ok([]);
    assert FileObjects(w, files, "T") == FromMatches(w, files, "T", [Match("", p)]);
    InlineLoads(w, inlined);
    OneIsSound(pattern, inlined, files);
  }

  lemma AloneLoads(w: World, p: string, here: string)
    requires w.types == map["T" := TYPE] && here != ""
    ensures FromFile(w, Only(p, Named(here)), "T", Match("", p)) == Ok([FileObject("T", here, Named(here), p, false)])
  {
    BareDecodes(Named(here));
    hide Decode;
    assert LoadFile(w, Only(p, Named(here)), p, "T", "") == Ok(Single("T", Named(here), false));
    var items := [Named(here)];
    assert IdOf(w, "T", Named(here)) == Some(here);
    assert items[1..] == [] && FromItems(w, "T", items[1..], p, false) == Ok([]);
    var found := [FileObject("T", here, Named(here), p, false)];
    assert found + [] == found;
  }

  // ---------- creates ----------

  /** A literal file that holds one bare object is written back without the new one. */
  lemma LostInBareFile(p: string, here: string, id: string)
    requires p != "" && !IsGlob(p) && id != "" && here != "" && here != id
    ensures Sound(p, [], Only(p, Named(here)))
    ensures var after := After(p, [], Only(p, Named(here)), Creating("T", Named(id)));
            && after.Ok? && Answer(p, [], after.value, id) == Err(NotFound) && Answer(p, [], after.value, here).Ok?
  {
    LiteralPlace(p, id);
    AloneIsSound(p, [], p, here);
    var written := map["type" := Str("T")] + Named(here);
    NamedIsPlain(id);
    NamedIsPlain(here);
    hide *;
    OverBare(One(p, []), p, Named(here), Named(id));
    ShowsBare(p, p, Named(here), here, id);
    ShowsBare(p, p, written, here, id);
    ShowsBare(p, p, written, here, here);
    OneCreate(p, [], Only(p, Named(here)), id, Named(id));
  }

  lemma NamedIsPlain(id: string)
    ensures "id" in Named(id) && Named(id)["id"] == Str(id) && Named(id).Keys !! SystemKeys
    ensures "type" !in Named(id) && "items" !in Named(id)
  {
  }

  lemma LiteralPlace(p: string, id: string)
    requires !IsGlob(p)
    ensures PlaceOf(p, id) == Target(p, true) && Matches(p, p)
  {
    assert '*' in "*" && '[' in "[a]";
  }

  lemma OverBare(w: World, p: string, doc: Fields, item: Fields)
    requires "type" !in doc && "items" !in doc
    ensures Stored(w, Only(p, doc), "T", Target(p, true), item) == Ok(Only(p, map["type" := Str("T")] + doc))
  {
    BareDecodes(doc);
    hide Decode;
    assert LoadFile(w, Only(p, doc), p, "T", "") == Ok(Single("T", doc, false));
    assert Only(p, doc)[p := Document(map["type" := Str("T")] + doc)] == Only(p, map["type" := Str("T")] + doc);
  }

  /** Where there is no file yet the object is written alone. */
  lemma IntoEmpty(w: World, p: string, item: Fields)
    ensures Stored(w, map[], "T", Target(p, false), item) == Ok(Only(p, item))
  {
    assert map[][p := Document(item)] == Only(p, item);
  }

  /** A class of characters is a wildcard but is not replaced, and the file so named is not read. */
  lemma LostInUnreadFile(pattern: string, id: string)
    requires pattern == "[a]" && id != ""
    ensures Sound(pattern, [], map[])
    ensures After(pattern, [], map[], Creating("T", Named(id))) == Ok(Only(pattern, Named(id)))
    ensures Answer(pattern, [], Only(pattern, Named(id)), id) == Err(NotFound)
  {
    ClassIsKept(pattern, id);
    NamedIsPlain(id);
    hide One, Stored, PlaceOf, FindInType, Answer, After, Matches, Sanitize, Named, Sound;
    EmptyIsSound(pattern, []);
    IntoEmpty(One(pattern, []), pattern, Named(id));
    ReadsNone(pattern, [], map[], pattern, id);
    OneCreate(pattern, [], map[], id, Named(id));
    ReadsNone(pattern, [], Only(pattern, Named(id)), pattern, id);
    OneGet(pattern, [], Only(pattern, Named(id)), id);
  }

  lemma ClassIsKept(pattern: string, id: string)
    requires pattern == "[a]"
    ensures PlaceOf(pattern, id) == Target(pattern, false) && !Matches(pattern, pattern)
  {
    NothingToReplace(pattern, '*', Sanitize(id));
    NothingToReplace(pattern, '?', Sanitize(id));
  }

  /** The wildcard puts every object into a file of its own. */
  lemma OwnFile(id: string)
    requires id != ""
    ensures PlaceOf("*", id) == Target(Sanitize(id), false) && Matches("*", Sanitize(id))
  {
    var name := Sanitize(id);
    NothingToReplace(name, '?', name);
    assert Replace("*", '*', name) == name by { assert "*"[1..] == ""; }
  }

  /** An object with a list of items, which reads as that list. */
  function Nested(id: string, inner: string): Fields {
    map["id" := Str(id), "items" := List([Map(Named(inner))])]
  }

  /** What a file that holds a nested object shows: the inner object only. */
  lemma ShowsInner(p: string, id: string, inner: string)
    requires Matches("*", p) && id != "" && inner != "" && id != inner
    ensures Answer("*", [], Only(p, Nested(id, inner)), id) == Err(NotFound)
    ensures Answer("*", [], Only(p, Nested(id, inner)), inner).Ok?
  {
    ItemsReadBack([Named(inner)]);
    assert AsValues([Named(inner)]) == [Map(Named(inner))];
    assert Decode(Nested(id, inner), "T") == Ok(Multi("T", [Named(inner)], false));
    hide One, Decode, FindInType, Answer, Matches, Nested;
    Shows("*", p, Nested(id, inner), Multi("T", [Named(inner)], false), id);
    Shows("*", p, Nested(id, inner), Multi("T", [Named(inner)], false), inner);
  }

  /** An object created with an items field is not there, and what its items hold is. */
  lemma MisreadItems(id: string, inner: string)
    requires id != "" && inner != "" && id != inner
    ensures Sound("*", [], map[])
    ensures var after := After("*", [], map[], Creating("T", Nested(id, inner)));
            && after.Ok? && Answer("*", [], after.value, id) == Err(NotFound) && Answer("*", [], after.value, inner).Ok?
  {
    hide *;
    EmptyIsSound("*", []);
    OwnFile(id);
    NestedIsPlain(id, inner);
    NoneYet(Sanitize(id), Nested(id, inner), id);
    ShowsInner(Sanitize(id), id, inner);
  }

  lemma NestedIsPlain(id: string, inner: string)
    ensures "id" in Nested(id, inner) && Nested(id, inner)["id"] == Str(id) && Nested(id, inner).Keys !! SystemKeys
  {
  }

  /** In an empty store a create writes the object alone to its file. */
  lemma NoneYet(p: string, item: Fields, id: string)
    requires id != "" && "id" in item && item["id"] == Str(id) && item.Keys !! SystemKeys
    requires PlaceOf("*", id) == Target(p, false)
    ensures After("*", [], map[], Creating("T", item)) == Ok(Only(p, item))
  {
    hide One, Stored, PlaceOf, FindInType, After, Matches;
    IntoEmpty(One("*", []), p, item);
    ReadsNone("*", [], map[], p, id);
    OneCreate("*", [], map[], id, item);
  }

  /** Of two identifiers with the same file name the later is there and the earlier is gone. */
  lemma SecondOverwrites(first: string, second: string)
    requires first != "" && second != "" && first != second && Sanitize(first) == Sanitize(second)
    ensures Sound("*", [], map[])
    ensures var between := After("*", [], map[], Creating("T", Named(first)));
            && between.Ok? && Answer("*", [], between.value, first).Ok?
            && var after := After("*", [], between.value, Creating("T", Named(second)));
            && after.Ok? && Answer("*", [], after.value, first) == Err(NotFound)
                && Answer("*", [], after.value, second).Ok?
  {
    hide *;
    EmptyIsSound("*", []);
    OwnFile(first);
    OwnFile(second);
    NamedIsPlain(first);
    NamedIsPlain(second);
    var p := Sanitize(first);
    NoneYet(p, Named(first), first);
    ShowsBare("*", p, Named(first), first, first);
    ShowsBare("*", p, Named(first), first, second);
    OverOther(One("*", []), p, first, second);
    OneCreate("*", [], Only(p, Named(first)), second, Named(second));
    ShowsBare("*", p, Named(second), second, first);
    ShowsBare("*", p, Named(second), second, second);
  }

  lemma OverOther(w: World, p: string, first: string, second: string)
    ensures Stored(w, Only(p, Named(first)), "T", Target(p, false), Named(second)) == Ok(Only(p, Named(second)))
  {
    BareDecodes(Named(first));
    hide Decode;
    assert Only(p, Named(first))[p := Document(Named(second))] == Only(p, Named(second));
  }

  /** For instance identifiers with a slash and with a colon. */
  lemma SlashAndColon()
    ensures Sanitize("a/b") == Sanitize("a:b")
  {
    SanitizeCollides("a/b", "a:b");
  }

  // ---------- updates and deletes ----------

  /** An update that adds an items field loses the object it updates. */
  lemma SpoiledByItems(id: string, inner: string, merge: bool)
    requires id != "" && inner != "" && id != inner
    ensures Sound("*", [], Only(Sanitize(id), Named(id)))
    ensures var files := Only(Sanitize(id), Named(id));
            var after := After("*", [], files, Updating("T", id, Nested(id, inner) - {"id"}, merge));
            && Answer("*", [], files, id).Ok?
            && after.Ok? && Answer("*", [], after.value, id) == Err(NotFound) && Answer("*", [], after.value, inner).Ok?
  {
    OwnFile(id);
    UpdatedNested(One("*", []), id, inner, merge);
    hide One, FindInType, Answer, Matches, Sanitize, PlaceOf, After, Updated, Nested, Sound;
    AloneIsSound("*", [], Sanitize(id), id);
    ShowsBare("*", Sanitize(id), Named(id), id, id);
    ShowsInner(Sanitize(id), id, inner);
    OneUpdate(Sanitize(id), id, Nested(id, inner) - {"id"}, merge);
  }

  lemma UpdatedNested(w: World, id: string, inner: string, merge: bool)
    requires "T" in w.types && w.types["T"] == TYPE
    ensures Updated(w, "T", id, Named(id), Nested(id, inner) - {"id"}, merge) == Nested(id, inner)
  {
  }

  /** An object alone in its file is found there. */
  lemma OneWritable(inlined: seq<Fields>, p: string, id: string)
    requires Matches("*", p) && id != ""
    ensures Writable(One("*", inlined), Only(p, Named(id)), "T", id)
            == Ok(Location(p, Some(Single("T", Named(id), false)), 0, FileObject("T", id, Named(id), p, false)))
  {
    BareDecodes(Named(id));
    hide One, Decode, FindInType, Matches, FindInTypes, Only;
    ReadsOne("*", inlined, p, Named(id), Single("T", Named(id), false), id);
    OneSearch("*", inlined, Only(p, Named(id)), id);
  }

  lemma OneUpdate(p: string, id: string, fields: Fields, merge: bool)
    requires Matches("*", p) && id != ""
    ensures After("*", [], Only(p, Named(id)), Updating("T", id, fields, merge))
            == Ok(Only(p, Updated(One("*", []), "T", id, Named(id), fields, merge)))
  {
    hide One, Matches, Writable, Updated;
    OneWritable([], p, id);
    var item := Updated(One("*", []), "T", id, Named(id), fields, merge);
    assert Only(p, Named(id))[p := Document(item)] == Only(p, item);
  }

  lemma OneDelete(inlined: seq<Fields>, p: string, id: string)
    requires Matches("*", p) && id != ""
    ensures After("*", inlined, Only(p, Named(id)), Deleting("T", id)) == Ok(map[])
  {
    hide One, Matches, Writable;
    OneWritable(inlined, p, id);
    assert Only(p, Named(id)) - {p} == map[];
  }

  /** Deleting an object shows the inline object of the same identifier. */
  lemma DeleteUncovers(id: string, below: Fields)
    requires id != "" && GetString(below, "id") == Some(id)
    ensures Sound("*", [below], Only(Sanitize(id), Named(id)))
    ensures var files := Only(Sanitize(id), Named(id));
            && Answer("*", [below], files, id).Ok? && Answer("*", [below], files, id).value.fields == Named(id)
            && After("*", [below], files, Deleting("T", id)) == Ok(map[])
            && Answer("*", [below], map[], id).Ok? && Answer("*", [below], map[], id).value.fields == below
  {
    SoundBeside(below, id);
    hide *;
    OwnFile(id);
    OneDelete([below], Sanitize(id), id);
    FileShows([below], Sanitize(id), id);
    InlineShows(below, id);
  }

  lemma SoundBeside(below: Fields, id: string)
    requires id != "" && GetString(below, "id") == Some(id)
    ensures Sound("*", [below], Only(Sanitize(id), Named(id)))
  {
    AloneIsSound("*", [below], Sanitize(id), id);
  }

  lemma FileShows(inlined: seq<Fields>, p: string, id: string)
    requires Matches("*", p) && id != ""
    ensures Answer("*", inlined, Only(p, Named(id)), id) == Ok(FileObject("T", id, Named(id), p, false))
    ensures FileObject("T", id, Named(id), p, false).fields == Named(id)
  {
    NamedIsPlain(id);
    FoundAlone(One("*", inlined), p, id);
    hide *;
    BareDecodes(Named(id));
    ReadsOne("*", inlined, p, Named(id), Single("T", Named(id), false), id);
    OneGet("*", inlined, Only(p, Named(id)), id);
  }

  lemma FoundAlone(w: World, p: string, id: string)
    requires w.types == map["T" := TYPE] && id != ""
    ensures var content, found := Single("T", Named(id), false), FileObject("T", id, Named(id), p, false);
            && FindItem(w, "T", Objects(content), content, p, 0, id) == Ok(Some(Location(p, Some(content), 0, found)))
            && found.fields == Named(id)
  {
  }

  lemma InlineShows(below: Fields, id: string)
    requires id != "" && GetString(below, "id") == Some(id)
    ensures Answer("*", [below], map[], id).Ok? && Answer("*", [below], map[], id).value.fields == below
  {
    hide One, FindInType, Answer, Matches, GetString;
    ReadsNone("*", [below], map[], "", id);
    OneGet("*", [below], map[], id);
  }
}
