/**
 What creates, updates and deletes leave behind: the fields of the object, key by key and path by path, and
 the error when there is one (internal/data/store_ops.go, util.go).
*/
module StoreFields {
  import opened Text
  import Inheritance
  import opened StoreFiles
  import opened StoreOps
  import opened StoreListings
  import opened StoreRefinement

  // ---------- updates ----------

  /** A merge leaves every path alone that the new fields spare, whether or not something is there. */
  lemma {:induction false} MergeSpares(dst: Fields, src: Fields, path: seq<string>)
    requires path != [] && Spares(src, path)
    ensures At(Merge(dst, src), path) == At(dst, path)
    decreases |path|
  {
    if path[0] in src {
      if path[0] in dst && dst[path[0]].Map? {
        MergeSpares(dst[path[0]].fields, src[path[0]].fields, path[1..]);
      } else {
        SparedIsAbsent(src[path[0]].fields, path[1..]);
      }
    }
  }

  lemma {:induction false} SparedIsAbsent(src: Fields, path: seq<string>)
    requires path != [] && Spares(src, path)
    ensures At(src, path) == None
    decreases |path|
  {
    if path[0] in src { SparedIsAbsent(src[path[0]].fields, path[1..]); }
  }

  /** Where the new fields hold an object there is one after the merge. */
  lemma {:induction false} MergeKeepsObjects(dst: Fields, src: Fields, path: seq<string>)
    requires path != [] && At(src, path).Some? && At(src, path).value.Map?
    ensures At(Merge(dst, src), path).Some? && At(Merge(dst, src), path).value.Map?
    decreases |path|
  {
    if |path| > 1 && path[0] in dst && dst[path[0]].Map? {
      MergeKeepsObjects(dst[path[0]].fields, src[path[0]].fields, path[1..]);
    }
  }

  /** The keys that an update or a create takes out, and the identifier, which it sets. */
  ghost predicate IsReserved(w: World, t: string, key: string)
    requires t in w.types
  {
    key == "type" || key == "Type" || key == "$path" || key == w.types[t].identifier.field
  }

  /** Fields merged into an object: what they spare is as before, and what they set is set. */
  ghost predicate MergedInto(w: World, t: string, was: Fields, fields: Fields, now: Fields)
    requires t in w.types
  {
    && (forall path :: path != [] && !IsReserved(w, t, path[0]) && Spares(fields, path) ==>
          At(now, path) == At(was, path))
    && (forall path :: path != [] && !IsReserved(w, t, path[0]) && At(fields, path).Some? ==>
          if At(fields, path).value.Map? then At(now, path).Some? && At(now, path).value.Map?
          else At(now, path) == At(fields, path))
  }

  /** Fields that replace an object: exactly they are there. */
  ghost predicate Replaces(w: World, t: string, fields: Fields, now: Fields)
    requires t in w.types
  {
    && now.Keys == fields.Keys - {"type", "Type", "$path"} + {w.types[t].identifier.field}
    && forall key :: key in fields && !IsReserved(w, t, key) ==> now[key] == fields[key]
  }

  /**
   After an update the object has its identifier, no key of the store, and the fields given, merged into its own
   or in their place.
  */
  lemma UpdateSets(w: World, files: Files, t: string, id: string, fields: Fields, merge: bool)
    requires w.Valid() && Healthy(w, files) && Update(w, files, t, id, fields, merge).Ok? && t in w.types
    requires var loc := Writable(w, files, t, id).value;
             && Exclusive(w, loc.path) && loc.content.Some? && (loc.content.value.Single? ==> "items" !in fields)
    requires PlainId(w, t)
    ensures var after := Update(w, files, t, id, fields, merge).value.0;
            && Healthy(w, after) && (t, id) in Contents(w, files) && (t, id) in Contents(w, after)
            && var was, now := Contents(w, files)[(t, id)], Contents(w, after)[(t, id)];
            && (if merge then MergedInto(w, t, was, fields, now) else Replaces(w, t, fields, now))
            && w.types[t].identifier.field in now && now[w.types[t].identifier.field] == Str(id)
            && "type" !in now && "Type" !in now && "$path" !in now
  {
    UpdateRefines(w, files, t, id, fields, merge);
    assert PlainId(w, t);
    var was := Contents(w, files)[(t, id)];
    hide Healthy, Contents, Update, Writable, Exclusive;
    UpdatedFields(w, t, id, was, fields, merge);
  }

  lemma UpdatedFields(w: World, t: string, id: string, was: Fields, fields: Fields, merge: bool)
    requires t in w.types && PlainId(w, t)
    ensures var now := Updated(w, t, id, was, fields, merge);
            && (if merge then MergedInto(w, t, was, fields, now) else Replaces(w, t, fields, now))
            && w.types[t].identifier.field in now && now[w.types[t].identifier.field] == Str(id)
            && "type" !in now && "Type" !in now && "$path" !in now
  {
    var now := Updated(w, t, id, was, fields, merge);
    if merge {
      var merged := Merge(was, fields);
      forall path | path != [] && !IsReserved(w, t, path[0]) ensures At(now, path) == At(merged, path) { }
      forall path | path != [] && !IsReserved(w, t, path[0]) && Spares(fields, path)
        ensures At(now, path) == At(was, path)
      {
        MergeSpares(was, fields, path);
      }
      forall path | path != [] && !IsReserved(w, t, path[0]) && At(fields, path).Some?
        ensures if At(fields, path).value.Map? then At(now, path).Some? && At(now, path).value.Map?
                else At(now, path) == At(fields, path)
      {
        if At(fields, path).value.Map? {
          MergeKeepsObjects(was, fields, path);
        } else {
          MergeSets(was, fields, path);
        }
      }
    }
  }

  // ---------- creates ----------

  /**
   After a create the object has the fields given, without the keys of the store, and its identifier as text if
   it is declared as text.
  */
  lemma CreateSets(w: World, files: Files, t: string, fields: Fields)
    requires w.Trees() && Healthy(w, files) && Create(w, files, t, fields).Ok? && t in w.types
    requires var o := Create(w, files, t, fields).value.1;
             && TargetOf(w, t, o.id).Ok? && Exclusive(w, o.file)
             && Read(w, t, o.file) && Receives(files, t, TargetOf(w, t, o.id).value, fields)
    requires PlainId(w, t)
    ensures var (after, o) := Create(w, files, t, fields).value;
            && Healthy(w, after) && (t, o.id) in Contents(w, after)
            && var now, field := Contents(w, after)[(t, o.id)], w.types[t].identifier.field;
            && Replaces(w, t, fields, now) && field in fields && fields[field] in {Str(o.id), Number(o.id)}
                && o.id != ""
            && now[field] == if field in w.types[t].fields && w.types[t].fields[field].typ in {"string", "enum"}
                             then Str(o.id) else fields[field]
  {
    assert w.Valid();
    hide Healthy, Contents, Create, Exclusive, Read, Receives, TargetOf, Created, PlainId, IdOf, Replaces, Stored, Tree,
        FindInTypes, World.Trees, World.Valid;
    var (after, o) := Create(w, files, t, fields).value;
    CreateRefines(w, files, t, fields);
    CreateParts(w, files, t, fields);
    CreatedFields(w, t, o.id, fields);
    Rebinds(Contents(w, after), Contents(w, files), (t, o.id), o.fields);
  }

  lemma Rebinds(after: map<Key, Fields>, before: map<Key, Fields>, k: Key, fields: Fields)
    requires after == before[k := fields]
    ensures k in after && after[k] == fields
  {
  }

  lemma CreatedFields(w: World, t: string, id: string, fields: Fields)
    requires t in w.types && PlainId(w, t) && IdOf(w, t, fields) == Some(id)
    ensures var field := w.types[t].identifier.field;
            && field in fields && fields[field] in {Str(id), Number(id)} && id != ""
            && var now := Created(w, t, id, fields);
            && Replaces(w, t, fields, now)
            && now[field] == if field in w.types[t].fields && w.types[t].fields[field].typ in {"string", "enum"}
                             then Str(id) else fields[field]
  {
    IdExactly(w, t, fields, id);
  }

  /** Exactly which identifier fields give. */
  lemma IdExactly(w: World, t: string, fields: Fields, x: string)
    requires t in w.types
    ensures IdOf(w, t, fields) == Some(x) <==>
              var field := w.types[t].identifier.field;
              field != "" && field in fields && fields[field] in {Str(x), Number(x)} && x != ""
  {
  }

  // ---------- where a new object goes ----------

  /** The pattern with the name in place of each asterisk and each question mark; brackets stay. */
  ghost function Filled(pattern: string, name: string): string {
    if pattern == "" then ""
    else (if pattern[0] == '*' || pattern[0] == '?' then name else [pattern[0]]) + Filled(pattern[1..], name)
  }

  ghost predicate IsWritable(inc: Include) {
    inc.selector == "" && inc.path != ""
  }

  ghost predicate HasWildcard(inc: Include) {
    IsWritable(inc) && ('*' in inc.path || '?' in inc.path || '[' in inc.path)
  }

  /** The i-th include is the first with the property. */
  ghost predicate IsFirst(incs: seq<Include>, i: nat, property: Include -> bool) {
    i < |incs| && property(incs[i]) && forall j :: 0 <= j < i ==> !property(incs[j])
  }

  /**
   The name an identifier gives a file: its letters, digits, dashes, underscores and dots, and dashes for the
   rest.
  */
  lemma NamesExactly(id: string)
    ensures id == "" ==> Sanitize(id) == "object"
    ensures id != "" ==> |Sanitize(id)| == |id|
    ensures forall i :: 0 <= i < |id| ==>
              var c := id[i];
              Sanitize(id)[i] == if 'a' <= c <= 'z' || 'A' <= c <= 'Z' || '0' <= c <= '9' || c in "-_." then c else '-'
  {
  }

  /** Exactly where a new object goes: the first writable pattern with a wildcard, or else the first writable path. */
  lemma TargetExactly(w: World, t: string, id: string, i: nat)
    requires w.Valid() && t in w.types
    ensures var incs, target := w.includes[t], TargetOf(w, t, id);
            && (IsFirst(incs, i, HasWildcard) ==> target == Ok(Target(Filled(incs[i].path, Sanitize(id)), false)))
            && ((forall inc :: inc in incs ==> !HasWildcard(inc)) && IsFirst(incs, i, IsWritable) ==>
                  target == Ok(Target(incs[i].path, true)))
            && ((forall inc :: inc in incs ==> !IsWritable(inc)) ==> target == Err(NoTarget))
  {
    ChosenExactly(w.includes[t], id, None, i);
  }

  lemma {:induction false} ChosenExactly(incs: seq<Include>, id: string, literal: Option<Target>, i: nat)
    ensures var target := ChooseTarget(incs, id, literal);
            && (IsFirst(incs, i, HasWildcard) ==> target == Ok(Target(Filled(incs[i].path, Sanitize(id)), false)))
            && ((forall inc :: inc in incs ==> !HasWildcard(inc)) ==>
                  && (literal.Some? ==> target == Ok(literal.value))
                  && (literal.None? && IsFirst(incs, i, IsWritable) ==> target == Ok(Target(incs[i].path, true)))
                  && (literal.None? && (forall inc :: inc in incs ==> !IsWritable(inc)) ==> target == Err(NoTarget)))
    decreases |incs|
  {
    if incs == [] {
      return;
    }
    FillsWildcards(incs[0].path, id);
    hide Sanitize, ReplaceGlob, Filled;
    assert forall inc :: inc in incs[1..] ==> inc in incs;
    assert forall j :: 0 <= j < |incs| - 1 ==> incs[1..][j] == incs[j + 1];
    var next := if IsWritable(incs[0]) && literal.None? then Some(Target(incs[0].path, true)) else literal;
    if !HasWildcard(incs[0]) {
      ChosenExactly(incs[1..], id, next, if i == 0 then 0 else i - 1);
    }
  }

  lemma FillsWildcards(pattern: string, id: string)
    ensures ReplaceGlob(pattern, Sanitize(id)) == Filled(pattern, Sanitize(id))
  {
    NamesExactly(id);
    assert '?' !in Sanitize(id);
    hide Sanitize;
    Fills(pattern, Sanitize(id));
  }

  /** Replacing asterisks and then question marks is replacing both at once, as the name holds neither. */
  lemma {:induction false} Fills(pattern: string, name: string)
    requires '?' !in name
    ensures ReplaceGlob(pattern, name) == Filled(pattern, name)
  {
    if pattern != "" {
      Fills(pattern[1..], name);
      var first := if pattern[0] == '*' then name else [pattern[0]];
      ReplaceBoth(first, Replace(pattern[1..], '*', name), '?', name);
      if pattern[0] == '*' { NothingToReplace(name, '?', name); } else { OneReplaced(pattern[0], '?', name); }
    }
  }

  lemma {:induction false} ReplaceBoth(a: string, b: string, c: char, value: string)
    ensures Replace(a + b, c, value) == Replace(a, c, value) + Replace(b, c, value)
  {
    if a == "" {
      assert a + b == b;
    } else {
      ReplaceBoth(a[1..], b, c, value);
      assert (a + b)[1..] == a[1..] + b;
    }
  }

  lemma {:induction false} NothingToReplace(text: string, c: char, value: string)
    requires c !in text
    ensures Replace(text, c, value) == text
  {
    if text != "" { NothingToReplace(text[1..], c, value); }
  }

  lemma OneReplaced(d: char, c: char, value: string)
    ensures Replace([d], c, value) == if d == c then value else [d]
  {
    assert [d][1..] == "";
  }

  // ---------- what is refused ----------

  /** Exactly what an update and a delete answer when they do not find an object they may write. */
  lemma WritableExactly(w: World, files: Files, t: string, id: string)
    requires w.Valid() && Healthy(w, files) && t in w.types
    ensures HealthyType(w, files, t) && LoadExact(w, files, t).Ok?
    ensures var first, r := FirstWith(LoadExact(w, files, t).value, id), Writable(w, files, t, id);
            && (first.None? <==> r == Err(NotFound))
            && (first.Some? && first.value.inlined <==> r == Err(Inlined))
            && (first.Some? && !first.value.inlined && first.value.readOnly <==> r == Err(ReadOnlyFile))
            && (first.Some? && !first.value.inlined && !first.value.readOnly <==> r.Ok?)
  {
    assert HealthyType(w, files, t);
    hide Healthy, HealthyType, LoadExact, FindInType, FirstWith, StoreRefinement.Lookup;
    HealthyLoadsExact(w, files, t, id);
    FindInTypeAgrees(w, files, t, id);
    WritableAnswers(w, files, t, id);
    hide Writable;
    if FindInType(w, files, t, id).value.Some? { FindFlags(w, files, t, id); }
  }

  lemma WritableAnswers(w: World, files: Files, t: string, id: string)
    requires w.Valid() && t in w.types && FindInType(w, files, t, id).Ok?
    ensures var found := FindInType(w, files, t, id).value;
            Writable(w, files, t, id) ==
            if found.None? then Err(NotFound)
            else if found.value.content.None? then Err(Inlined)
            else if found.value.content.value.readOnly then Err(ReadOnlyFile)
            else Ok(found.value)
  {
    hide FindInType;
    assert FindInTypes(w, files, [t], None, id) == FindInType(w, files, t, id) by { assert [t][1..] == []; }
  }

  /** What an update and a delete refuse is what cannot be written. */
  lemma RefusalsAreShared(w: World, files: Files, t: string, id: string, fields: Fields, merge: bool)
    requires w.Valid()
    ensures t !in w.types ==> Writable(w, files, t, id) == Err(UnknownType)
    ensures var r, u, d := Writable(w, files, t, id), Update(w, files, t, id, fields, merge), Delete(w, files, t, id);
            if r.Ok? then u.Ok? && d.Ok? else u.Err? && d.Err? && u.error == d.error == r.error
  {
    hide FindInTypes, Updated, Rewritten, Removed;
  }

  /** Exactly what a get answers. */
  lemma GetExactly(w: World, files: Files, t: string, id: string)
    requires w.Trees() && Healthy(w, files)
    ensures id == "" ==> Get(w, files, t, id) == Err(MissingId)
    ensures id != "" && t !in w.types ==> Get(w, files, t, id) == Err(UnknownType)
    ensures id != "" && t in w.types ==>
              if exists u :: Inheritance.InheritsFrom(w.types, u, t) && (u, id) in Contents(w, files)
              then Get(w, files, t, id).Ok? else Get(w, files, t, id) == Err(NotFound)
  {
    hide Healthy, Contents;
    if id != "" && t in w.types {
      GetRefines(w, files, t, id);
      Inheritance.AssignableNames(w.types, t);
      AssignableIsOneTree(w, t);
      hide KnownIn, OneTree, FindInTypes;
      FindInTree(w, files, Inheritance.Assignable(w.types, t), id);
    }
  }

  /** Exactly what a create answers before it looks at its target. */
  lemma CreateRefuses(w: World, files: Files, t: string, fields: Fields)
    requires w.Trees() && Healthy(w, files)
    ensures t !in w.types ==> Create(w, files, t, fields) == Err(UnknownType)
    ensures t in w.types && IdOf(w, t, fields) == None ==> Create(w, files, t, fields) == Err(MissingId)
    ensures t in w.types && IdOf(w, t, fields).Some? ==>
              var id := IdOf(w, t, fields).value;
              if exists u :: u in w.types && Inheritance.Root(w.types, u) == Inheritance.Root(w.types, t)
                             && (u, id) in Contents(w, files)
              then Create(w, files, t, fields) == Err(AlreadyExists)
              else if TargetOf(w, t, id).Err? then Create(w, files, t, fields) == Err(NoTarget)
              else Create(w, files, t, fields).Err? ==>
                     Create(w, files, t, fields).error in {BadFile, TypeMismatch, NotObject}
  {
    if t in w.types && IdOf(w, t, fields).Some? {
      var id := IdOf(w, t, fields).value;
      hide Healthy, OneTree, Contents, Known, ChooseTarget, Stored, Created, Tree, IdOf, KnownIn;
      TreeIsOneTree(w, t);
      FindInTree(w, files, Tree(w, t), id);
      TreeBindings(w, files, t, id);
      NoOtherTarget(w.includes[t], id, None);
      if TargetOf(w, t, id).Ok? { StoredRefuses(w, files, t, TargetOf(w, t, id).value, Created(w, t, id, fields)); }
    }
  }

  lemma {:induction false} NoOtherTarget(incs: seq<Include>, id: string, literal: Option<Target>)
    ensures ChooseTarget(incs, id, literal).Err? ==> ChooseTarget(incs, id, literal) == Err(NoTarget)
  {
    hide Sanitize, ReplaceGlob;
    if incs != [] {
      NoOtherTarget(incs[1..], id, literal);
      NoOtherTarget(incs[1..], id, if literal.Some? then literal else Some(Target(incs[0].path, true)));
    }
  }

  lemma StoredRefuses(w: World, files: Files, t: string, target: Target, item: Fields)
    ensures Stored(w, files, t, target, item).Err? ==>
              Stored(w, files, t, target, item).error in {BadFile, TypeMismatch, NotObject}
  {
    hide AsFields, Encode;
  }

  // ---------- deletes ----------

  /** A file with other objects is kept without the one deleted, and a file without others goes. */
  lemma DeleteTakesFile(w: World, files: Files, t: string, id: string)
    requires w.Valid() && Delete(w, files, t, id).Ok?
    ensures Writable(w, files, t, id).Ok?
    ensures var after, loc := Delete(w, files, t, id).value, Writable(w, files, t, id).value;
            && loc.path in files && loc.content.Some?
            && (loc.path in after <==> |Objects(loc.content.value)| > 1)
            && forall p :: p != loc.path ==> (p in after <==> p in files) && (p in after ==> after[p] == files[p])
  {
    WritableAt(w, files, t, id);
    hide Writable, Encode;
  }

  // ---------- what is written to a file ----------

  /**
   A file with a list holds the type and the items, a file with one object the object, with its type if it is
   named.
  */
  lemma WritesExactly(t: string, items: seq<Fields>, fields: Fields, readOnly: bool)
    ensures Encode(Multi(t, items, readOnly)) == Document(map["type" := Str(t), "items" := List(AsValues(items))])
    ensures var file := Encode(Single(t, fields, readOnly));
            && file.Document? && file.doc.Keys == fields.Keys + {"type"}
            && (forall k :: k in fields ==> file.doc[k] == fields[k])
                && ("type" !in fields ==> file.doc["type"] == Str(t))
  {
  }

  /** A new object is written alone to a file of its own, and behind the others to a file with a list. */
  lemma CreateWritesExactly(w: World, files: Files, t: string, target: Target, item: Fields)
    ensures !target.multi && target.path !in files ==>
              Stored(w, files, t, target, item) == Ok(files[target.path := Document(item)])
    ensures target.multi && target.path !in files ==>
              Stored(w, files, t, target, item)
              == Ok(files[target.path := Document(map["type" := Str(t), "items" := List([Map(item)])])])
    ensures forall items :: target.multi && target.path in files
                            && files[target.path] == Document(map["type" := Str(t), "items" := List(AsValues(items))])
                                && t != "" ==>
              Stored(w, files, t, target, item)
              == Ok(files[target.path := Document(map["type" := Str(t), "items" := List(AsValues(items + [item]))])])
  {
    assert AsValues([item]) == [Map(item)];
    forall items | target.multi && target.path in files
                   && files[target.path] == Document(map["type" := Str(t), "items" := List(AsValues(items))]) && t != ""
      ensures Stored(w, files, t, target, item)
              == Ok(files[target.path := Document(map["type" := Str(t), "items" := List(AsValues(items + [item]))])])
    {
      EncodeDecode(Multi(t, items, false));
      hide Decode;
      assert LoadFile(w, files, target.path, t, "") == Ok(Multi(t, items, false));
    }
  }
}
