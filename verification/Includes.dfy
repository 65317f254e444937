/**
 Loading a configuration that is spread over files by includes: a recursion with a cache of
 finished files and a set of files in progress (internal/config/load.go).

 The reference point is the include tree: a chain is a list of choices, each picking one of
 the includes of the file reached so far, so that the same file can be reached by several chains.
*/
module Includes {
  import opened Text

  type Path = string

  const CURRENT_VERSION := 1

  datatype Version = NoBlock | NoVersion | Version(number: int)

  /** What an include pattern matches, in sorted order. */
  datatype Pattern = Malformed | Matches(paths: seq<Path>)

  datatype Doc = Doc(patterns: seq<Pattern>, version: Version, entities: map<string, Spec>)

  /** The body of an entity declaration, which loading does not look into. */
  datatype Spec = Spec(text: string)

  datatype File = Unparsable | Parsed(doc: Doc)

  type Files = map<Path, File>

  datatype Entity = Entity(spec: Spec, source: Path)

  datatype Error =
    | Unreadable(path: Path)
    | BadSyntax(path: Path)
    | BadPattern(path: Path)
    | NoMatch(path: Path)
    | IncludeCycle(path: Path)
    | VersionRequired(path: Path)
    | VersionMismatch(path: Path)
    | UnnamedEntity(path: Path)
    | DuplicateEntity(name: string)

  // ---------- the include tree ----------

  function AllMatches(patterns: seq<Pattern>): seq<Path> {
    if patterns == [] then []
    else (if patterns[0].Matches? then patterns[0].paths else []) + AllMatches(patterns[1..])
  }

  /** The files a file includes, in the order they are loaded. */
  function Children(fs: Files, p: Path): seq<Path> {
    if p in fs && fs[p].Parsed? then AllMatches(fs[p].doc.patterns) else []
  }

  /** The file at the end of a chain of choices, if the chain exists. */
  ghost function Follow(fs: Files, p: Path, c: seq<nat>): Option<Path>
    decreases |c|
  {
    if c == [] then Some(p)
    else if c[0] < |Children(fs, p)| then Follow(fs, Children(fs, p)[c[0]], c[1..])
    else None
  }

  function EntitiesOf(fs: Files, p: Path): map<string, Spec> {
    if p in fs && fs[p].Parsed? then fs[p].doc.entities else map[]
  }

  predicate PatternsOk(patterns: seq<Pattern>) {
    forall i :: 0 <= i < |patterns| ==> patterns[i].Matches? && patterns[i].paths != []
  }

  predicate BodyOk(doc: Doc) {
    doc.version == Version(CURRENT_VERSION) && "" !in doc.entities
  }

  predicate DocOk(fs: Files, p: Path) {
    p in fs && fs[p].Parsed? && PatternsOk(fs[p].doc.patterns) && BodyOk(fs[p].doc)
  }

  ghost predicate EveryFileOk(fs: Files, p: Path) {
    forall c :: Follow(fs, p, c).Some? ==> DocOk(fs, Follow(fs, p, c).value)
  }

  /** No file reachable from p is reachable from itself. */
  ghost predicate NoCycle(fs: Files, p: Path) {
    forall c, d :: d != [] && Follow(fs, p, c).Some? ==> Follow(fs, Follow(fs, p, c).value, d) != Follow(fs, p, c)
  }

  /**
   No two chains lead to declarations of the same name; in particular an entity-bearing file is reached by one
   chain.
  */
  ghost predicate NamesApart(fs: Files, p: Path) {
    forall c, d :: c != d && Follow(fs, p, c).Some? && Follow(fs, p, d).Some? ==> Apart(fs, p, c, d)
  }

  ghost predicate Apart(fs: Files, p: Path, c: seq<nat>, d: seq<nat>)
    requires Follow(fs, p, c).Some? && Follow(fs, p, d).Some?
  {
    forall n :: n in EntitiesOf(fs, Follow(fs, p, c).value) ==> n !in EntitiesOf(fs, Follow(fs, p, d).value)
  }

  ghost predicate Loadable(fs: Files, p: Path) {
    EveryFileOk(fs, p) && NoCycle(fs, p) && NamesApart(fs, p)
  }

  /** A finished aggregate. */
  datatype Loaded = Loaded(version: Option<int>, entities: map<string, Entity>)

  /** The aggregate of p holds exactly the entities declared along the chains from p, each with its file. */
  ghost predicate Gathers(fs: Files, p: Path, a: Loaded) {
    && a.version == Some(CURRENT_VERSION)
    && (forall n :: n in a.entities ==> exists c :: Declares(fs, p, c, n))
    && (forall c, n :: Declares(fs, p, c, n) ==>
          n in a.entities && a.entities[n] == Entity(EntitiesOf(fs, Follow(fs, p, c).value)[n], Follow(fs, p, c).value))
  }

  ghost predicate Declares(fs: Files, p: Path, c: seq<nat>, n: string) {
    Follow(fs, p, c).Some? && n in EntitiesOf(fs, Follow(fs, p, c).value)
  }

  // ---------- how a file's tree is made of its children's ----------

  lemma FollowStep(fs: Files, p: Path, k: nat, c: seq<nat>)
    requires k < |Children(fs, p)|
    ensures Follow(fs, p, [k] + c) == Follow(fs, Children(fs, p)[k], c)
  {
    assert ([k] + c)[1..] == c;
  }

  lemma {:induction false} FollowConcat(fs: Files, p: Path, c: seq<nat>, d: seq<nat>)
    requires Follow(fs, p, c).Some?
    ensures Follow(fs, p, c + d) == Follow(fs, Follow(fs, p, c).value, d)
    decreases |c|
  {
    if c == [] {
      assert c + d == d;
    } else {
      assert (c + d)[1..] == c[1..] + d;
      FollowConcat(fs, Children(fs, p)[c[0]], c[1..], d);
    }
  }

  /** What loads from a file loads from each file it includes. */
  lemma ChildIsLoadable(fs: Files, p: Path, k: nat)
    requires Loadable(fs, p) && k < |Children(fs, p)|
    ensures Loadable(fs, Children(fs, p)[k])
  {
    var q := Children(fs, p)[k];
    forall c | Follow(fs, q, c).Some? ensures DocOk(fs, Follow(fs, q, c).value) {
      FollowStep(fs, p, k, c);
    }
    forall c, d | d != [] && Follow(fs, q, c).Some? ensures Follow(fs, Follow(fs, q, c).value, d) != Follow(fs, q, c) {
      FollowStep(fs, p, k, c);
    }
    forall c, d | c != d && Follow(fs, q, c).Some? && Follow(fs, q, d).Some? ensures Apart(fs, q, c, d) {
      FollowStep(fs, p, k, c);
      FollowStep(fs, p, k, d);
      assert ([k] + c)[1..] == c && ([k] + d)[1..] == d;
      assert Apart(fs, p, [k] + c, [k] + d);
    }
  }

  /** Two included files that declare the same name keep the including file from loading. */
  lemma ChildrenClash(fs: Files, p: Path, i: nat, j: nat, c: seq<nat>, d: seq<nat>, n: string)
    requires i < |Children(fs, p)| && j < |Children(fs, p)| && i != j
    requires Declares(fs, Children(fs, p)[i], c, n) && Declares(fs, Children(fs, p)[j], d, n)
    ensures !Loadable(fs, p) && Twice(fs, p, n)
  {
    FollowStep(fs, p, i, c);
    FollowStep(fs, p, j, d);
    assert ([i] + c)[0] != ([j] + d)[0];
    assert !Apart(fs, p, [i] + c, [j] + d);
    assert Declares(fs, p, [i] + c, n) && Declares(fs, p, [j] + d, n);
  }

  lemma OwnClash(fs: Files, p: Path, i: nat, c: seq<nat>, n: string)
    requires i < |Children(fs, p)| && Declares(fs, Children(fs, p)[i], c, n) && n in EntitiesOf(fs, p)
    ensures !Loadable(fs, p) && Twice(fs, p, n)
  {
    FollowStep(fs, p, i, c);
    assert [i] + c != [] && Follow(fs, p, []) == Some(p);
    assert !Apart(fs, p, [i] + c, []);
    assert Declares(fs, p, [i] + c, n) && Declares(fs, p, [], n);
  }

  lemma OwnFileMustBeOk(fs: Files, p: Path)
    requires Loadable(fs, p)
    ensures DocOk(fs, p)
  {
    assert Follow(fs, p, []) == Some(p);
  }

  // ---------- finished files ----------

  /** Every finished file is loadable, has its aggregate, and has its includes finished too. */
  ghost predicate Finished(fs: Files, cache: map<Path, Loaded>) {
    forall p :: p in cache ==> FinishedFile(fs, cache, p)
  }

  ghost predicate FinishedFile(fs: Files, cache: map<Path, Loaded>, p: Path)
    requires p in cache
  {
    Loadable(fs, p) && Gathers(fs, p, cache[p])
        && forall k :: 0 <= k < |Children(fs, p)| ==> Children(fs, p)[k] in cache
  }

  lemma {:induction false} FinishedIsClosed(fs: Files, cache: map<Path, Loaded>, p: Path, c: seq<nat>)
    requires Finished(fs, cache) && p in cache && Follow(fs, p, c).Some?
    ensures Follow(fs, p, c).value in cache
    decreases |c|
  {
    if c != [] {
      assert FinishedFile(fs, cache, p);
      FinishedIsClosed(fs, cache, Children(fs, p)[c[0]], c[1..]);
    }
  }

  /** When all includes are finished, the file itself is not, and names do not clash, the file is loadable. */
  lemma AllIncludesFinished(fs: Files, cache: map<Path, Loaded>, p: Path)
    requires Finished(fs, cache) && p !in cache && DocOk(fs, p)
    requires forall k :: 0 <= k < |Children(fs, p)| ==> Children(fs, p)[k] in cache
    requires ChildrenApart(fs, cache, p, |Children(fs, p)|)
    requires forall k, n :: 0 <= k < |Children(fs, p)| && n in cache[Children(fs, p)[k]].entities ==>
             n !in EntitiesOf(fs, p)
    ensures Loadable(fs, p)
  {
    forall c | Follow(fs, p, c).Some? ensures DocOk(fs, Follow(fs, p, c).value) {
      if c != [] { assert FinishedFile(fs, cache, Children(fs, p)[c[0]]); }
    }
    forall c, d | d != [] && Follow(fs, p, c).Some? ensures Follow(fs, Follow(fs, p, c).value, d) != Follow(fs, p, c) {
      if c != [] {
        assert FinishedFile(fs, cache, Children(fs, p)[c[0]]);
      } else if Follow(fs, p, d).Some? {
        FinishedIsClosed(fs, cache, Children(fs, p)[d[0]], d[1..]);
      }
    }
    forall c, d | c != d && Follow(fs, p, c).Some? && Follow(fs, p, d).Some? ensures Apart(fs, p, c, d) {
      ChainsApart(fs, cache, p, c, d);
    }
  }

  /** The first m includes declare different names. */
  ghost predicate ChildrenApart(fs: Files, cache: map<Path, Loaded>, p: Path, m: nat)
    requires m <= |Children(fs, p)| && forall k :: 0 <= k < m ==> Children(fs, p)[k] in cache
  {
    forall i, j, n :: 0 <= i < j < m && n in cache[Children(fs, p)[i]].entities ==>
        n !in cache[Children(fs, p)[j]].entities
  }

  lemma ChainsApart(fs: Files, cache: map<Path, Loaded>, p: Path, c: seq<nat>, d: seq<nat>)
    requires Finished(fs, cache)
    requires forall k :: 0 <= k < |Children(fs, p)| ==> Children(fs, p)[k] in cache
    requires ChildrenApart(fs, cache, p, |Children(fs, p)|)
    requires forall k, n :: 0 <= k < |Children(fs, p)| && n in cache[Children(fs, p)[k]].entities ==>
             n !in EntitiesOf(fs, p)
    requires c != d && Follow(fs, p, c).Some? && Follow(fs, p, d).Some?
    ensures Apart(fs, p, c, d)
  {
    var kids := Children(fs, p);
    if c != [] { assert FinishedFile(fs, cache, kids[c[0]]) && c == [c[0]] + c[1..]; }
    if d != [] { assert FinishedFile(fs, cache, kids[d[0]]) && d == [d[0]] + d[1..]; }
    if c != [] && d != [] && c[0] == d[0] {
      assert Apart(fs, kids[c[0]], c[1..], d[1..]);
    } else {
      forall n | n in EntitiesOf(fs, Follow(fs, p, c).value) ensures n !in EntitiesOf(fs, Follow(fs, p, d).value) {
        if c != [] { assert Declares(fs, kids[c[0]], c[1..], n); }
        if n in EntitiesOf(fs, Follow(fs, p, d).value) && d != [] { assert Declares(fs, kids[d[0]], d[1..], n); }
      }
    }
  }

  // ---------- what an error says ----------

  ghost predicate Reaches(fs: Files, p: Path, q: Path) {
    exists c :: Follow(fs, p, c) == Some(q)
  }

  /** Two chains from p lead to declarations of the name. */
  ghost predicate Twice(fs: Files, p: Path, n: string) {
    exists c, d :: c != d && Declares(fs, p, c, n) && Declares(fs, p, d, n)
  }

  /** The file an error names is reached from p and has that fault. */
  ghost predicate Blames(fs: Files, p: Path, e: Error) {
    match e
    case Unreadable(q) => Reaches(fs, p, q) && q !in fs
    case BadSyntax(q) => Reaches(fs, p, q) && q in fs && fs[q].Unparsable?
    case BadPattern(q) => Reaches(fs, p, q) && q in fs && fs[q].Parsed? && Malformed in fs[q].doc.patterns
    case NoMatch(q) => Reaches(fs, p, q) && q in fs && fs[q].Parsed? && Matches([]) in fs[q].doc.patterns
    case IncludeCycle(q) => Reaches(fs, p, q) && LeadsTo(fs, q, q)
    case VersionRequired(q) => Reaches(fs, p, q) && q in fs && fs[q].Parsed? && fs[q].doc.version != Version(1)
    case VersionMismatch(_) => false
    case UnnamedEntity(q) => Reaches(fs, p, q) && q in fs && fs[q].Parsed? && "" in fs[q].doc.entities
    case DuplicateEntity(n) => Twice(fs, p, n)
  }

  lemma BlamesItself(fs: Files, p: Path, e: Error)
    requires match e
             case Unreadable(q) => q == p && p !in fs
             case BadSyntax(q) => q == p && p in fs && fs[p].Unparsable?
             case BadPattern(q) => q == p && p in fs && fs[p].Parsed? && Malformed in fs[p].doc.patterns
             case NoMatch(q) => q == p && p in fs && fs[p].Parsed? && Matches([]) in fs[p].doc.patterns
             case IncludeCycle(q) => q == p && LeadsTo(fs, p, p)
             case VersionRequired(q) => q == p && p in fs && fs[p].Parsed? && fs[p].doc.version != Version(1)
             case VersionMismatch(_) => false
             case UnnamedEntity(q) => q == p && p in fs && fs[p].Parsed? && "" in fs[p].doc.entities
             case DuplicateEntity(n) => false
    ensures Blames(fs, p, e)
  {
    assert Follow(fs, p, []) == Some(p);
  }

  lemma BlamesAbove(fs: Files, p: Path, k: nat, e: Error)
    requires k < |Children(fs, p)| && Blames(fs, Children(fs, p)[k], e)
    ensures Blames(fs, p, e)
  {
    var child := Children(fs, p)[k];
    forall q | Reaches(fs, child, q) ensures Reaches(fs, p, q) {
      var c :| Follow(fs, child, c) == Some(q);
      FollowStep(fs, p, k, c);
    }
    if e.DuplicateEntity? {
      var c, d :| c != d && Declares(fs, child, c, e.name) && Declares(fs, child, d, e.name);
      FollowStep(fs, p, k, c);
      FollowStep(fs, p, k, d);
      assert ([k] + c)[1..] == c && ([k] + d)[1..] == d;
      assert Declares(fs, p, [k] + c, e.name) && Declares(fs, p, [k] + d, e.name);
    }
  }

  // ---------- the aggregate under construction ----------

  class Aggregate {
    var version: Option<int>
    var entities: map<string, Entity>

    constructor ()
      ensures version == None && entities == map[]
    {
      version, entities := None, map[];
    }

    /** Take over another aggregate; a version that differs or a name already present is an error. */
    method Merge(other: Loaded, path: Path) returns (err: Option<Error>)
      modifies this
      ensures err.None? <==>
                CompatibleVersions(old(version), other.version) && old(entities).Keys !! other.entities.Keys
      ensures err.None? ==> version == (if other.version.Some? then other.version else old(version))
      ensures err.None? ==> entities == old(entities) + other.entities
      ensures err == Some(VersionMismatch(path)) <==> !CompatibleVersions(old(version), other.version)
      ensures CompatibleVersions(old(version), other.version) && err.Some? ==>
                err.value.DuplicateEntity? && err.value.name in old(entities) && err.value.name in other.entities
    {
      if other.version.Some? {
        if version.Some? {
          if version.value != other.version.value {
            return Some(VersionMismatch(path));
          }
        } else {
          version := other.version;
        }
      }
      var todo := other.entities.Keys;
      while todo != {}
        invariant todo <= other.entities.Keys
        invariant version == (if other.version.Some? then other.version else old(version))
        invariant old(entities).Keys !! other.entities.Keys - todo
        invariant entities == old(entities) + map n | n in other.entities && n !in todo :: other.entities[n]
      {
        var name :| name in todo;
        if name in entities {
          assert name in old(entities);
          return Some(DuplicateEntity(name));
        }
        entities := entities[name := other.entities[name]];
        todo := todo - {name};
      }
      return None;
    }

    /** Take over the entities a file declares itself. */
    method AddDocument(doc: Doc, source: Path) returns (err: Option<Error>)
      modifies this
      ensures err.None? <==>
              BodyOk(doc) && CompatibleVersions(old(version), Some(CURRENT_VERSION))
                  && old(entities).Keys !! doc.entities.Keys
      ensures err.None? ==> version == Some(CURRENT_VERSION)
      ensures err.None? ==> entities == old(entities) + map n | n in doc.entities :: Entity(doc.entities[n], source)
      ensures err == Some(VersionRequired(source)) <==> doc.version != Version(CURRENT_VERSION)
      ensures err == Some(VersionMismatch(source)) <==>
                doc.version == Version(CURRENT_VERSION) && !CompatibleVersions(old(version), Some(CURRENT_VERSION))
      ensures err == Some(UnnamedEntity(source)) ==> "" in doc.entities
      ensures err.Some? ==>
                || err.value in {VersionRequired(source), VersionMismatch(source), UnnamedEntity(source)}
                || (err.value.DuplicateEntity? && err.value.name in old(entities) && err.value.name in doc.entities)
    {
      if !doc.version.Version? || doc.version.number != CURRENT_VERSION {
        return Some(VersionRequired(source));
      }
      if version.Some? {
        if version.value != doc.version.number {
          return Some(VersionMismatch(source));
        }
      } else {
        version := Some(doc.version.number);
      }
      var todo := doc.entities.Keys;
      while todo != {}
        invariant todo <= doc.entities.Keys && version == Some(CURRENT_VERSION)
        invariant "" !in doc.entities.Keys - todo && old(entities).Keys !! doc.entities.Keys - todo
        invariant entities == old(entities) + map n | n in doc.entities && n !in todo :: Entity(doc.entities[n], source)
      {
        var name :| name in todo;
        if name == "" {
          return Some(UnnamedEntity(source));
        }
        if name in entities {
          assert name in old(entities);
          return Some(DuplicateEntity(name));
        }
        entities := entities[name := Entity(doc.entities[name], source)];
        todo := todo - {name};
      }
      return None;
    }
  }

  predicate CompatibleVersions(a: Option<int>, b: Option<int>) {
    a.Some? && b.Some? ==> a == b
  }

  // ---------- the loader ----------

  /** The aggregate holds the entities of the first k includes of p. */
  ghost predicate MergedUpTo(fs: Files, cache: map<Path, Loaded>, p: Path, k: nat, version: Option<int>,
                             entities: map<string, Entity>) {
    && k <= |Children(fs, p)|
    && (forall m :: 0 <= m < k ==> Children(fs, p)[m] in cache)
    && ChildrenApart(fs, cache, p, k)
    && (version.Some? ==> version == Some(CURRENT_VERSION))
    && (forall n :: n in entities ==> exists m :: 0 <= m < k && n in cache[Children(fs, p)[m]].entities)
    && (forall m, n :: 0 <= m < k && n in cache[Children(fs, p)[m]].entities ==>
          n in entities && entities[n] == cache[Children(fs, p)[m]].entities[n])
  }

  ghost predicate Grows(a: map<Path, Loaded>, b: map<Path, Loaded>) {
    forall p :: p in a ==> p in b && b[p] == a[p]
  }

  lemma MergedSurvives(fs: Files, a: map<Path, Loaded>, b: map<Path, Loaded>, p: Path, k: nat, version: Option<int>,
                       entities: map<string, Entity>)
    requires MergedUpTo(fs, a, p, k, version, entities) && Grows(a, b)
    ensures MergedUpTo(fs, b, p, k, version, entities)
  {
    forall i, j, n | 0 <= i < j < k && n in b[Children(fs, p)[i]].entities
      ensures n !in b[Children(fs, p)[j]].entities {
      assert n in a[Children(fs, p)[i]].entities;
    }
    forall n | n in entities ensures exists m :: 0 <= m < k && n in b[Children(fs, p)[m]].entities {
      var m :| 0 <= m < k && n in a[Children(fs, p)[m]].entities;
      assert n in b[Children(fs, p)[m]].entities;
    }
  }

  lemma MergedOneMore(fs: Files, cache: map<Path, Loaded>, p: Path, k: nat,
                      version: Option<int>, entities: map<string, Entity>, child: Loaded)
    requires MergedUpTo(fs, cache, p, k, version, entities) && k < |Children(fs, p)|
    requires Children(fs, p)[k] in cache && cache[Children(fs, p)[k]] == child
    requires entities.Keys !! child.entities.Keys
    ensures MergedUpTo(fs, cache, p, k + 1, Some(CURRENT_VERSION), entities + child.entities)
  {
    var kids := Children(fs, p);
    forall i, j, n | 0 <= i < j < k + 1 && n in cache[kids[i]].entities ensures n !in cache[kids[j]].entities {
      assert n in entities || i == k;
    }
    forall n | n in entities + child.entities ensures exists m :: 0 <= m < k + 1 && n in cache[kids[m]].entities {
      if n in child.entities {
        assert n in cache[kids[k]].entities;
      } else {
        var m :| 0 <= m < k && n in cache[kids[m]].entities;
        assert n in cache[kids[m]].entities;
      }
    }
  }

  /** A name met twice among the includes of p. */
  lemma ClashAmongChildren(fs: Files, cache: map<Path, Loaded>, p: Path, k: nat, version: Option<int>,
                           entities: map<string, Entity>, n: string)
    requires Finished(fs, cache) && MergedUpTo(fs, cache, p, k, version, entities) && k < |Children(fs, p)|
    requires Children(fs, p)[k] in cache && n in cache[Children(fs, p)[k]].entities && n in entities
    ensures !Loadable(fs, p) && Blames(fs, p, DuplicateEntity(n))
  {
    var kids := Children(fs, p);
    var m :| 0 <= m < k && n in cache[kids[m]].entities;
    assert FinishedFile(fs, cache, kids[m]) && FinishedFile(fs, cache, kids[k]);
    var c :| Declares(fs, kids[m], c, n);
    var d :| Declares(fs, kids[k], d, n);
    ChildrenClash(fs, p, m, k, c, d, n);
  }

  lemma ClashWithOwn(fs: Files, cache: map<Path, Loaded>, p: Path, version: Option<int>,
                     entities: map<string, Entity>, n: string)
    requires Finished(fs, cache) && MergedUpTo(fs, cache, p, |Children(fs, p)|, version, entities)
    requires n in entities && n in EntitiesOf(fs, p)
    ensures !Loadable(fs, p) && Blames(fs, p, DuplicateEntity(n))
  {
    var kids := Children(fs, p);
    var m :| 0 <= m < |kids| && n in cache[kids[m]].entities;
    assert FinishedFile(fs, cache, kids[m]);
    var c :| Declares(fs, kids[m], c, n);
    OwnClash(fs, p, m, c, n);
  }

  /** With all includes merged and the file's own entities added, the aggregate is complete. */
  lemma AggregateIsComplete(fs: Files, cache: map<Path, Loaded>, p: Path, version: Option<int>,
                            entities: map<string, Entity>)
    requires Finished(fs, cache) && MergedUpTo(fs, cache, p, |Children(fs, p)|, version, entities)
    requires entities.Keys !! EntitiesOf(fs, p).Keys
    ensures Gathers(fs, p, Loaded(Some(CURRENT_VERSION),
                                  entities + map n | n in EntitiesOf(fs, p) :: Entity(EntitiesOf(fs, p)[n], p)))
  {
    var all := Joined(fs, p, entities);
    forall n | n in all ensures exists c :: Declares(fs, p, c, n) {
      SomeChainDeclares(fs, cache, p, version, entities, n);
    }
    forall c, n | Declares(fs, p, c, n)
      ensures n in all && all[n] == Entity(EntitiesOf(fs, Follow(fs, p, c).value)[n], Follow(fs, p, c).value)
    {
      DeclaredIsJoined(fs, cache, p, version, entities, c, n);
    }
  }

  function Joined(fs: Files, p: Path, entities: map<string, Entity>): map<string, Entity> {
    entities + map n | n in EntitiesOf(fs, p) :: Entity(EntitiesOf(fs, p)[n], p)
  }

  lemma SomeChainDeclares(fs: Files, cache: map<Path, Loaded>, p: Path, version: Option<int>,
                          entities: map<string, Entity>, n: string)
    requires Finished(fs, cache) && MergedUpTo(fs, cache, p, |Children(fs, p)|, version, entities)
             && n in Joined(fs, p, entities)
    ensures exists c :: Declares(fs, p, c, n)
  {
    hide MergedUpTo, Finished;
    if n in EntitiesOf(fs, p) {
      assert Declares(fs, p, [], n);
    } else {
      NameHasChain(fs, cache, p, version, entities, n);
    }
  }

  lemma DeclaredIsJoined(fs: Files, cache: map<Path, Loaded>, p: Path, version: Option<int>,
                         entities: map<string, Entity>,
                         c: seq<nat>, n: string)
    requires Finished(fs, cache) && MergedUpTo(fs, cache, p, |Children(fs, p)|, version, entities)
    requires entities.Keys !! EntitiesOf(fs, p).Keys && Declares(fs, p, c, n)
    ensures var all := Joined(fs, p, entities);
            n in all && all[n] == Entity(EntitiesOf(fs, Follow(fs, p, c).value)[n], Follow(fs, p, c).value)
  {
    hide EntitiesOf, Children, Finished;
    if c != [] {
      DeclaredBelow(fs, cache, p, version, entities, c, n);
    }
  }

  lemma DeclaredBelow(fs: Files, cache: map<Path, Loaded>, p: Path, version: Option<int>, entities: map<string, Entity>,
                      c: seq<nat>, n: string)
    requires Finished(fs, cache) && MergedUpTo(fs, cache, p, |Children(fs, p)|, version, entities)
    requires Declares(fs, p, c, n) && c != []
    ensures n in entities && entities[n] == Entity(EntitiesOf(fs, Follow(fs, p, c).value)[n], Follow(fs, p, c).value)
  {
    hide EntitiesOf, Children, Loadable, ChildrenApart;
    var child := Children(fs, p)[c[0]];
    assert Follow(fs, p, c) == Follow(fs, child, c[1..]);
    assert FinishedFile(fs, cache, child) && Declares(fs, child, c[1..], n);
    assert n in cache[child].entities;
  }

  lemma NameHasChain(fs: Files, cache: map<Path, Loaded>, p: Path, version: Option<int>,
                     entities: map<string, Entity>, n: string)
    requires Finished(fs, cache) && MergedUpTo(fs, cache, p, |Children(fs, p)|, version, entities) && n in entities
    ensures exists c :: Declares(fs, p, c, n)
  {
    hide Loadable;
    var m :| 0 <= m < |Children(fs, p)| && n in cache[Children(fs, p)[m]].entities;
    assert FinishedFile(fs, cache, Children(fs, p)[m]);
    var c :| Declares(fs, Children(fs, p)[m], c, n);
    FollowStep(fs, p, m, c);
    assert Declares(fs, p, [m] + c, n);
  }

  /** A file is in progress above p: some chain leads from it to p. */
  ghost predicate LeadsTo(fs: Files, s: Path, p: Path) {
    exists d :: d != [] && Follow(fs, s, d) == Some(p)
  }

  lemma LeadsToChild(fs: Files, s: Path, p: Path, k: nat)
    requires k < |Children(fs, p)| && (s == p || LeadsTo(fs, s, p))
    ensures LeadsTo(fs, s, Children(fs, p)[k])
  {
    FollowStep(fs, p, k, []);
    if s == p {
      assert [k] + [] != [] && Follow(fs, s, [k] + []) == Some(Children(fs, p)[k]);
    } else {
      var d :| d != [] && Follow(fs, s, d) == Some(p);
      FollowConcat(fs, s, d, [k] + []);
      assert d + ([k] + []) != [];
    }
  }

  lemma CycleIsNotLoadable(fs: Files, p: Path)
    requires LeadsTo(fs, p, p)
    ensures !Loadable(fs, p)
  {
    var d :| d != [] && Follow(fs, p, d) == Some(p);
    assert Follow(fs, p, []) == Some(p);
  }

  lemma {:induction false} MatchesAround(patterns: seq<Pattern>, i: nat)
    requires i < |patterns| && patterns[i].Matches?
    ensures AllMatches(patterns[..i + 1]) == AllMatches(patterns[..i]) + patterns[i].paths
    ensures AllMatches(patterns[..i + 1]) <= AllMatches(patterns)
  {
    MatchesConcat(patterns[..i], [patterns[i]]);
    assert patterns[..i + 1] == patterns[..i] + [patterns[i]];
    assert [patterns[i]][1..] == [];
    MatchesConcat(patterns[..i + 1], patterns[i + 1..]);
    assert patterns == patterns[..i + 1] + patterns[i + 1..];
  }

  lemma {:induction false} MatchesConcat(a: seq<Pattern>, b: seq<Pattern>)
    ensures AllMatches(a + b) == AllMatches(a) + AllMatches(b)
  {
    if a == [] {
      assert a + b == b;
    } else {
      assert (a + b)[1..] == a[1..] + b;
      MatchesConcat(a[1..], b);
    }
  }

  class Loader {
    const fs: Files
    var cache: map<Path, Loaded>
    var stack: set<Path>

    constructor (fs: Files)
      ensures this.fs == fs && cache == map[] && stack == {}
    {
      this.fs := fs;
      cache, stack := map[], {};
    }

    /** Finished files are right, and none of them is in progress. */
    ghost predicate Valid()
      reads this
    {
      Finished(fs, cache) && cache.Keys !! stack
    }

    ghost predicate Below(path: Path)
      reads this
    {
      forall s :: s in stack ==> s == path || LeadsTo(fs, s, path)
    }

    /** Succeeds exactly for a loadable file, with exactly the entities along the chains from it. */
    method LoadRecursive(path: Path) returns (r: Result<Loaded, Error>)
      requires Valid() && forall s :: s in stack ==> LeadsTo(fs, s, path)
      modifies this
      ensures Valid() && stack == old(stack) && Grows(old(cache), cache)
      ensures r.Ok? <==> Loadable(fs, path)
      ensures r.Ok? ==> Gathers(fs, path, r.value) && path in cache && cache[path] == r.value
      ensures r.Err? ==> Blames(fs, path, r.error)
      decreases fs.Keys - stack, 0
    {
      hide Loadable, Gathers, MergedUpTo, LeadsTo, DocOk, Blames;
      if path in cache {
        assert FinishedFile(fs, cache, path);
        return Ok(cache[path]);
      }
      if path in stack {
        CycleIsNotLoadable(fs, path);
        BlamesItself(fs, path, IncludeCycle(path));
        return Err(IncludeCycle(path));
      }
      if path !in fs || fs[path].Unparsable? {
        NotReadable(path);
        BlamesItself(fs, path, if path !in fs then Unreadable(path) else BadSyntax(path));
        return Err(if path !in fs then Unreadable(path) else BadSyntax(path));
      }
      stack := stack + {path};
      r := LoadParsed(path);
      stack := stack - {path};
      if r.Ok? {
        cache := cache[path := r.value];
      }
    }

    lemma NotReadable(path: Path)
      requires path !in fs || fs[path].Unparsable?
      ensures !Loadable(fs, path)
    {
      if Loadable(fs, path) { OwnFileMustBeOk(fs, path); }
    }

    /** The includes of a file that has been read, then its own entities. */
    method LoadParsed(path: Path) returns (r: Result<Loaded, Error>)
      requires Valid() && path in stack && path in fs && fs[path].Parsed? && Below(path)
      modifies this
      ensures Valid() && stack == old(stack) && Grows(old(cache), cache)
      ensures r.Ok? <==> Loadable(fs, path)
      ensures r.Ok? ==>
                Gathers(fs, path, r.value)
                && forall k :: 0 <= k < |Children(fs, path)| ==> Children(fs, path)[k] in cache
      ensures r.Err? ==> Blames(fs, path, r.error)
      decreases fs.Keys - stack, 3
    {
      hide Loadable, Gathers, Finished, BodyOk, PatternsOk, LeadsTo, Blames;
      var agg := new Aggregate();
      var err := LoadIncludes(path, agg);
      if err.Some? {
        return Err(err.value);
      }
      ghost var version, entities := agg.version, agg.entities;
      err := agg.AddDocument(fs[path].doc, path);
      if err.Some? {
        RejectedDocument(path, version, entities);
        RejectedFor(path, version, entities, err.value);
        return Err(err.value);
      }
      NamesApartFromOwn(path, version, entities);
      AllIncludesFinished(fs, cache, path);
      AggregateIsComplete(fs, cache, path, version, entities);
      return Ok(Loaded(agg.version, agg.entities));
    }

    lemma NamesApartFromOwn(path: Path, version: Option<int>, entities: map<string, Entity>)
      requires MergedUpTo(fs, cache, path, |Children(fs, path)|, version, entities)
      requires entities.Keys !! EntitiesOf(fs, path).Keys
      ensures forall k, n :: 0 <= k < |Children(fs, path)| && n in cache[Children(fs, path)[k]].entities ==>
              n !in EntitiesOf(fs, path)
    {
    }

    lemma RejectedDocument(path: Path, version: Option<int>, entities: map<string, Entity>)
      requires Valid() && path in fs && fs[path].Parsed?
      requires MergedUpTo(fs, cache, path, |Children(fs, path)|, version, entities)
      requires !BodyOk(fs[path].doc) || !(entities.Keys !! fs[path].doc.entities.Keys)
      ensures !Loadable(fs, path)
    {
      hide Loadable, Finished, MergedUpTo;
      if !BodyOk(fs[path].doc) {
        if Loadable(fs, path) { OwnFileMustBeOk(fs, path); }
      } else {
        var n :| n in entities && n in fs[path].doc.entities;
        ClashWithOwn(fs, cache, path, version, entities, n);
      }
    }

    lemma RejectedFor(path: Path, version: Option<int>, entities: map<string, Entity>, e: Error)
      requires Valid() && path in fs && fs[path].Parsed?
      requires MergedUpTo(fs, cache, path, |Children(fs, path)|, version, entities)
      requires e == VersionRequired(path) ==> fs[path].doc.version != Version(CURRENT_VERSION)
      requires e == UnnamedEntity(path) ==> "" in fs[path].doc.entities
      requires e != VersionMismatch(path) || !CompatibleVersions(version, Some(CURRENT_VERSION))
      requires || e in {VersionRequired(path), VersionMismatch(path), UnnamedEntity(path)}
               || (e.DuplicateEntity? && e.name in entities && e.name in fs[path].doc.entities)
      ensures Blames(fs, path, e)
    {
      hide Finished;
      if e.DuplicateEntity? {
        hide MergedUpTo;
        ClashWithOwn(fs, cache, path, version, entities, e.name);
      } else {
        assert CompatibleVersions(version, Some(CURRENT_VERSION));
        BlamesItself(fs, path, e);
      }
    }

    /** The two nested loops over patterns and matches. */
    method LoadIncludes(path: Path, agg: Aggregate) returns (err: Option<Error>)
      requires Valid() && path in stack && path in fs && fs[path].Parsed? && Below(path)
      requires agg.version == None && agg.entities == map[]
      modifies this, agg
      ensures Valid() && stack == old(stack) && Grows(old(cache), cache)
      ensures err.None? ==>
              PatternsOk(fs[path].doc.patterns)
                  && MergedUpTo(fs, cache, path, |Children(fs, path)|, agg.version, agg.entities)
      ensures err.Some? ==> !Loadable(fs, path) && Blames(fs, path, err.value)
      decreases fs.Keys - stack, 2
    {
      hide Loadable, Finished, MergedUpTo, LeadsTo, Blames;
      var patterns := fs[path].doc.patterns;
      assert MergedUpTo(fs, cache, path, 0, agg.version, agg.entities) by { NothingMerged(path); }
      ghost var k := 0;
      for i := 0 to |patterns|
        invariant Valid() && stack == old(stack) && Grows(old(cache), cache)
        invariant k == |AllMatches(patterns[..i])|
        invariant forall m :: 0 <= m < i ==> patterns[m].Matches? && patterns[m].paths != []
        invariant MergedUpTo(fs, cache, path, k, agg.version, agg.entities)
      {
        if patterns[i].Malformed? || |patterns[i].paths| == 0 {
          BadPatternIsNotLoadable(path, i);
          BlamesItself(fs, path, if patterns[i].Malformed? then BadPattern(path) else NoMatch(path));
          return Some(if patterns[i].Malformed? then BadPattern(path) else NoMatch(path));
        }
        MatchesAround(patterns, i);
        ghost var start := k;
        var matches := patterns[i].paths;
        for j := 0 to |matches|
          invariant Valid() && stack == old(stack) && Grows(old(cache), cache)
          invariant k == start + j
          invariant MergedUpTo(fs, cache, path, k, agg.version, agg.entities)
        {
          assert Children(fs, path)[k] == matches[j];
          err := IncludeFile(path, k, matches[j], agg);
          if err.Some? {
            return;
          }
          k := k + 1;
        }
      }
      assert patterns[..|patterns|] == patterns;
      return None;
    }

    lemma NothingMerged(path: Path)
      ensures MergedUpTo(fs, cache, path, 0, None, map[])
    {
    }

    lemma BadPatternIsNotLoadable(path: Path, i: nat)
      requires path in fs && fs[path].Parsed? && i < |fs[path].doc.patterns|
      requires fs[path].doc.patterns[i].Malformed? || fs[path].doc.patterns[i].paths == []
      ensures !Loadable(fs, path)
    {
      if Loadable(fs, path) { OwnFileMustBeOk(fs, path); }
    }

    /** One included file: load it, then merge it. */
    method IncludeFile(path: Path, ghost k: nat, child: Path, agg: Aggregate) returns (err: Option<Error>)
      requires Valid() && path in stack && path in fs && Below(path)
      requires k < |Children(fs, path)| && Children(fs, path)[k] == child
      requires MergedUpTo(fs, cache, path, k, agg.version, agg.entities)
      modifies this, agg
      ensures Valid() && stack == old(stack) && Grows(old(cache), cache)
      ensures err.None? ==> MergedUpTo(fs, cache, path, k + 1, agg.version, agg.entities)
      ensures err.Some? ==> !Loadable(fs, path) && Blames(fs, path, err.value)
      decreases fs.Keys - stack, 1
    {
      hide Loadable, Finished, MergedUpTo, LeadsTo, Blames;
      forall s | s in stack ensures LeadsTo(fs, s, child) {
        LeadsToChild(fs, s, path, k);
      }
      ghost var before, version, entities := cache, agg.version, agg.entities;
      var r := LoadRecursive(child);
      MergedSurvives(fs, before, cache, path, k, version, entities);
      if r.Err? {
        if Loadable(fs, path) { ChildIsLoadable(fs, path, k); }
        BlamesAbove(fs, path, k, r.error);
        return Some(r.error);
      }
      assert CompatibleVersions(version, r.value.version) by {
        VersionsAgree(path, k, child, version, entities, r.value);
      }
      err := agg.Merge(r.value, path);
      if err.Some? {
        ClashAmongChildren(fs, cache, path, k, version, entities, err.value.name);
        return;
      }
      assert r.value.version == Some(CURRENT_VERSION);
      MergedOneMore(fs, cache, path, k, version, entities, r.value);
    }

    lemma VersionsAgree(path: Path, k: nat, child: Path, version: Option<int>, entities: map<string, Entity>, a: Loaded)
      requires MergedUpTo(fs, cache, path, k, version, entities) && Gathers(fs, child, a)
      ensures CompatibleVersions(version, a.version)
    {
    }
  }

  /** Loading from scratch: every file, cycle and name on the way decides. */
  method Load(fs: Files, path: Path) returns (r: Result<Loaded, Error>)
    ensures r.Ok? <==> Loadable(fs, path)
    ensures r.Ok? ==> Gathers(fs, path, r.value)
    ensures r.Err? ==> Blames(fs, path, r.error)
  {
    var loader := new Loader(fs);
    r := loader.LoadRecursive(path);
  }

  /** On success every file that declares an entity is reached by one chain only, despite the cache. */
  lemma OneChainPerDeclaringFile(fs: Files, p: Path, c: seq<nat>, d: seq<nat>)
    requires Loadable(fs, p) && Follow(fs, p, c).Some? && Follow(fs, p, d) == Follow(fs, p, c)
    requires EntitiesOf(fs, Follow(fs, p, c).value) != map[]
    ensures c == d
  {
    if c != d {
      assert Apart(fs, p, c, d);
      var n :| n in EntitiesOf(fs, Follow(fs, p, c).value);
    }
  }

  // ---------- what a file must hold ----------

  /** A well-formed pattern of the list matches the file. */
  ghost predicate Matched(patterns: seq<Pattern>, q: Path) {
    exists i :: 0 <= i < |patterns| && patterns[i].Matches? && q in patterns[i].paths
  }

  /** Exactly which files a file includes: those its patterns match. */
  lemma ChildrenExactly(fs: Files, p: Path, q: Path)
    ensures q in Children(fs, p) <==> p in fs && fs[p].Parsed? && Matched(fs[p].doc.patterns, q)
  {
    if p in fs && fs[p].Parsed? { MatchesExactly(fs[p].doc.patterns, q); }
  }

  lemma {:induction false} MatchesExactly(patterns: seq<Pattern>, q: Path)
    ensures q in AllMatches(patterns) <==> Matched(patterns, q)
  {
    if patterns != [] {
      MatchesExactly(patterns[1..], q);
      MatchedTail(patterns, q);
      hide Matched;
    }
  }

  lemma MatchedTail(patterns: seq<Pattern>, q: Path)
    requires patterns != []
    ensures Matched(patterns, q) <==> (patterns[0].Matches? && q in patterns[0].paths) || Matched(patterns[1..], q)
  {
    assert forall i :: 0 <= i < |patterns| - 1 ==> patterns[1..][i] == patterns[i + 1];
    if i :| 0 <= i < |patterns| && patterns[i].Matches? && q in patterns[i].paths {
      assert i > 0 ==> patterns[1..][i - 1] == patterns[i];
    }
  }

  /** They are included pattern by pattern, in the order of each pattern's matches. */
  lemma MatchesFollow(a: seq<Pattern>, b: seq<Pattern>, paths: seq<Path>)
    ensures AllMatches([Matches(paths)]) == paths && AllMatches([Malformed]) == []
    ensures AllMatches(a + b) == AllMatches(a) + AllMatches(b)
  {
    assert [Matches(paths)][1..] == [] && [Malformed][1..] == [] && AllMatches([]) == [] && paths + [] == paths;
    MatchesConcat(a, b);
  }

  /**
   A file by itself is right exactly if it can be read, every pattern is well formed and matches something, its
   version is 1, and no entity is without a name.
  */
  lemma DocumentExactly(fs: Files, p: Path)
    ensures DocOk(fs, p) <==>
              && p in fs && fs[p].Parsed?
              && (forall pattern :: pattern in fs[p].doc.patterns ==> pattern.Matches? && pattern.paths != [])
              && fs[p].doc.version == Version(1) && "" !in fs[p].doc.entities
    ensures EntitiesOf(fs, p) == if p in fs && fs[p].Parsed? then fs[p].doc.entities else map[]
  {
    if p in fs && fs[p].Parsed? {
      var patterns := fs[p].doc.patterns;
      assert forall i :: 0 <= i < |patterns| ==> patterns[i] in patterns;
    }
  }
}
