/**
 What a write to one file does to the objects that each type lists: the place of a file among those
 a type reads, and what create, update and delete change there (internal/data/store_ops.go, load.go).
*/
module StoreListings {
  import opened Text
  import Inheritance
  import opened StoreFiles
  import opened StoreOps

  // ---------- one file among those a type reads ----------

  lemma WithoutStaysStrict(all: seq<string>, k: nat)
    requires StrictlySorted(all) && k < |all|
    ensures StrictlySorted(Without(all, k))
    ensures forall x :: x in Without(all, k) <==> x in all && x != all[k]
  {
    hide Leq;
    var rest := Without(all, k);
    forall i, j | 0 <= i < j < |rest| ensures Less(rest[i], rest[j]) {
      var m, n := if i < k then i else i + 1, if j < k then j else j + 1;
      assert rest[i] == all[m] && rest[j] == all[n];
    }
    forall x ensures x in rest <==> x in all && x != all[k] {
      if x in rest {
        var i :| 0 <= i < |rest| && rest[i] == x;
        assert x == all[if i < k then i else i + 1];
      }
      if x in all && x != all[k] {
        var i :| 0 <= i < |all| && all[i] == x;
        assert x == rest[if i < k then i else i - 1];
      }
    }
  }

  lemma ElementsOfSorted(s: set<string>, p: string, k: nat)
    requires p !in s && k < |SortedKeys(s + {p})| && SortedKeys(s + {p})[k] == p
    ensures Without(SortedKeys(s + {p}), k) == SortedKeys(s)
  {
    hide StrictlySorted, Without;
    var all := SortedKeys(s + {p});
    WithoutStaysStrict(all, k);
    forall x ensures x in Without(all, k) <==> x in SortedKeys(s) {
      assert x in all <==> x in s + {p};
    }
    StrictListingIsUnique(Without(all, k), SortedKeys(s));
  }

  /** Adding an element to a set splits its sorted listing in two. */
  lemma SortedSplit(s: set<string>, p: string) returns (left: seq<string>, right: seq<string>)
    requires p !in s
    ensures SortedKeys(s + {p}) == left + [p] + right && SortedKeys(s) == left + right
  {
    hide StrictlySorted;
    var k := PlaceOf(SortedKeys(s + {p}), p);
    ElementsOfSorted(s, p, k);
    left, right := SplitAround(SortedKeys(s + {p}), k);
  }

  lemma PlaceOf(xs: seq<string>, x: string) returns (k: nat)
    requires x in xs
    ensures k < |xs| && xs[k] == x
  {
    k :| 0 <= k < |xs| && xs[k] == x;
  }

  lemma SplitAround<T>(xs: seq<T>, k: nat) returns (left: seq<T>, right: seq<T>)
    requires k < |xs|
    ensures xs == left + [xs[k]] + right && Without(xs, k) == left + right
  {
    left, right := xs[..k], xs[k + 1..];
  }

  ghost predicate Avoids(ms: seq<Match>, p: string) {
    forall m :: m in ms ==> m.path != p
  }

  lemma TaggedBoth(selector: string, l: seq<string>, r: seq<string>, p: string)
    ensures Tagged(selector, l + r) == Tagged(selector, l) + Tagged(selector, r)
    ensures Tagged(selector, l + [p] + r) == Tagged(selector, l) + [Match(selector, p)] + Tagged(selector, r)
  {
  }

  lemma TaggedAvoids(selector: string, l: seq<string>, p: string)
    requires p !in l
    ensures Avoids(Tagged(selector, l), p)
  {
    forall m | m in Tagged(selector, l) ensures m.path != p {
      var i :| 0 <= i < |l| && Tagged(selector, l)[i] == m;
      assert l[i] in l;
    }
  }

  lemma MatchedAround(w: World, inc: Include, keys: set<string>, p: string)
      returns (left: seq<Match>, right: seq<Match>)
    requires p !in keys && Owns(w, inc, p)
    ensures Matched(w, inc, keys + {p}) == left + [Match(inc.selector, p)] + right
    ensures Matched(w, inc, keys) == left + right && Avoids(left, p) && Avoids(right, p)
  {
    var some := set q | q in keys && Owns(w, inc, q);
    assert (set q | q in keys + {p} && Owns(w, inc, q)) == some + {p};
    var l, r := SortedSplit(some, p);
    assert p !in l + r by { assert p !in some; }
    left, right := Tagged(inc.selector, l), Tagged(inc.selector, r);
    TaggedBoth(inc.selector, l, r, p);
    TaggedAvoids(inc.selector, l, p);
    TaggedAvoids(inc.selector, r, p);
  }

  lemma MatchedElsewhere(w: World, inc: Include, keys: set<string>, p: string)
    requires p !in keys
    ensures !Owns(w, inc, p) ==> Matched(w, inc, keys + {p}) == Matched(w, inc, keys)
    ensures Avoids(Matched(w, inc, keys), p)
  {
    var some := set q | q in keys && Owns(w, inc, q);
    if !Owns(w, inc, p) {
      assert (set q | q in keys + {p} && Owns(w, inc, q)) == some;
    }
    assert p !in SortedKeys(some);
    TaggedAvoids(inc.selector, SortedKeys(some), p);
  }

  lemma {:induction false} MatchesElsewhere(w: World, incs: seq<Include>, keys: set<string>, seen: set<Include>,
                                            p: string)
    requires p !in keys
    ensures (forall inc :: inc in incs && inc !in seen ==> !Owns(w, inc, p)) ==>
              MatchesOf(w, incs, keys + {p}, seen) == MatchesOf(w, incs, keys, seen)
    ensures Avoids(MatchesOf(w, incs, keys, seen), p)
  {
    if incs != [] {
      MatchedElsewhere(w, incs[0], keys, p);
      MatchesElsewhere(w, incs[1..], keys, if incs[0] in seen then seen else seen + {incs[0]}, p);
    }
  }

  lemma Regroup<T>(a: seq<T>, b: seq<T>, c: seq<T>, d: seq<T>)
    ensures (a + b + c) + d == a + b + (c + d) && a + (b + c + d) == (a + b) + c + d
    ensures (a + b) + d == a + (b + d)
  {
  }

  /** If one include owns a path, its file is matched once, at a place that does not depend on the file. */
  lemma {:induction false} MatchesAround(w: World, incs: seq<Include>, keys: set<string>, seen: set<Include>,
                                         inc: Include, p: string)
      returns (left: seq<Match>, right: seq<Match>)
    requires p !in keys && inc in incs && inc !in seen && Owns(w, inc, p)
    requires forall i :: i in incs && Owns(w, i, p) ==> i == inc
    ensures MatchesOf(w, incs, keys + {p}, seen) == left + [Match(inc.selector, p)] + right
    ensures MatchesOf(w, incs, keys, seen) == left + right && Avoids(left, p) && Avoids(right, p)
  {
    hide Matched, Owns;
    var here := [Match(inc.selector, p)];
    if incs[0] == inc {
      left, right := MatchedAround(w, inc, keys, p);
      MatchesElsewhere(w, incs[1..], keys, seen + {inc}, p);
      var rest := MatchesOf(w, incs[1..], keys, seen + {inc});
      Regroup(left, here, right, rest);
      Regroup(left, right, [], rest);
      right := right + rest;
    } else {
      var now := if incs[0] in seen then seen else seen + {incs[0]};
      left, right := MatchesAround(w, incs[1..], keys, now, inc, p);
      MatchedElsewhere(w, incs[0], keys, p);
      var first := if incs[0] in seen then [] else Matched(w, incs[0], keys);
      Regroup(first, left, here, right);
      Regroup(first, left, [], right);
      left := first + left;
    }
  }

  // ---------- the objects of one file among those of a type ----------

  lemma {:induction false} FromBoth(w: World, files: Files, t: string, left: seq<Match>, right: seq<Match>)
    requires t in w.types
    ensures FromMatches(w, files, t, left + right).Ok? <==>
              FromMatches(w, files, t, left).Ok? && FromMatches(w, files, t, right).Ok?
    ensures FromMatches(w, files, t, left + right).Ok? ==>
              FromMatches(w, files, t, left + right).value
                  == FromMatches(w, files, t, left).value + FromMatches(w, files, t, right).value
  {
    if left == [] {
      assert left + right == right;
    } else {
      assert (left + right)[1..] == left[1..] + right;
      FromBoth(w, files, t, left[1..], right);
    }
  }

  /** The two states of the files differ at most at one path. */
  ghost predicate SameBut(files: Files, after: Files, p: string) {
    files - {p} == after - {p}
  }

  lemma {:induction false} FromElsewhere(w: World, files: Files, after: Files, t: string, ms: seq<Match>, p: string)
    requires t in w.types && SameBut(files, after, p) && Avoids(ms, p)
    ensures FromMatches(w, files, t, ms) == FromMatches(w, after, t, ms)
  {
    if ms != [] {
      var q := ms[0].path;
      assert q in files <==> q in after by {
        assert q in files <==> q in files - {p};
        assert q in after <==> q in after - {p};
      }
      assert q in files ==> files[q] == after[q] by {
        assert q in files ==> files[q] == (files - {p})[q];
        assert q in after ==> after[q] == (after - {p})[q];
      }
      FromElsewhere(w, files, after, t, ms[1..], p);
    }
  }

  /** The objects of one file, if it is there. */
  function Segment(w: World, files: Files, t: string, m: Match): Result<seq<Object>, StoreFiles.Error>
    requires t in w.types
  {
    if m.path in files then FromFile(w, files, t, m) else Ok([])
  }

  /** Each path is read through at most one include of one type. */
  ghost predicate Exclusive(w: World, p: string) {
    forall t, u, i, j :: Reads(w, t, i, p) && Reads(w, u, j, p) ==> t == u && i == j
  }

  ghost predicate Reads(w: World, t: string, inc: Include, p: string) {
    t in w.includes && inc in w.includes[t] && Owns(w, inc, p)
  }

  /** The matches of a type, with the place of one file shown. */
  lemma FileMatchesAround(w: World, t: string, inc: Include, p: string, keys: set<string>)
      returns (left: seq<Match>, right: seq<Match>)
    requires t in w.includes && Reads(w, t, inc, p) && Exclusive(w, p) && p !in keys
    ensures FileMatches(w, keys + {p}, t) == left + [Match(inc.selector, p)] + right
    ensures FileMatches(w, keys, t) == left + right && Avoids(left, p) && Avoids(right, p)
  {
    forall i | i in w.includes[t] && Owns(w, i, p) ensures i == inc {
      assert Reads(w, t, i, p);
    }
    left, right := MatchesAround(w, w.includes[t], keys, {}, inc, p);
  }

  lemma KeysBut(files: Files, p: string)
    ensures p !in (files - {p}).Keys
    ensures files.Keys == if p in files then (files - {p}).Keys + {p} else (files - {p}).Keys
  {
  }

  lemma ListingWith(w: World, files: Files, t: string, m: Match, left: seq<Match>, right: seq<Match>, p: string)
    requires w.Valid() && t in w.types && m.path == p
    requires FileMatches(w, files.Keys, t) == left + (if p in files then [m] else []) + right
    ensures var a := FromMatches(w, files, t, left);
            var b := FromMatches(w, files, t, right);
            var x := Segment(w, files, t, m);
            var all := FileObjects(w, files, t);
            && (all.Ok? <==> a.Ok? && b.Ok? && x.Ok?)
            && (all.Ok? ==> all.value == a.value + x.value + b.value)
  {
    var here := if p in files then [m] else [];
    FromBoth(w, files, t, left + here, right);
    FromBoth(w, files, t, left, here);
    if p in files {
      assert [m][1..] == [];
      assert FromMatches(w, files, t, []) == Ok([]);
      if Segment(w, files, t, m).Ok? {
        assert Segment(w, files, t, m).value + [] == Segment(w, files, t, m).value;
      }
    }
  }

  /** A write to one file replaces that file's segment of the listing. */
  lemma SegmentChanges(w: World, files: Files, after: Files, t: string, inc: Include, p: string)
      returns (a: seq<Object>, b: seq<Object>)
    requires w.Valid() && t in w.types && Reads(w, t, inc, p) && Exclusive(w, p) && SameBut(files, after, p)
    requires FileObjects(w, files, t).Ok?
    ensures var m := Match(inc.selector, p);
            var x := Segment(w, files, t, m);
            var y := Segment(w, after, t, m);
            && x.Ok? && FileObjects(w, files, t).value == a + x.value + b
            && (y.Ok? <==> FileObjects(w, after, t).Ok?)
            && (y.Ok? ==> FileObjects(w, after, t).value == a + y.value + b)
  {
    hide *;
    var m := Match(inc.selector, p);
    var keys := (files - {p}).Keys;
    SameButKeys(w, files, after, t, inc, p);
    var left, right := FileMatchesAround(w, t, inc, p, keys);
    MatchesAt(w, files, t, m, p, left, right);
    MatchesAt(w, after, t, m, p, left, right);
    ListingWith(w, files, t, m, left, right, p);
    ListingWith(w, after, t, m, left, right, p);
    FromElsewhere(w, files, after, t, left, p);
    FromElsewhere(w, files, after, t, right, p);
    a, b := FromMatches(w, files, t, left).value, FromMatches(w, files, t, right).value;
  }

  lemma SameButKeys(w: World, files: Files, after: Files, t: string, inc: Include, p: string)
    requires SameBut(files, after, p) && Reads(w, t, inc, p)
    ensures (files - {p}).Keys == (after - {p}).Keys && p !in (files - {p}).Keys && t in w.includes
  {
  }

  lemma MatchesAt(w: World, files: Files, t: string, m: Match, p: string, left: seq<Match>, right: seq<Match>)
    requires t in w.includes
    requires FileMatches(w, (files - {p}).Keys + {p}, t) == left + [m] + right
             && FileMatches(w, (files - {p}).Keys, t) == left + right
    ensures FileMatches(w, files.Keys, t) == left + (if p in files then [m] else []) + right
  {
    hide FileMatches;
    KeysBut(files, p);
    assert left + [] + right == left + right;
  }

  lemma NotRead(w: World, files: Files, after: Files, t: string, p: string)
    requires w.Valid() && t in w.types && SameBut(files, after, p)
    requires forall inc :: inc in w.includes[t] ==> !Owns(w, inc, p)
    ensures FileObjects(w, files, t) == FileObjects(w, after, t)
  {
    var keys := (files - {p}).Keys;
    assert keys == (after - {p}).Keys;
    MatchesElsewhere(w, w.includes[t], keys, {}, p);
    assert files.Keys == keys || files.Keys == keys + {p};
    assert after.Keys == keys || after.Keys == keys + {p};
    FromElsewhere(w, files, after, t, MatchesOf(w, w.includes[t], keys, {}), p);
  }

  // ---------- what a write does to the listings ----------

  ghost predicate Places(before: seq<Object>, after: seq<Object>, a: seq<Object>, gone: seq<Object>,
                         come: seq<Object>, b: seq<Object>) {
    before == a + gone + b && after == a + come + b
  }

  /** At one place of one type's listing, some objects go and others come; no other type's listing changes. */
  ghost predicate Changes(w: World, files: Files, after: Files, t: string, gone: seq<Object>, come: seq<Object>)
    requires w.Valid() && t in w.types
  {
    && FileObjects(w, files, t).Ok? && FileObjects(w, after, t).Ok?
    && (exists a, b :: Places(FileObjects(w, files, t).value, FileObjects(w, after, t).value, a, gone, come, b))
    && forall u :: u in w.types && u != t ==> FileObjects(w, after, u) == FileObjects(w, files, u)
  }

  lemma OthersStay(w: World, files: Files, after: Files, t: string, inc: Include, p: string)
    requires w.Valid() && t in w.types && Reads(w, t, inc, p) && Exclusive(w, p) && SameBut(files, after, p)
    ensures forall u :: u in w.types && u != t ==> FileObjects(w, after, u) == FileObjects(w, files, u)
  {
    forall u | u in w.types && u != t ensures FileObjects(w, after, u) == FileObjects(w, files, u) {
      forall j | j in w.includes[u] ensures !Owns(w, j, p) {
        if Owns(w, j, p) { assert Reads(w, u, j, p); }
      }
      NotRead(w, files, after, u, p);
    }
  }

  lemma PlacesWithin(before: seq<Object>, after: seq<Object>, a: seq<Object>, b: seq<Object>,
                     x1: seq<Object>, gone: seq<Object>, come: seq<Object>, x2: seq<Object>)
    requires before == a + (x1 + gone + x2) + b && after == a + (x1 + come + x2) + b
    ensures Places(before, after, a + x1, gone, come, x2 + b)
  {
    assert a + (x1 + gone + x2) + b == (a + x1) + gone + (x2 + b);
    assert a + (x1 + come + x2) + b == (a + x1) + come + (x2 + b);
  }

  /** A change within one file's segment is a change within the listing. */
  lemma SegmentMakesChange(w: World, files: Files, after: Files, t: string, inc: Include, p: string,
                           x1: seq<Object>, gone: seq<Object>, come: seq<Object>, x2: seq<Object>)
    requires w.Valid() && t in w.types && Reads(w, t, inc, p) && Exclusive(w, p) && SameBut(files, after, p)
    requires FileObjects(w, files, t).Ok?
    requires Segment(w, files, t, Match(inc.selector, p)) == Ok(x1 + gone + x2)
    requires Segment(w, after, t, Match(inc.selector, p)) == Ok(x1 + come + x2)
    ensures Changes(w, files, after, t, gone, come)
  {
    hide FileObjects, Segment, Reads, Exclusive, SameBut, Places;
    OthersStay(w, files, after, t, inc, p);
    var a, b := SegmentChanges(w, files, after, t, inc, p);
    PlacesWithin(FileObjects(w, files, t).value, FileObjects(w, after, t).value, a, b, x1, gone, come, x2);
  }

  lemma {:induction false} FromItemsBoth(w: World, t: string, left: seq<Fields>, right: seq<Fields>, path: string,
                                         readOnly: bool)
    requires t in w.types
    ensures var l := FromItems(w, t, left, path, readOnly);
            var r := FromItems(w, t, right, path, readOnly);
            var all := FromItems(w, t, left + right, path, readOnly);
            (all.Ok? <==> l.Ok? && r.Ok?) && (all.Ok? ==> all.value == l.value + r.value)
  {
    if left == [] {
      assert left + right == right;
    } else {
      assert (left + right)[1..] == left[1..] + right;
      FromItemsBoth(w, t, left[1..], right, path, readOnly);
    }
  }

  lemma OneItem(w: World, t: string, item: Fields, path: string, readOnly: bool)
    requires t in w.types
    ensures FromItems(w, t, [], path, readOnly) == Ok([])
    ensures IdOf(w, t, item).Some? ==>
              FromItems(w, t, [item], path, readOnly)
                  == Ok([FileObject(t, IdOf(w, t, item).value, item, path, readOnly)])
  {
    var items := [item];
    assert items[1..] == [] && FromItems(w, t, items[1..], path, readOnly) == Ok([]);
    if IdOf(w, t, item).Some? {
      var o := FileObject(t, IdOf(w, t, item).value, item, path, readOnly);
      assert [o] + [] == [o];
    }
  }

  /** Replacing the item at an index, by one with an identifier or by nothing. */
  lemma ItemReplaced(w: World, t: string, items: seq<Fields>, k: nat, path: string, item: Fields)
      returns (x1: seq<Object>, x2: seq<Object>)
    requires t in w.types && k < |items| && FromItems(w, t, items, path, false).Ok?
    ensures IdOf(w, t, items[k]).Some?
    ensures FromItems(w, t, items, path, false)
            == Ok(x1 + [FileObject(t, IdOf(w, t, items[k]).value, items[k], path, false)] + x2)
    ensures FromItems(w, t, Without(items, k), path, false) == Ok(x1 + [] + x2)
    ensures IdOf(w, t, item).Some? ==>
              FromItems(w, t, items[k := item], path, false)
                  == Ok(x1 + [FileObject(t, IdOf(w, t, item).value, item, path, false)] + x2)
  {
    var l, r := items[..k], items[k + 1..];
    assert items == l + [items[k]] + r && items[k := item] == l + [item] + r && Without(items, k) == l + r;
    FromItemsBoth(w, t, l + [items[k]], r, path, false);
    FromItemsBoth(w, t, l, [items[k]], path, false);
    FromItemsBoth(w, t, l + [item], r, path, false);
    FromItemsBoth(w, t, l, [item], path, false);
    FromItemsBoth(w, t, l, r, path, false);
    OneItem(w, t, items[k], path, false);
    OneItem(w, t, item, path, false);
    x1, x2 := FromItems(w, t, l, path, false).value, FromItems(w, t, r, path, false).value;
    assert x1 + [] + x2 == x1 + x2;
  }

  /** The segment of a file that decodes for the type. */
  lemma SegmentOf(w: World, files: Files, t: string, p: string)
    requires t in w.types
    ensures p !in files ==> Segment(w, files, t, Match("", p)) == Ok([])
    ensures p in files && files[p].Document? && Decode(files[p].doc, t).Ok? ==>
              Segment(w, files, t, Match("", p)) == FromItems(w, t, Objects(Decode(files[p].doc, t).value), p, false)
  {
  }

  /** The segment of a file just written. */
  lemma WrittenSegment(w: World, files: Files, t: string, p: string, content: Content)
    requires t in w.types && p in files && t != "" && content.typeName == t && !content.readOnly
    requires files[p] == Encode(content)
    requires content.Single? ==> "type" !in content.fields && "items" !in content.fields
    ensures Segment(w, files, t, Match("", p)) == FromItems(w, t, Objects(content), p, false)
  {
    hide FromItems, Decode;
    EncodeDecode(content);
    SegmentOf(w, files, t, p);
  }

  // ---------- delete ----------

  lemma ReadsBack(w: World, keys: set<string>, t: string, m: Match) returns (inc: Include)
    requires t in w.includes && m in FileMatches(w, keys, t)
    ensures Reads(w, t, inc, m.path) && inc.selector == m.selector
  {
    inc := MatchCameFrom(w, w.includes[t], keys, {}, m);
  }

  lemma {:induction false} MatchCameFrom(w: World, incs: seq<Include>, keys: set<string>, seen: set<Include>,
                                         m: Match) returns (inc: Include)
    requires m in MatchesOf(w, incs, keys, seen)
    ensures inc in incs && Owns(w, inc, m.path) && inc.selector == m.selector
  {
    if incs[0] !in seen && m in Matched(w, incs[0], keys) {
      inc := incs[0];
      var found := SortedKeys(set p | p in keys && Owns(w, inc, p));
      var i :| 0 <= i < |found| && Matched(w, inc, keys)[i] == m;
      assert found[i] in found;
    } else {
      inc := MatchCameFrom(w, incs[1..], keys, if incs[0] in seen then seen else seen + {incs[0]}, m);
    }
  }

  /** The object to be written over, in the segment of its file. */
  lemma FoundInSegment(w: World, files: Files, t: string, id: string, item: Fields)
      returns (inc: Include, x1: seq<Object>, x2: seq<Object>)
    requires w.Valid() && Writable(w, files, t, id).Ok? && FileObjects(w, files, t).Ok?
    requires Exclusive(w, Writable(w, files, t, id).value.path)
    ensures var loc := Writable(w, files, t, id).value;
            && t in w.types && loc.content.Some? && loc.index < |Objects(loc.content.value)|
            && Reads(w, t, inc, loc.path) && inc.selector == ""
            && Segment(w, files, t, Match("", loc.path)) == Ok(x1 + [loc.found] + x2)
            && FromItems(w, t, Without(Objects(loc.content.value), loc.index), loc.path, false) == Ok(x1 + [] + x2)
            && (IdOf(w, t, item) == Some(id) ==>
                  FromItems(w, t, Objects(loc.content.value)[loc.index := item], loc.path, false)
                    == Ok(x1 + [FileObject(t, id, item, loc.path, false)] + x2))
  {
    WritableAt(w, files, t, id);
    hide FileObjects, FileMatches, Exclusive, Decode, Writable, FindItem, Reads, Segment, FromItems;
    var loc := Writable(w, files, t, id).value;
    inc := ReadsBack(w, files.Keys, t, Match("", loc.path));
    var a, b := SegmentChanges(w, files, files, t, inc, loc.path);
    SegmentOf(w, files, t, loc.path);
    x1, x2 := ItemReplaced(w, t, Objects(loc.content.value), loc.index, loc.path, item);
    FindItemPlace(w, t, Objects(loc.content.value), loc.content.value, loc.path, 0, id);
  }

  lemma RemovedSegment(w: World, files: Files, t: string, p: string, content: Content, k: nat)
    requires t in w.types && t != "" && content.typeName == t && !content.readOnly && k < |Objects(content)|
    ensures var after := Removed(files, p, content, k);
            && SameBut(files, after, p)
            && Segment(w, after, t, Match("", p)) == FromItems(w, t, Without(Objects(content), k), p, false)
  {
    hide FromItems, Encode;
    var after := Removed(files, p, content, k);
    if content.Multi? && |content.items| > 1 {
      WrittenSegment(w, after, t, p, content.(items := Without(content.items, k)));
    } else {
      assert Without(Objects(content), k) == [];
      OneItem(w, t, map[], p, false);
      SegmentOf(w, after, t, p);
    }
  }

  /** An object written over another; alone in its file it must not have an items field. */
  lemma RewrittenSegment(w: World, files: Files, t: string, p: string, content: Content, k: nat, item: Fields)
    requires t in w.types && t != "" && content.typeName == t && !content.readOnly && k < |Objects(content)|
    requires "type" !in item && (content.Single? ==> "items" !in item)
    ensures var after := Rewritten(files, p, content, k, item);
            && SameBut(files, after, p)
            && Segment(w, after, t, Match("", p)) == FromItems(w, t, Objects(content)[k := item], p, false)
  {
    hide FromItems, Encode;
    var after := Rewritten(files, p, content, k, item);
    if content.Multi? {
      WrittenSegment(w, after, t, p, content.(items := content.items[k := item]));
    } else {
      assert Objects(content)[k := item] == [item];
      assert Decode(item, t) == Ok(Single(t, item, false));
      SegmentOf(w, after, t, p);
    }
  }

  /** A delete removes exactly the object found from the listing of its type, and touches no other. */
  lemma DeleteRemovesOne(w: World, files: Files, t: string, id: string)
    requires w.Valid() && Delete(w, files, t, id).Ok? && t in w.types && FileObjects(w, files, t).Ok?
    requires Exclusive(w, Writable(w, files, t, id).value.path)
    ensures Changes(w, files, Delete(w, files, t, id).value, t, [Writable(w, files, t, id).value.found], [])
  {
    var inc, x1, x2 := FoundInSegment(w, files, t, id, map[]);
    WritableAt(w, files, t, id);
    var loc := Writable(w, files, t, id).value;
    RemovedSegment(w, files, t, loc.path, loc.content.value, loc.index);
    hide *;
    SegmentMakesChange(w, files, Delete(w, files, t, id).value, t, inc, Writable(w, files, t, id).value.path,
                       x1, [Writable(w, files, t, id).value.found], [], x2);
  }

  // ---------- update ----------

  lemma UpdatedItem(w: World, t: string, id: string, was: Fields, fields: Fields, merge: bool)
    requires w.Valid() && t in w.types && id != ""
    requires PlainId(w, t)
    ensures var item := Updated(w, t, id, was, fields, merge);
            IdOf(w, t, item) == Some(id) && "type" !in item
    ensures "items" !in was && "items" !in fields ==> "items" !in Updated(w, t, id, was, fields, merge)
  {
  }

  /** An update replaces exactly the object found, keeping its place, and touches no other. */
  lemma UpdateReplacesOne(w: World, files: Files, t: string, id: string, fields: Fields, merge: bool)
    requires w.Valid() && Update(w, files, t, id, fields, merge).Ok? && t in w.types && FileObjects(w, files, t).Ok?
    requires Exclusive(w, Writable(w, files, t, id).value.path)
    requires var loc := Writable(w, files, t, id).value;
             loc.content.Some? && (loc.content.value.Single? ==> "items" !in fields)
    requires PlainId(w, t)
    ensures var (after, o) := Update(w, files, t, id, fields, merge).value;
            && Changes(w, files, after, t, [Writable(w, files, t, id).value.found], [o])
            && o.id == id && IdOf(w, t, o.fields) == Some(id)
  {
    WritableAt(w, files, t, id);
    var loc := Writable(w, files, t, id).value;
    var (after, o) := Update(w, files, t, id, fields, merge).value;
    UpdatedItem(w, t, id, loc.found.fields, fields, merge);
    BareHasNoItems(w, files, t, loc.path);
    var inc, x1, x2 := FoundInSegment(w, files, t, id, o.fields);
    RewrittenSegment(w, files, t, loc.path, loc.content.value, loc.index, o.fields);
    hide *;
    SegmentMakesChange(w, files, after, t, inc, loc.path, x1, [loc.found], [o], x2);
  }

  lemma BareHasNoItems(w: World, files: Files, t: string, p: string)
    requires p in files && files[p].Document? && Decode(files[p].doc, t).Ok?
    ensures var content := Decode(files[p].doc, t).value; content.Single? ==> "items" !in content.fields
  {
  }

  // ---------- create ----------

  lemma CreatedItem(w: World, t: string, id: string, fields: Fields)
    requires w.Valid() && t in w.types && IdOf(w, t, fields) == Some(id)
    requires PlainId(w, t)
    ensures var item := Created(w, t, id, fields);
            IdOf(w, t, item) == Some(id) && "type" !in item && ("items" in item <==> "items" in fields)
  {
  }

  /** What the type reads in the target file before the create. */
  ghost function Existing(files: Files, t: string, p: string): Option<Content> {
    if p in files && files[p].Document? && Decode(files[p].doc, t).Ok? then Some(Decode(files[p].doc, t).value)
        else None
  }

  /** Writing the item to the target neither loses what is there nor is itself lost. */
  ghost predicate Receives(files: Files, t: string, target: Target, fields: Fields) {
    var existing := Existing(files, t, target.path);
    if target.multi then existing.Some? ==> existing.value.Multi?
    else "items" !in fields && (existing.Some? ==> Objects(existing.value) == [])
  }

  /** The type reads the file, and may write it. */
  ghost predicate Read(w: World, t: string, p: string) {
    exists inc :: Reads(w, t, inc, p) && inc.selector == ""
  }

  lemma StoredOver(w: World, files: Files, t: string, target: Target, item: Fields)
    requires Stored(w, files, t, target, item).Ok?
    ensures var existing := Existing(files, t, target.path);
            && (existing.Some? <==> target.path in files)
            && LoadFile(w, files, target.path, t, "")
                == (if existing.Some? then Ok(existing.value) else Err(FileMissing))
            && (existing.Some? && existing.value.Multi? ==> existing.value == Multi(t, existing.value.items, false))
  {
  }

  lemma StoredSegment(w: World, files: Files, t: string, target: Target, item: Fields, id: string)
      returns (x: seq<Object>)
    requires t in w.types && t != "" && Stored(w, files, t, target, item).Ok?
    requires IdOf(w, t, item) == Some(id) && "type" !in item
    requires Receives(files, t, target, item)
    requires Segment(w, files, t, Match("", target.path)).Ok?
    ensures var after := Stored(w, files, t, target, item).value;
            var m := Match("", target.path);
            && SameBut(files, after, target.path)
            && Segment(w, files, t, m) == Ok(x + [] + [])
            && Segment(w, after, t, m) == Ok(x + [FileObject(t, id, item, target.path, false)] + [])
  {
    StoredOver(w, files, t, target, item);
    hide FromItems, Encode, Decode, LoadFile, Segment;
    var after := Stored(w, files, t, target, item).value;
    var p := target.path;
    SegmentOf(w, files, t, p);
    SegmentOf(w, after, t, p);
    OneItem(w, t, item, p, false);
    var existing := Existing(files, t, p);
    var items := if existing.Some? then Objects(existing.value) else [];
    x := if existing.Some? then FromItems(w, t, items, p, false).value else [];
    assert x + [] + [] == x && x + [FileObject(t, id, item, p, false)] + [] == x + [FileObject(t, id, item, p, false)];
    assert Segment(w, files, t, Match("", p)) == Ok(x);
    if target.multi {
      assert [] + [item] == [item];
      assert Appended(t, LoadFile(w, files, p, t, ""), item) == Multi(t, items + [item], false);
      WrittenSegment(w, after, t, p, Multi(t, items + [item], false));
      FromItemsBoth(w, t, items, [item], p, false);
    } else {
      BareDecodes(item, t);
      assert items == [] && x == [] && after[p] == Document(item);
      assert [] + [FileObject(t, id, item, p, false)] == [FileObject(t, id, item, p, false)];
    }
  }

  lemma BareDecodes(item: Fields, t: string)
    requires "type" !in item && "items" !in item
    ensures Decode(item, t) == Ok(Single(t, item, false))
  {
  }

  function TargetOf(w: World, t: string, id: string): Result<Target, StoreFiles.Error>
    requires w.Valid() && t in w.types
  {
    ChooseTarget(w.includes[t], id, None)
  }

  lemma CreateParts(w: World, files: Files, t: string, fields: Fields)
    requires w.Valid() && Create(w, files, t, fields).Ok?
    ensures var (after, o) := Create(w, files, t, fields).value;
            && t in w.types && t != "" && IdOf(w, t, fields) == Some(o.id)
            && TargetOf(w, t, o.id).Ok? && TargetOf(w, t, o.id).value.path == o.file
            && o == FileObject(t, o.id, Created(w, t, o.id, fields), o.file, false)
            && FindInTypes(w, files, Tree(w, t), None, o.id) == Ok(None)
            && Stored(w, files, t, TargetOf(w, t, o.id).value, o.fields) == Ok(after)
  {
    hide FindInTypes, Tree, ChooseTarget, Stored, Created;
  }

  /** A create into a receiving target adds exactly the new object to the listing of its type. */
  lemma CreateAddsOne(w: World, files: Files, t: string, fields: Fields)
    requires w.Valid() && Create(w, files, t, fields).Ok? && t in w.types && FileObjects(w, files, t).Ok?
    requires var o := Create(w, files, t, fields).value.1;
             && TargetOf(w, t, o.id).Ok? && Exclusive(w, o.file)
             && Read(w, t, o.file) && Receives(files, t, TargetOf(w, t, o.id).value, fields)
    requires PlainId(w, t)
    ensures var (after, o) := Create(w, files, t, fields).value;
            Changes(w, files, after, t, [], [o])
  {
    CreateParts(w, files, t, fields);
    var (after, o) := Create(w, files, t, fields).value;
    CreatedItem(w, t, o.id, fields);
    hide Create, TargetOf, Stored, FileObjects, FindInTypes, Tree, Created, IdOf, World.Valid, Exclusive, Segment,
        SameBut;
    var inc :| Reads(w, t, inc, o.file) && inc.selector == "";
    var a, b := SegmentChanges(w, files, files, t, inc, o.file);
    var x := StoredSegment(w, files, t, TargetOf(w, t, o.id).value, o.fields, o.id);
    hide *;
    SegmentMakesChange(w, files, after, t, inc, o.file, x, [], [o], []);
  }

  // ---------- when a write is lost ----------

  /** A change of the listing is a change of the one file's segment. */
  lemma ChangeShows(w: World, files: Files, after: Files, t: string, inc: Include, p: string, gone: seq<Object>,
                    o: Object)
    requires w.Valid() && t in w.types && Reads(w, t, inc, p) && Exclusive(w, p) && SameBut(files, after, p)
    requires Changes(w, files, after, t, gone, [o])
    ensures var x := Segment(w, files, t, Match(inc.selector, p));
            var y := Segment(w, after, t, Match(inc.selector, p));
            && x.Ok? && y.Ok? && multiset(y.value) + multiset(gone) == multiset(x.value) + multiset{o}
            && |y.value| + |gone| == |x.value| + 1
  {
    hide FileObjects, Segment, Reads, Exclusive, SameBut;
    var before, later := FileObjects(w, files, t).value, FileObjects(w, after, t).value;
    var a, b :| Places(before, later, a, gone, [o], b);
    var l, r := SegmentChanges(w, files, after, t, inc, p);
    hide *;
    PlacesCount(before, later, a, gone, [o], b, l, Segment(w, files, t, Match(inc.selector, p)).value,
                Segment(w, after, t, Match(inc.selector, p)).value, r);
  }

  lemma PlacesCount(before: seq<Object>, later: seq<Object>, a: seq<Object>, gone: seq<Object>, come: seq<Object>,
                    b: seq<Object>,
                    l: seq<Object>, x: seq<Object>, y: seq<Object>, r: seq<Object>)
    requires Places(before, later, a, gone, come, b) && before == l + x + r && later == l + y + r
    ensures multiset(y) + multiset(gone) == multiset(x) + multiset(come)
    ensures |y| + |gone| == |x| + |come|
  {
    assert multiset(before) == multiset(l) + multiset(x) + multiset(r);
    assert multiset(later) == multiset(l) + multiset(y) + multiset(r);
    assert multiset(before) == multiset(a) + multiset(gone) + multiset(b);
    assert multiset(later) == multiset(a) + multiset(come) + multiset(b);
    forall e ensures multiset(y)[e] + multiset(gone)[e] == multiset(x)[e] + multiset(come)[e] {
      assert multiset(before)[e] == multiset(l)[e] + multiset(x)[e] + multiset(r)[e];
      assert multiset(later)[e] == multiset(l)[e] + multiset(y)[e] + multiset(r)[e];
      assert multiset(before)[e] == multiset(a)[e] + multiset(gone)[e] + multiset(b)[e];
      assert multiset(later)[e] == multiset(a)[e] + multiset(come)[e] + multiset(b)[e];
    }
  }

  lemma {:induction false} FieldsOfItems(w: World, t: string, items: seq<Fields>, path: string, readOnly: bool,
                                         o: Object)
    requires t in w.types && FromItems(w, t, items, path, readOnly).Ok?
             && o in FromItems(w, t, items, path, readOnly).value
    ensures o.fields in items && o.readOnly == readOnly
  {
    if o.fields != items[0] || o.readOnly != readOnly {
      FieldsOfItems(w, t, items[1..], path, readOnly, o);
    }
  }

  lemma {:induction false} ItemsAreValues(values: seq<Value>, item: Fields)
    requires AsFields(values).Some? && item in AsFields(values).value
    ensures Map(item) in values
  {
    if values[0] != Map(item) {
      ItemsAreValues(values[1..], item);
    }
  }

  lemma NotAmongItsItems(item: Fields)
    requires "items" in item && item["items"].List?
    ensures Map(item) !in item["items"].items
  {
    var v := Map(item);
    forall i | 0 <= i < |v.fields["items"].items| ensures v.fields["items"].items[i] != v {
      assert v.fields["items"].items[i] < v;
    }
  }

  /** An object with an items field, written alone in a file, is not what is read back. */
  lemma ItemsFieldHides(w: World, files: Files, t: string, p: string, item: Fields, o: Object)
    requires t in w.types && p in files && files[p] == Document(item) && "type" !in item && "items" in item
             && o.fields == item
    requires Segment(w, files, t, Match("", p)).Ok?
    ensures o !in Segment(w, files, t, Match("", p)).value
  {
    hide FromItems, Segment;
    if o in Segment(w, files, t, Match("", p)).value {
      SegmentOf(w, files, t, p);
      SegmentDecodes(w, files, t, p);
      var items := Objects(Decode(item, t).value);
      FieldsOfItems(w, t, items, p, false, o);
      ItemsAreValues(item["items"].items, item);
      NotAmongItsItems(item);
    }
  }

  lemma SegmentDecodes(w: World, files: Files, t: string, p: string)
    requires t in w.types && p in files && Segment(w, files, t, Match("", p)).Ok?
    ensures files[p].Document? && Decode(files[p].doc, t).Ok?
  {
  }

  lemma ThroughSelector(w: World, files: Files, t: string, m: Match, o: Object)
    requires t in w.types && m.selector != "" && Segment(w, files, t, m).Ok? && o in Segment(w, files, t, m).value
    ensures o.readOnly
  {
    hide FromItems;
    var content := LoadFile(w, files, m.path, t, m.selector).value;
    SelectorsAreReadOnly(w, files, m.path, t, m.selector);
    FieldsOfItems(w, t, Objects(content), m.path, content.readOnly, o);
  }

  /**
   A create whose target does not receive it is lost, or loses what was there: its listing does not gain
   exactly it.
  */
  lemma CreateAddsOnlyIfReceived(w: World, files: Files, t: string, fields: Fields)
    requires w.Valid() && Create(w, files, t, fields).Ok? && t in w.types
    requires var (after, o) := Create(w, files, t, fields).value;
             Exclusive(w, o.file) && Changes(w, files, after, t, [], [o])
    requires PlainId(w, t)
    ensures var o := Create(w, files, t, fields).value.1;
            TargetOf(w, t, o.id).Ok? && Read(w, t, o.file) && Receives(files, t, TargetOf(w, t, o.id).value, fields)
  {
    CreateParts(w, files, t, fields);
    hide *;
    var (after, o) := Create(w, files, t, fields).value;
    CreatedItem(w, t, o.id, fields);
    assert SameBut(files, after, o.file) by { StoredElsewhere(w, files, t, TargetOf(w, t, o.id).value, o.fields); }
    StoredIsReceived(w, files, after, t, TargetOf(w, t, o.id).value, o.fields, o);
    SameReceiving(files, t, TargetOf(w, t, o.id).value, o.fields, fields);
  }

  lemma StoredElsewhere(w: World, files: Files, t: string, target: Target, item: Fields)
    ensures Stored(w, files, t, target, item).Ok? ==>
            SameBut(files, Stored(w, files, t, target, item).value, target.path)
  {
  }

  lemma SameReceiving(files: Files, t: string, target: Target, item: Fields, fields: Fields)
    requires "items" in item <==> "items" in fields
    ensures Receives(files, t, target, item) == Receives(files, t, target, fields)
  {
  }

  lemma StoredIsReceived(w: World, files: Files, after: Files, t: string, target: Target, item: Fields, o: Object)
    requires w.Valid() && t in w.types && t != "" && Stored(w, files, t, target, item) == Ok(after)
             && SameBut(files, after, target.path)
    requires "type" !in item && o.fields == item && !o.readOnly && o.file == target.path
    requires Exclusive(w, o.file) && Changes(w, files, after, t, [], [o])
    ensures Read(w, t, o.file) && Receives(files, t, target, item)
  {
    hide Stored, Exclusive, Segment, Receives, Changes, SameBut, FileObjects, Reads;
    CreateIsRead(w, files, after, t, o);
    var inc :| Reads(w, t, inc, o.file);
    ChangeShows(w, files, after, t, inc, o.file, [], o);
    var x := Segment(w, files, t, Match(inc.selector, o.file)).value;
    var y := Segment(w, after, t, Match(inc.selector, o.file)).value;
    var none: seq<Object> := [];
    assert (multiset(y) + multiset(none))[o] == multiset(x)[o] + 1;
    assert o in y;
    if inc.selector != "" { ThroughSelector(w, after, t, Match(inc.selector, o.file), o); }
    assert inc.selector == "";
    StoredKeepsOut(w, files, t, target, item, o);
  }

  lemma CreateIsRead(w: World, files: Files, after: Files, t: string, o: Object)
    requires w.Valid() && t in w.types && SameBut(files, after, o.file) && Changes(w, files, after, t, [], [o])
    ensures exists inc :: Reads(w, t, inc, o.file)
  {
    var before, later := FileObjects(w, files, t).value, FileObjects(w, after, t).value;
    var a, b :| Places(before, later, a, [], [o], b);
    assert |before| < |later|;
    if forall inc :: inc in w.includes[t] ==> !Owns(w, inc, o.file) {
      NotRead(w, files, after, t, o.file);
    } else {
      var inc :| inc in w.includes[t] && Owns(w, inc, o.file);
      assert Reads(w, t, inc, o.file);
    }
  }

  lemma StoredKeepsOut(w: World, files: Files, t: string, target: Target, item: Fields, o: Object)
    requires t in w.types && t != "" && Stored(w, files, t, target, item).Ok? && "type" !in item && o.fields == item
    requires var after := Stored(w, files, t, target, item).value;
             var x := Segment(w, files, t, Match("", target.path));
             var y := Segment(w, after, t, Match("", target.path));
             x.Ok? && y.Ok? && |y.value| == |x.value| + 1 && o in y.value
    ensures Receives(files, t, target, item)
  {
    StoredOver(w, files, t, target, item);
    hide FromItems, Encode, Decode, LoadFile, Segment;
    var after := Stored(w, files, t, target, item).value;
    var p := target.path;
    SegmentOf(w, files, t, p);
    SegmentOf(w, after, t, p);
    var existing := Existing(files, t, p);
    if target.multi && existing.Some? && existing.value.Single? {
      BareRewritten(files, t, p);
      WrittenBare(w, files, after, t, p);
    }
    if !target.multi && "items" in item {
      ItemsFieldHides(w, after, t, p, item, o);
    }
    if !target.multi && "items" !in item {
      BareDecodes(item, t);
      ItemCount(w, t, [item], p);
      if existing.Some? { ItemCount(w, t, Objects(existing.value), p); }
    }
  }

  lemma {:induction false} ItemCount(w: World, t: string, items: seq<Fields>, p: string)
    requires t in w.types
    ensures FromItems(w, t, items, p, false).Ok? ==> |FromItems(w, t, items, p, false).value| == |items|
  {
    if items != [] { ItemCount(w, t, items[1..], p); }
  }

  /** A bare object written back decodes to itself. */
  lemma BareRewritten(files: Files, t: string, p: string)
    requires t != "" && p in files && files[p].Document? && Decode(files[p].doc, t).Ok?
             && Decode(files[p].doc, t).value.Single?
    ensures var content := Decode(files[p].doc, t).value;
            Encode(content).Document? && Decode(Encode(content).doc, t) == Ok(content)
  {
    var content := Decode(files[p].doc, t).value;
    var doc := Encode(content).doc;
    if GetString(files[p].doc, "type").Some? || "type" !in files[p].doc {
      assert doc - {"type"} == content.fields;
    } else {
      assert doc == files[p].doc;
    }
  }

  lemma WrittenBare(w: World, files: Files, after: Files, t: string, p: string)
    requires t in w.types && p in files && p in after && files[p].Document? && after[p].Document?
    requires Decode(files[p].doc, t).Ok? && Decode(after[p].doc, t) == Decode(files[p].doc, t)
    ensures Segment(w, files, t, Match("", p)) == Segment(w, after, t, Match("", p))
  {
    SegmentOf(w, files, t, p);
    SegmentOf(w, after, t, p);
  }

  /** An update of an object alone in its file cannot give it an items field. */
  lemma UpdateReplacesOnlyWithoutItems(w: World, files: Files, t: string, id: string, fields: Fields, merge: bool)
    requires w.Valid() && Update(w, files, t, id, fields, merge).Ok? && t in w.types
    requires Exclusive(w, Writable(w, files, t, id).value.path)
    requires var (after, o) := Update(w, files, t, id, fields, merge).value;
             Changes(w, files, after, t, [Writable(w, files, t, id).value.found], [o])
    requires PlainId(w, t)
    ensures var loc := Writable(w, files, t, id).value;
            loc.content.Some? && (loc.content.value.Single? ==> "items" !in fields)
  {
    WritableAt(w, files, t, id);
    var loc := Writable(w, files, t, id).value;
    var (after, o) := Update(w, files, t, id, fields, merge).value;
    UpdatedItem(w, t, id, loc.found.fields, fields, merge);
    if loc.content.value.Single? && "items" in fields {
      UpdatedKeepsItems(w, t, id, loc.found.fields, fields, merge);
      var inc, x1, x2 := FoundInSegment(w, files, t, id, o.fields);
      assert after == files[loc.path := Document(o.fields)];
      assert loc.found in Segment(w, files, t, Match("", loc.path)).value;
      hide *;
      RewrittenIsSeen(w, files, after, t, inc, loc.path, loc.found, o);
    }
  }

  lemma RewrittenIsSeen(w: World, files: Files, after: Files, t: string, inc: Include, p: string, found: Object,
                        o: Object)
    requires w.Valid() && t in w.types && Reads(w, t, inc, p) && inc.selector == "" && Exclusive(w, p)
    requires after == files[p := Document(o.fields)] && "type" !in o.fields && "items" in o.fields
    requires Segment(w, files, t, Match("", p)).Ok? && found in Segment(w, files, t, Match("", p)).value
    ensures !Changes(w, files, after, t, [found], [o])
  {
    hide Exclusive, Segment, Changes, FileObjects, Reads;
    if Changes(w, files, after, t, [found], [o]) {
      assert SameBut(files, after, p);
      ChangeShows(w, files, after, t, inc, p, [found], o);
      var x := Segment(w, files, t, Match("", p)).value;
      var y := Segment(w, after, t, Match("", p)).value;
      assert multiset(x)[found] > 0;
      assert (multiset(y) + multiset([found]))[o] == multiset(x)[o] + 1;
      assert multiset(y)[o] > 0;
      ItemsFieldHides(w, after, t, p, o.fields, o);
    }
  }

  lemma UpdatedKeepsItems(w: World, t: string, id: string, was: Fields, fields: Fields, merge: bool)
    requires w.Valid() && t in w.types && "items" in fields
    ensures "items" in Updated(w, t, id, was, fields, merge)
  {
  }

  // ---------- exactly when a write is what it says ----------

  /** A create adds exactly the new object if and only if its type reads the target file and the target receives it. */
  lemma CreateAddsExactly(w: World, files: Files, t: string, fields: Fields)
    requires w.Valid() && Create(w, files, t, fields).Ok? && t in w.types && FileObjects(w, files, t).Ok?
             && PlainId(w, t)
    requires Exclusive(w, Create(w, files, t, fields).value.1.file)
    ensures var (after, o) := Create(w, files, t, fields).value;
            && TargetOf(w, t, o.id).Ok?
            && (Changes(w, files, after, t, [], [o]) <==>
                Read(w, t, o.file) && Receives(files, t, TargetOf(w, t, o.id).value, fields))
  {
    hide *;
    CreateParts(w, files, t, fields);
    var (after, o) := Create(w, files, t, fields).value;
    if Changes(w, files, after, t, [], [o]) {
      CreateAddsOnlyIfReceived(w, files, t, fields);
    }
    if Read(w, t, o.file) && Receives(files, t, TargetOf(w, t, o.id).value, fields) {
      CreateAddsOne(w, files, t, fields);
    }
  }

  /**
   An update replaces exactly the object found, unless that is alone in its file and the new fields hold an
   items field.
  */
  lemma UpdateReplacesExactly(w: World, files: Files, t: string, id: string, fields: Fields, merge: bool)
    requires w.Valid() && Update(w, files, t, id, fields, merge).Ok? && t in w.types && FileObjects(w, files, t).Ok?
             && PlainId(w, t)
    requires Writable(w, files, t, id).Ok? && Exclusive(w, Writable(w, files, t, id).value.path)
    ensures var loc := Writable(w, files, t, id).value;
            var (after, o) := Update(w, files, t, id, fields, merge).value;
            && loc.content.Some?
            && (Changes(w, files, after, t, [loc.found], [o]) <==> (loc.content.value.Single? ==> "items" !in fields))
  {
    hide *;
    WritableAt(w, files, t, id);
    var loc := Writable(w, files, t, id).value;
    var (after, o) := Update(w, files, t, id, fields, merge).value;
    if Changes(w, files, after, t, [loc.found], [o]) {
      UpdateReplacesOnlyWithoutItems(w, files, t, id, fields, merge);
    }
    if loc.content.value.Single? ==> "items" !in fields {
      UpdateReplacesOne(w, files, t, id, fields, merge);
    }
  }

  // ---------- file names that collide ----------

  /** Exactly which identifiers get the same file name. */
  lemma SanitizeCollides(a: string, b: string)
    requires a != "" && b != ""
    ensures Sanitize(a) == Sanitize(b) <==>
              |a| == |b| && forall i :: 0 <= i < |a| ==> a[i] == b[i] || (IsDash(a[i]) && IsDash(b[i]))
  {
    if Sanitize(a) == Sanitize(b) {
      forall i | 0 <= i < |a| ensures a[i] == b[i] || (IsDash(a[i]) && IsDash(b[i])) {
        assert Sanitize(a)[i] == Sanitize(b)[i];
      }
    }
  }

  predicate IsDash(c: char) {
    c == '-' || !IsFileChar(c)
  }

  lemma {:induction false} CollidingTargets(incs: seq<Include>, a: string, b: string, literal: Option<Target>)
    requires Sanitize(a) == Sanitize(b)
    ensures ChooseTarget(incs, a, literal) == ChooseTarget(incs, b, literal)
  {
    hide Sanitize, Replace, ReplaceGlob;
    if incs != [] {
      CollidingTargets(incs[1..], a, b, literal);
      CollidingTargets(incs[1..], a, b, if literal.Some? then literal else Some(Target(incs[0].path, true)));
    }
  }

  /**
   Of two objects created one after the other under identifiers with the same file name, the second replaces
   the first.
  */
  lemma CollidingCreateOverwrites(w: World, files: Files, t: string, first: Fields, second: Fields)
    requires w.Valid() && Create(w, files, t, first).Ok? && t in w.types
    requires var (between, a) := Create(w, files, t, first).value;
             && Create(w, between, t, second).Ok? && FileObjects(w, between, t).Ok?
             && Sanitize(a.id) == Sanitize(Create(w, between, t, second).value.1.id)
             && TargetOf(w, t, a.id).Ok? && !TargetOf(w, t, a.id).value.multi
             && Read(w, t, a.file) && Exclusive(w, a.file) && "items" !in first && "items" !in second
    requires PlainId(w, t)
    ensures var (between, a) := Create(w, files, t, first).value;
            var (after, b) := Create(w, between, t, second).value;
            a.id != b.id ==> Changes(w, between, after, t, [a], [b])
  {
    CreateParts(w, files, t, first);
    var (between, a) := Create(w, files, t, first).value;
    CreateParts(w, between, t, second);
    var (after, b) := Create(w, between, t, second).value;
    CreatedItem(w, t, a.id, first);
    CreatedItem(w, t, b.id, second);
    hide Create, Created, FindInTypes, Tree, Sanitize, FileObjects, Exclusive, World.Valid, IdOf, Changes;
    CollidingTargets(w.includes[t], a.id, b.id, None);
    var target := TargetOf(w, t, a.id).value;
    AloneInFile(w, files, t, target, a.fields, a.id);
    AloneInFile(w, between, t, target, b.fields, b.id);
    var inc :| Reads(w, t, inc, a.file) && inc.selector == "";
    hide Stored, Segment, Reads, TargetOf;
    assert [] + [a] + [] == [a] && [] + [b] + [] == [b];
    SegmentMakesChange(w, between, after, t, inc, a.file, [], [a], [b], []);
  }

  lemma AloneInFile(w: World, files: Files, t: string, target: Target, item: Fields, id: string)
    requires t in w.types && Stored(w, files, t, target, item).Ok? && !target.multi
    requires IdOf(w, t, item) == Some(id) && "type" !in item && "items" !in item
    ensures var after := Stored(w, files, t, target, item).value;
            && SameBut(files, after, target.path)
            && Segment(w, after, t, Match("", target.path)) == Ok([FileObject(t, id, item, target.path, false)])
  {
    var after := Stored(w, files, t, target, item).value;
    BareDecodes(item, t);
    OneItem(w, t, item, target.path, false);
    SegmentOf(w, after, t, target.path);
  }
}
