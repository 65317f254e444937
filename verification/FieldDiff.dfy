/**
 The field changes between two records (internal/diff/diff_semantic.go), and what they say
 about the records: read as a patch, they turn the left record into the right one.
*/
module FieldDiff {
  import opened Text
  import opened SemanticValue

  /** One reported change. As in the program, Null stands for an absent value as well. */
  datatype Change = Change(path: string, oldValue: Value, newValue: Value)

  // ---------- computing the changes ----------

  function PathOf(prefix: string, key: string): string {
    if prefix != "" then prefix + "." + key else key
  }

  function UnionKeys(l: Value, r: Value): set<string>
    requires l.Object? && r.Object?
  {
    l.fields.Keys + r.fields.Keys
  }

  function DiffFields(prefix: string, l: Value, r: Value): seq<Change>
    requires l.Object? && r.Object?
    decreases l, 2, 0
  {
    DiffKeys(prefix, SortedKeys(UnionKeys(l, r)), l, r)
  }

  function DiffKeys(prefix: string, keys: seq<string>, l: Value, r: Value): seq<Change>
    requires l.Object? && r.Object? && forall k :: k in keys ==> k in UnionKeys(l, r)
    decreases l, 1, |keys|
  {
    if keys == [] then []
    else DiffKey(prefix, keys[0], l, r) + DiffKeys(prefix, keys[1..], l, r)
  }

  function DiffKey(prefix: string, key: string, l: Value, r: Value): seq<Change>
    requires l.Object? && r.Object? && key in UnionKeys(l, r)
    decreases l, 0, 0
  {
    var path := PathOf(prefix, key);
    if key !in l.fields then [Change(path, Null, r.fields[key])]
    else if key !in r.fields then [Change(path, l.fields[key], Null)]
    else DiffValues(path, l.fields[key], r.fields[key])
  }

  function DiffValues(path: string, l: Value, r: Value): seq<Change>
    decreases l, 3, 0
  {
    if Canon(l) == Canon(r) then []
    else if l.Object? && r.Object? then DiffFields(path, l, r)
    else [Change(path, l, r)]
  }

  method KeySet(left: Value, right: Value) returns (keySet: set<string>)
    requires left.Object? && right.Object?
    ensures keySet == UnionKeys(left, right)
  {
    keySet := {};
    var todo := left.fields.Keys;
    while todo != {}
      invariant todo <= left.fields.Keys && keySet == left.fields.Keys - todo
    {
      var key :| key in todo;
      keySet, todo := keySet + {key}, todo - {key};
    }
    todo := right.fields.Keys;
    while todo != {}
      invariant todo <= right.fields.Keys && keySet == left.fields.Keys + (right.fields.Keys - todo)
    {
      var key :| key in todo;
      keySet, todo := keySet + {key}, todo - {key};
    }
  }

  lemma NextKey(prefix: string, keys: seq<string>, i: nat, l: Value, r: Value)
    requires l.Object? && r.Object? && i < |keys| && forall k :: k in keys ==> k in UnionKeys(l, r)
    ensures DiffKeys(prefix, keys[i..], l, r) == DiffKey(prefix, keys[i], l, r) + DiffKeys(prefix, keys[i + 1..], l, r)
  {
    hide DiffKey;
    assert keys[i..][1..] == keys[i + 1..];
  }

  /** The changes at the sorted union of keys. */
  method DiffObjectFields(prefix: string, left: Value, right: Value) returns (changes: seq<Change>)
    requires left.Object? && right.Object?
    ensures changes == DiffFields(prefix, left, right)
    decreases left, 2
  {
    hide StrictlySorted, DiffKeys;
    var keySet := KeySet(left, right);
    changes := DiffEachKey(prefix, SortedKeys(keySet), left, right);
  }

  /** The loop over the keys. */
  method DiffEachKey(prefix: string, keys: seq<string>, left: Value, right: Value) returns (changes: seq<Change>)
    requires left.Object? && right.Object? && forall k :: k in keys ==> k in UnionKeys(left, right)
    ensures changes == DiffKeys(prefix, keys, left, right)
    decreases left, 1
  {
    hide DiffKeys, DiffKey;
    changes := [];
    assert keys[0..] == keys;
    for i := 0 to |keys|
      invariant DiffKeys(prefix, keys, left, right) == changes + DiffKeys(prefix, keys[i..], left, right)
    {
      NextKey(prefix, keys, i, left, right);
      var keyChanges := DiffObjectKey(prefix, keys[i], left, right);
      Regroup(changes, keyChanges, DiffKeys(prefix, keys[i + 1..], left, right));
      changes := changes + keyChanges;
    }
    NoKeys(prefix, keys, left, right);
  }

  lemma Regroup(cs: seq<Change>, ds: seq<Change>, es: seq<Change>)
    ensures cs + (ds + es) == cs + ds + es && cs + [] == cs
  {
  }

  lemma NoKeys(prefix: string, keys: seq<string>, l: Value, r: Value)
    requires l.Object? && r.Object?
    ensures DiffKeys(prefix, keys[|keys|..], l, r) == []
  {
  }

  /** The body of that loop. */
  method DiffObjectKey(prefix: string, key: string, left: Value, right: Value) returns (changes: seq<Change>)
    requires left.Object? && right.Object? && key in UnionKeys(left, right)
    ensures changes == DiffKey(prefix, key, left, right)
    decreases left, 0
  {
    hide DiffValues;
    var path := key;
    if prefix != "" {
      path := prefix + "." + key;
    }
    if key !in left.fields {
      changes := [Change(path, Null, right.fields[key])];
    } else if key !in right.fields {
      changes := [Change(path, left.fields[key], Null)];
    } else {
      changes := DiffLogicalValues(path, left.fields[key], right.fields[key]);
    }
  }

  method DiffLogicalValues(path: string, left: Value, right: Value) returns (changes: seq<Change>)
    ensures changes == DiffValues(path, left, right)
    decreases left, 3
  {
    hide DiffFields;
    var equal := SemanticValuesEqual(left, right);
    if equal {
      return [];
    }
    if left.Object? && right.Object? {
      changes := DiffObjectFields(path, left, right);
      return;
    }
    return [Change(path, left, right)];
  }

  // ---------- the changes as a patch ----------

  /** The keys along a path. */
  function Split(path: string): (r: seq<string>)
    ensures r != []
  {
    if path == "" then [""]
    else if path[0] == '.' then [""] + Split(path[1..])
    else
      var rest := Split(path[1..]);
      [[path[0]] + rest[0]] + rest[1..]
  }

  /** Write a value at a path; writing Null removes what is there. */
  function Put(fields: map<string, Value>, keys: seq<string>, v: Value): map<string, Value>
    requires keys != []
    decreases |keys|
  {
    var k := keys[0];
    if |keys| == 1 then if v.Null? then fields - {k} else fields[k := v]
    else if k in fields && fields[k].Object? then fields[k := Object(Put(fields[k].fields, keys[1..], v))]
    else fields
  }

  function Patch(fields: map<string, Value>, changes: seq<Change>): map<string, Value>
    decreases |changes|
  {
    if changes == [] then fields
    else Patch(Put(fields, Split(changes[0].path), changes[0].newValue), changes[1..])
  }

  lemma {:induction false} PatchInTwoParts(m: map<string, Value>, cs: seq<Change>, ds: seq<Change>)
    ensures Patch(m, cs + ds) == Patch(Patch(m, cs), ds)
    decreases |cs|
  {
    if cs == [] {
      assert cs + ds == ds;
    } else {
      assert (cs + ds)[1..] == cs[1..] + ds;
      PatchInTwoParts(Put(m, Split(cs[0].path), cs[0].newValue), cs[1..], ds);
    }
  }

  /** Keys that a dotted path can name. */
  predicate PlainKey(k: string) {
    k != "" && '.' !in k
  }

  ghost predicate Plain(v: Value) {
    v.Object? ==> forall k :: k in v.fields ==> PlainKey(k) && Plain(v.fields[k])
  }

  lemma {:induction false} SplitPlainKey(k: string)
    requires '.' !in k
    ensures Split(k) == [k]
  {
    if k != "" {
      assert k[0] in k;
      SplitPlainKey(k[1..]);
      assert [k[0]] + k[1..] == k;
    }
  }

  lemma {:induction false} SplitDotted(k: string, rest: string)
    requires '.' !in k
    ensures Split(k + "." + rest) == [k] + Split(rest)
  {
    if k == "" {
      assert (k + "." + rest)[1..] == rest;
    } else {
      assert k[0] in k;
      SplitDotted(k[1..], rest);
      assert (k + "." + rest)[1..] == k[1..] + "." + rest;
      assert [k[0]] + k[1..] == k;
    }
  }

  // ---------- changes below a key ----------

  function Below(prefix: string, cs: seq<Change>): seq<Change> {
    if cs == [] then [] else [cs[0].(path := prefix + "." + cs[0].path)] + Below(prefix, cs[1..])
  }

  lemma {:induction false} BelowConcat(p: string, cs: seq<Change>, ds: seq<Change>)
    ensures Below(p, cs + ds) == Below(p, cs) + Below(p, ds)
  {
    if cs == [] {
      assert cs + ds == ds;
    } else {
      assert (cs + ds)[1..] == cs[1..] + ds;
      BelowConcat(p, cs[1..], ds);
    }
  }

  lemma {:induction false} BelowTwice(p: string, q: string, cs: seq<Change>)
    ensures Below(p, Below(q, cs)) == Below(p + "." + q, cs)
  {
    if cs != [] {
      BelowTwice(p, q, cs[1..]);
      assert p + "." + (q + "." + cs[0].path) == (p + "." + q) + "." + cs[0].path;
    }
  }

  /** Changes computed under a prefix are the unprefixed changes, moved below it. */
  lemma {:induction false} PrefixedKeys(p: string, keys: seq<string>, l: Value, r: Value)
    requires l.Object? && r.Object? && Plain(l) && Plain(r) && p != ""
    requires forall k :: k in keys ==> k in UnionKeys(l, r)
    ensures DiffKeys(p, keys, l, r) == Below(p, DiffKeys("", keys, l, r))
    decreases l, 1, |keys|
  {
    hide DiffKey;
    if keys != [] {
      assert keys[0] in keys;
      PrefixedKey(p, keys[0], l, r);
      PrefixedKeys(p, keys[1..], l, r);
      BelowConcat(p, DiffKey("", keys[0], l, r), DiffKeys("", keys[1..], l, r));
    }
  }

  lemma {:induction false} PrefixedKey(p: string, k: string, l: Value, r: Value)
    requires l.Object? && r.Object? && Plain(l) && Plain(r) && p != "" && k in UnionKeys(l, r)
    ensures DiffKey(p, k, l, r) == Below(p, DiffKey("", k, l, r))
    decreases l, 0, 0
  {
    assert PlainKey(k) && PathOf(p, k) == p + "." + k;
    if k in l.fields && k in r.fields {
      PrefixedValues(p, k, l.fields[k], r.fields[k]);
    }
  }

  lemma {:induction false} PrefixedValues(p: string, k: string, a: Value, b: Value)
    requires Plain(a) && Plain(b) && p != "" && PlainKey(k)
    ensures DiffValues(p + "." + k, a, b) == Below(p, DiffValues(k, a, b))
    decreases a, 2, 0
  {
    hide Canon, DiffKeys;
    if Canon(a) != Canon(b) && a.Object? && b.Object? {
      var keys := SortedKeys(UnionKeys(a, b));
      PrefixedKeys(p + "." + k, keys, a, b);
      PrefixedKeys(k, keys, a, b);
      BelowTwice(p, k, DiffKeys("", keys, a, b));
    }
  }

  /** Applying changes below a key works on that key's record only. */
  lemma {:induction false} PatchBelow(m: map<string, Value>, k: string, cs: seq<Change>)
    requires '.' !in k && k in m && m[k].Object?
    ensures Patch(m, Below(k, cs)) == m[k := Object(Patch(m[k].fields, cs))]
    decreases |cs|
  {
    if cs == [] {
      assert m == m[k := m[k]];
    } else {
      var c := cs[0];
      SplitDotted(k, c.path);
      var inner := Put(m[k].fields, Split(c.path), c.newValue);
      var m' := m[k := Object(inner)];
      assert Below(k, cs)[1..] == Below(k, cs[1..]);
      assert ([k] + Split(c.path))[1..] == Split(c.path);
      PatchBelow(m', k, cs[1..]);
      assert m'[k := Object(Patch(inner, cs[1..]))] == m[k := Object(Patch(inner, cs[1..]))];
    }
  }

  // ---------- what the patch does to one key ----------

  /** The value the patched record has at a key. */
  ghost function PatchedAt(k: string, l: Value, r: Value): Option<Value>
    requires l.Object? && r.Object? && k in UnionKeys(l, r)
  {
    if k !in r.fields then None
    else if k in l.fields && Canon(l.fields[k]) == Canon(r.fields[k]) then Some(l.fields[k])
    else if k in l.fields && l.fields[k].Object? && r.fields[k].Object?
    then Some(Object(Patch(l.fields[k].fields, DiffFields("", l.fields[k], r.fields[k]))))
    else if r.fields[k].Null? then None else Some(r.fields[k])
  }

  ghost function WithKey(m: map<string, Value>, k: string, v: Option<Value>): map<string, Value> {
    if v.None? then m - {k} else m[k := v.value]
  }

  lemma {:induction false} PatchOneKey(m: map<string, Value>, k: string, l: Value, r: Value)
    requires l.Object? && r.Object? && Plain(l) && Plain(r) && k in UnionKeys(l, r)
    requires k in m <==> k in l.fields
    requires k in m ==> m[k] == l.fields[k]
    ensures Patch(m, DiffKey("", k, l, r)) == WithKey(m, k, PatchedAt(k, l, r))
  {
    hide Canon, DiffFields;
    assert PlainKey(k);
    SplitPlainKey(k);
    if k in l.fields && k in r.fields {
      var a, b := l.fields[k], r.fields[k];
      if Canon(a) == Canon(b) {
        assert m == m[k := a];
      } else if a.Object? && b.Object? {
        PrefixedFields(k, a, b);
        PatchBelow(m, k, DiffFields("", a, b));
      }
    }
  }

  lemma PrefixedFields(p: string, l: Value, r: Value)
    requires l.Object? && r.Object? && Plain(l) && Plain(r) && p != ""
    ensures DiffFields(p, l, r) == Below(p, DiffFields("", l, r))
  {
    PrefixedKeys(p, SortedKeys(UnionKeys(l, r)), l, r);
  }

  lemma {:induction false} PatchKeys(m: map<string, Value>, keys: seq<string>, l: Value, r: Value)
    requires l.Object? && r.Object? && Plain(l) && Plain(r)
    requires StrictlySorted(keys) && forall k :: k in keys ==> k in UnionKeys(l, r)
    requires forall k :: k in keys ==> (k in m <==> k in l.fields) && (k in m ==> m[k] == l.fields[k])
    ensures var p := Patch(m, DiffKeys("", keys, l, r));
            && (forall k :: k in keys ==>
                  (k in p <==> PatchedAt(k, l, r).Some?) && (k in p ==> p[k] == PatchedAt(k, l, r).value))
            && (forall k :: k !in keys ==> (k in p <==> k in m) && (k in p ==> p[k] == m[k]))
    decreases |keys|
  {
    hide Canon, DiffKey, PatchedAt;
    if keys != [] {
      var k := keys[0];
      assert k in keys && k !in keys[1..];
      PatchOneKey(m, k, l, r);
      PatchInTwoParts(m, DiffKey("", k, l, r), DiffKeys("", keys[1..], l, r));
      var m' := WithKey(m, k, PatchedAt(k, l, r));
      forall j | j in keys[1..] ensures (j in m' <==> j in l.fields) && (j in m' ==> m'[j] == l.fields[j]) {
        assert j in keys;
      }
      PatchKeys(m', keys[1..], l, r);
    }
  }

  // ---------- the patch meets the right record ----------

  /**
   The caller's check: nowhere does the right record hold null where the left one does not.
   (A change cannot tell "set to null" from "deleted".)
  */
  ghost predicate NoNewNull(l: Value, r: Value)
    requires l.Object? && r.Object?
    decreases l
  {
    forall k :: k in r.fields ==>
      && (r.fields[k].Null? ==> k in l.fields && l.fields[k].Null?)
      && (k in l.fields && l.fields[k].Object? && r.fields[k].Object? ==> NoNewNull(l.fields[k], r.fields[k]))
  }

  lemma {:induction false} EquivHasNoNewNull(l: Value, r: Value)
    requires l.Object? && Equiv(l, r)
    ensures NoNewNull(l, r)
    decreases l
  {
    forall k | k in r.fields && l.fields[k].Object? && r.fields[k].Object? {
      EquivHasNoNewNull(l.fields[k], r.fields[k]);
    }
  }

  /** The part of NoNewNull that concerns one key. */
  ghost predicate NoNewNullAt(k: string, l: Value, r: Value)
    requires l.Object? && r.Object?
  {
    k in r.fields ==>
      && (r.fields[k].Null? ==> k in l.fields && l.fields[k].Null?)
      && (k in l.fields && l.fields[k].Object? && r.fields[k].Object? ==> NoNewNull(l.fields[k], r.fields[k]))
  }

  /** The patched value at a key is the right one, or the key is absent on both sides. */
  ghost predicate MetAt(k: string, l: Value, r: Value)
    requires l.Object? && r.Object? && k in UnionKeys(l, r)
  {
    && (PatchedAt(k, l, r).Some? <==> k in r.fields)
    && (k in r.fields ==> Equiv(PatchedAt(k, l, r).value, r.fields[k]))
  }

  lemma {:induction false} PatchMeetsKey(k: string, l: Value, r: Value)
    requires l.Object? && r.Object? && k in UnionKeys(l, r)
    requires Clean(l) && Clean(r) && Plain(l) && Plain(r)
    ensures MetAt(k, l, r) <==> NoNewNullAt(k, l, r)
    decreases l, 0
  {
    hide Canon, Clean, DiffFields, Patch, Equiv, NoNewNull;
    if k in r.fields {
      CleanField(r, k);
      EquivReflexive(r.fields[k]);
      if k in l.fields {
        CleanField(l, k);
        PatchMeetsValue(l.fields[k], r.fields[k]);
      }
    }
  }

  /** What the two values at a key need, when both sides have one. */
  lemma {:induction false} PatchMeetsValue(a: Value, b: Value)
    requires Clean(a) && Clean(b) && Plain(a) && Plain(b)
    ensures Canon(a) == Canon(b) ==> Equiv(a, b) && (a.Null? <==> b.Null?)
    ensures Canon(a) == Canon(b) && a.Object? && b.Object? ==> NoNewNull(a, b)
    ensures Canon(a) != Canon(b) && a.Object? && b.Object? ==>
              (Equiv(Object(Patch(a.fields, DiffFields("", a, b))), b) <==> NoNewNull(a, b))
    ensures Canon(a) != Canon(b) && b.Null? ==> !a.Null?
    decreases a, 2
  {
    CanonDecidesEquiv(a, b);
    assert Canon(Null) == "null" && (Equiv(a, b) ==> (a.Null? <==> b.Null?));
    hide Canon, Clean, DiffFields, Patch;
    if Canon(a) == Canon(b) {
      if a.Object? { EquivHasNoNewNull(a, b); }
    } else if a.Object? && b.Object? {
      PatchMeetsRight(a, b);
    }
  }

  lemma NoNewNullByKey(l: Value, r: Value, keys: seq<string>)
    requires l.Object? && r.Object? && forall k :: k in keys <==> k in UnionKeys(l, r)
    ensures NoNewNull(l, r) <==> forall k :: k in keys ==> NoNewNullAt(k, l, r)
  {
    if forall k :: k in keys ==> NoNewNullAt(k, l, r) {
      forall k | k in r.fields
        ensures r.fields[k].Null? ==> k in l.fields && l.fields[k].Null?
        ensures k in l.fields && l.fields[k].Object? && r.fields[k].Object? ==> NoNewNull(l.fields[k], r.fields[k])
      {
        assert k in keys && NoNewNullAt(k, l, r);
      }
    }
  }

  lemma MetByKey(p: map<string, Value>, l: Value, r: Value, keys: seq<string>)
    requires l.Object? && r.Object? && forall k :: k in keys <==> k in UnionKeys(l, r)
    requires forall k :: k in keys ==>
             (k in p <==> PatchedAt(k, l, r).Some?) && (k in p ==> p[k] == PatchedAt(k, l, r).value)
    requires forall k :: k in p ==> k in keys
    ensures Equiv(Object(p), r) <==> forall k :: k in keys ==> MetAt(k, l, r)
  {
    hide PatchedAt;
    if forall k :: k in keys ==> MetAt(k, l, r) {
      forall k | k in p || k in r.fields ensures k in p && k in r.fields && Equiv(p[k], r.fields[k]) {
        assert k in keys && MetAt(k, l, r);
      }
    }
  }

  /**
   Applying the reported changes to the left record gives the right record, up to list order,
   exactly when no null is new.
  */
  lemma {:induction false} PatchMeetsRight(l: Value, r: Value)
    requires l.Object? && r.Object?
    requires Clean(l) && Clean(r) && Plain(l) && Plain(r)
    ensures Equiv(Object(Patch(l.fields, DiffFields("", l, r))), r) <==> NoNewNull(l, r)
    decreases l, 1
  {
    hide Canon, Clean, Plain, PatchedAt, Patch, DiffKeys, MetAt, NoNewNullAt, Equiv, NoNewNull;
    var keys := SortedKeys(UnionKeys(l, r));
    PatchKeys(l.fields, keys, l, r);
    forall k | k in keys ensures MetAt(k, l, r) <==> NoNewNullAt(k, l, r) {
      PatchMeetsKey(k, l, r);
    }
    NoNewNullByKey(l, r, keys);
    MetByKey(Patch(l.fields, DiffFields("", l, r)), l, r, keys);
  }

  /** A field that becomes null and a field that is deleted give the same changes, in every record. */
  lemma NullIsLikeDeleted(prefix: string, l: Value, fields: map<string, Value>, k: string)
    requires l.Object? && k in l.fields && Canon(l.fields[k]) != Canon(Null)
    ensures DiffFields(prefix, l, Object(fields[k := Null])) == DiffFields(prefix, l, Object(fields - {k}))
  {
    hide DiffKeys, SortedKeys, Canon;
    var r, q := Object(fields[k := Null]), Object(fields - {k});
    assert q.fields == r.fields - {k};
    NullIsLikeDeletedIn(prefix, SortedKeys(UnionKeys(l, r)), l, r, q, k);
  }

  lemma {:induction false} NullIsLikeDeletedIn(prefix: string, keys: seq<string>, l: Value, r: Value, q: Value,
                                               k: string)
    requires l.Object? && r.Object? && q.Object? && k in l.fields && Canon(l.fields[k]) != Canon(Null)
    requires k in r.fields && r.fields[k] == Null && q.fields == r.fields - {k}
    requires forall key :: key in keys ==> key in UnionKeys(l, r)
    ensures UnionKeys(l, r) == UnionKeys(l, q) && DiffKeys(prefix, keys, l, r) == DiffKeys(prefix, keys, l, q)
    decreases |keys|
  {
    hide DiffKey;
    assert UnionKeys(l, r) == UnionKeys(l, q);
    if keys != [] {
      assert keys[0] in keys;
      NullIsLikeDeletedAt(prefix, keys[0], l, r, q, k);
      NullIsLikeDeletedIn(prefix, keys[1..], l, r, q, k);
    }
  }

  lemma NullIsLikeDeletedAt(prefix: string, key: string, l: Value, r: Value, q: Value, k: string)
    requires l.Object? && r.Object? && q.Object? && k in l.fields && Canon(l.fields[k]) != Canon(Null)
    requires k in r.fields && r.fields[k] == Null && q.fields == r.fields - {k} && key in UnionKeys(l, r)
    ensures key in UnionKeys(l, q) && DiffKey(prefix, key, l, r) == DiffKey(prefix, key, l, q)
  {
    hide Canon, DiffFields;
  }

  /** A change whose new value is null deletes, even where the right record holds a null. */
  lemma NullIsLost(k: string)
    requires PlainKey(k) && CleanKey(k)
    ensures var l, r := Object(map[]), Object(map[k := Null]);
            !Equiv(Object(Patch(l.fields, DiffFields("", l, r))), r)
  {
    PatchMeetsRight(Object(map[]), Object(map[k := Null]));
  }

  // ---------- the list is empty exactly for equivalent records ----------

  lemma {:induction false} NoChangesIffEquiv(prefix: string, l: Value, r: Value)
    requires l.Object? && r.Object? && Clean(l) && Clean(r)
    ensures DiffFields(prefix, l, r) == [] <==> Equiv(l, r)
    decreases l, 1
  {
    hide Canon, Clean, DiffKey, DiffKeys, Equiv, StrictlySorted;
    var keys := SortedKeys(UnionKeys(l, r));
    forall k | k in keys
      ensures DiffKey(prefix, k, l, r) == [] <==> k in l.fields && k in r.fields && Equiv(l.fields[k], r.fields[k])
    {
      NoChangeAtKey(prefix, k, l, r);
    }
    EmptyByKey(prefix, keys, l, r);
    EquivByKey(l, r, keys);
  }

  lemma EquivByKey(l: Value, r: Value, keys: seq<string>)
    requires l.Object? && r.Object? && forall k :: k in keys <==> k in UnionKeys(l, r)
    ensures Equiv(l, r) <==> forall k :: k in keys ==> k in l.fields && k in r.fields && Equiv(l.fields[k], r.fields[k])
  {
    assert forall k :: k in l.fields || k in r.fields <==> k in keys;
  }

  lemma {:induction false} NoChangeAtKey(prefix: string, k: string, l: Value, r: Value)
    requires l.Object? && r.Object? && Clean(l) && Clean(r) && k in UnionKeys(l, r)
    ensures DiffKey(prefix, k, l, r) == [] <==> k in l.fields && k in r.fields && Equiv(l.fields[k], r.fields[k])
    decreases l, 0
  {
    hide Canon, Clean, Equiv, DiffFields;
    if k in l.fields && k in r.fields {
      var a, b := l.fields[k], r.fields[k];
      CleanField(l, k);
      CleanField(r, k);
      CanonDecidesEquiv(a, b);
      if a.Object? && b.Object? {
        NoChangesIffEquiv(PathOf(prefix, k), a, b);
      }
    }
  }

  lemma {:induction false} EmptyByKey(prefix: string, keys: seq<string>, l: Value, r: Value)
    requires l.Object? && r.Object? && forall k :: k in keys ==> k in UnionKeys(l, r)
    ensures DiffKeys(prefix, keys, l, r) == [] <==> forall k :: k in keys ==> DiffKey(prefix, k, l, r) == []
    decreases |keys|
  {
    hide DiffKey;
    if keys != [] {
      assert keys[0] in keys;
      EmptyByKey(prefix, keys[1..], l, r);
      var first, rest := DiffKey(prefix, keys[0], l, r), DiffKeys(prefix, keys[1..], l, r);
      assert first + rest == [] <==> first == [] && rest == [];
      assert forall k :: k in keys <==> k == keys[0] || k in keys[1..];
    }
  }

  // ---------- exchanging the sides ----------

  function Swapped(cs: seq<Change>): seq<Change> {
    if cs == [] then [] else [Change(cs[0].path, cs[0].newValue, cs[0].oldValue)] + Swapped(cs[1..])
  }

  lemma {:induction false} SwappedConcat(cs: seq<Change>, ds: seq<Change>)
    ensures Swapped(cs + ds) == Swapped(cs) + Swapped(ds)
  {
    if cs == [] {
      assert cs + ds == ds;
    } else {
      assert (cs + ds)[1..] == cs[1..] + ds;
      SwappedConcat(cs[1..], ds);
    }
  }

  /** Comparing in the other direction exchanges old and new in every change, and nothing else. */
  lemma {:induction false} SwapSides(prefix: string, l: Value, r: Value)
    requires l.Object? && r.Object?
    ensures DiffFields(prefix, r, l) == Swapped(DiffFields(prefix, l, r))
    decreases l, 2, 0
  {
    hide DiffKeys;
    assert UnionKeys(l, r) == UnionKeys(r, l);
    SwapKeys(prefix, SortedKeys(UnionKeys(l, r)), l, r);
  }

  lemma {:induction false} SwapKeys(prefix: string, keys: seq<string>, l: Value, r: Value)
    requires l.Object? && r.Object? && forall k :: k in keys ==> k in UnionKeys(l, r) && k in UnionKeys(r, l)
    ensures DiffKeys(prefix, keys, r, l) == Swapped(DiffKeys(prefix, keys, l, r))
    decreases l, 1, |keys|
  {
    hide DiffKey;
    if keys != [] {
      assert keys[0] in keys;
      SwapKey(prefix, keys[0], l, r);
      SwapKeys(prefix, keys[1..], l, r);
      SwappedConcat(DiffKey(prefix, keys[0], l, r), DiffKeys(prefix, keys[1..], l, r));
    }
  }

  lemma {:induction false} SwapKey(prefix: string, k: string, l: Value, r: Value)
    requires l.Object? && r.Object? && k in UnionKeys(l, r)
    ensures DiffKey(prefix, k, r, l) == Swapped(DiffKey(prefix, k, l, r))
    decreases l, 0, 0
  {
    hide Canon, DiffFields;
    if k in l.fields && k in r.fields {
      var a, b := l.fields[k], r.fields[k];
      if Canon(a) != Canon(b) && a.Object? && b.Object? {
        SwapSides(PathOf(prefix, k), a, b);
      }
    }
  }

  // ---------- every change reports the values it is about ----------

  /** The value at the end of a path, Null when there is none. */
  function At(v: Value, keys: seq<string>): Value
    decreases |keys|
  {
    if keys == [] then v
    else if v.Object? && keys[0] in v.fields then At(v.fields[keys[0]], keys[1..])
    else Null
  }

  ghost predicate Reports(c: Change, l: Value, r: Value) {
    c.oldValue == At(l, Split(c.path)) && c.newValue == At(r, Split(c.path))
  }

  lemma {:induction false} BelowMember(p: string, cs: seq<Change>, c: Change) returns (d: Change)
    requires c in Below(p, cs)
    ensures d in cs && c == d.(path := p + "." + d.path)
  {
    if c == Below(p, cs)[0] {
      d := cs[0];
    } else {
      assert Below(p, cs)[1..] == Below(p, cs[1..]);
      d := BelowMember(p, cs[1..], c);
    }
  }

  /** The old and new value of a change are what stands at its path on the two sides. */
  lemma {:induction false} ChangesReportValues(l: Value, r: Value, c: Change)
    requires l.Object? && r.Object? && Plain(l) && Plain(r)
    requires c in DiffFields("", l, r)
    ensures Reports(c, l, r)
    decreases l, 1
  {
    hide DiffKey, Plain, Reports;
    var keys := SortedKeys(UnionKeys(l, r));
    var k := ChangeOfKey(keys, l, r, c);
    ChangeOfKeyReports(k, l, r, c);
  }

  lemma {:induction false} ChangeOfKey(keys: seq<string>, l: Value, r: Value, c: Change) returns (k: string)
    requires l.Object? && r.Object? && forall k :: k in keys ==> k in UnionKeys(l, r)
    requires c in DiffKeys("", keys, l, r)
    ensures k in keys && c in DiffKey("", k, l, r)
    decreases |keys|
  {
    hide DiffKey;
    k := keys[0];
    if c !in DiffKey("", k, l, r) {
      k := ChangeOfKey(keys[1..], l, r, c);
    }
  }

  lemma {:induction false} ChangeOfKeyReports(k: string, l: Value, r: Value, c: Change)
    requires l.Object? && r.Object? && Plain(l) && Plain(r) && k in UnionKeys(l, r)
    requires c in DiffKey("", k, l, r)
    ensures Reports(c, l, r)
    decreases l, 0
  {
    hide Canon, DiffFields;
    assert PlainKey(k);
    SplitPlainKey(k);
    assert At(l, [k]) == if k in l.fields then l.fields[k] else Null;
    assert At(r, [k]) == if k in r.fields then r.fields[k] else Null;
    if k in l.fields && k in r.fields {
      var a, b := l.fields[k], r.fields[k];
      if Canon(a) != Canon(b) && a.Object? && b.Object? {
        PrefixedFields(k, a, b);
        var d := BelowMember(k, DiffFields("", a, b), c);
        ChangesReportValues(a, b, d);
        SplitDotted(k, d.path);
        assert ([k] + Split(d.path))[1..] == Split(d.path);
      }
    }
  }

  // ---------- the order of the changes ----------

  /** Changes come in the order of the top-level keys they are about. */
  lemma ChangesAreInKeyOrder(l: Value, r: Value)
    requires l.Object? && r.Object? && Plain(l) && Plain(r)
    ensures var cs := DiffFields("", l, r);
            forall i, j :: 0 <= i < j < |cs| ==> Leq(Split(cs[i].path)[0], Split(cs[j].path)[0])
  {
    hide DiffKeys, Split, Leq, Plain, StrictlySorted;
    KeysInOrder(SortedKeys(UnionKeys(l, r)), l, r);
  }

  lemma {:induction false} KeysInOrder(keys: seq<string>, l: Value, r: Value)
    requires l.Object? && r.Object? && Plain(l) && Plain(r)
    requires StrictlySorted(keys) && forall k :: k in keys ==> k in UnionKeys(l, r)
    ensures var cs := DiffKeys("", keys, l, r);
            && (forall c :: c in cs ==> Split(c.path)[0] in keys)
            && forall i, j :: 0 <= i < j < |cs| ==> Leq(Split(cs[i].path)[0], Split(cs[j].path)[0])
    decreases |keys|
  {
    if keys != [] {
      KeysInOrder(keys[1..], l, r);
      var first, rest := DiffKey("", keys[0], l, r), DiffKeys("", keys[1..], l, r);
      forall c | c in first ensures Split(c.path)[0] == keys[0] { HeadOfChange(keys[0], l, r, c); }
      forall k | k in keys[1..] ensures Leq(keys[0], k) { }
      LeqReflexive(keys[0]);
      hide DiffKey, Split, Leq, Plain, StrictlySorted;
      assert DiffKeys("", keys, l, r) == first + rest;
    }
  }

  lemma HeadOfChange(k: string, l: Value, r: Value, c: Change)
    requires l.Object? && r.Object? && Plain(l) && Plain(r) && k in UnionKeys(l, r) && c in DiffKey("", k, l, r)
    ensures Split(c.path)[0] == k
  {
    hide Canon, DiffFields;
    assert PlainKey(k);
    SplitPlainKey(k);
    if k in l.fields && k in r.fields && l.fields[k].Object? && r.fields[k].Object? {
      PrefixedFields(k, l.fields[k], r.fields[k]);
      var d := BelowMember(k, DiffFields("", l.fields[k], r.fields[k]), c);
      SplitDotted(k, d.path);
    }
  }
}
