/**
 The order that formatting gives: elements of a list by their sort keys, pairs of an object by the schema
 (internal/format/formatter.go).
*/
module FormatterOrder {
  import opened Text
  import opened Formatter

  // ---------- the order of texts ----------

  /** One text begins the other, or at the first difference has the smaller character. */
  lemma {:induction false} LeqExactly(a: string, b: string)
    ensures Leq(a, b) <==> a <= b || exists k :: SmallerAt(a, b, k)
  {
    if a != "" && b != "" {
      if a[0] == b[0] {
        LeqExactly(a[1..], b[1..]);
        BeginsTail(a, b);
        if k :| SmallerAt(a, b, k) { SmallerTail(a, b, k - 1); }
        if k :| SmallerAt(a[1..], b[1..], k) { SmallerTail(a, b, k); }
      } else {
        if a[0] < b[0] { assert SmallerAt(a, b, 0); }
        if k :| SmallerAt(a, b, k) { assert k > 0 ==> a[..k][0] == b[..k][0]; }
      }
    }
  }

  ghost predicate SmallerAt(a: string, b: string, k: int) {
    0 <= k < |a| && k < |b| && a[..k] == b[..k] && a[k] < b[k]
  }

  lemma BeginsTail(a: string, b: string)
    requires a != "" && b != "" && a[0] == b[0]
    ensures a <= b <==> a[1..] <= b[1..]
  {
    assert a == [a[0]] + a[1..] && b == [b[0]] + b[1..];
  }

  lemma SmallerTail(a: string, b: string, k: int)
    requires a != "" && b != "" && a[0] == b[0]
    ensures SmallerAt(a, b, k + 1) <==> SmallerAt(a[1..], b[1..], k)
  {
    if 0 <= k < |a| - 1 && k < |b| - 1 {
      assert a[..k + 1] == [a[0]] + a[1..][..k] && b[..k + 1] == [b[0]] + b[1..][..k];
    } else if k == -1 {
      assert !SmallerAt(a, b, 0);
    }
  }

  // ---------- the sort key of an element ----------

  /** The pair is an id, name, slug or key, in any case, with a nonempty scalar. */
  ghost predicate IsKey(p: Pair, s: Strings) {
    && p.value.Scalar? && s.text(p.value.token) != ""
    && (s.lower(p.key) == "id" || s.lower(p.key) == "name" || s.lower(p.key) == "slug" || s.lower(p.key) == "key")
  }

  /** The sort key of an object is the first such pair's scalar in lower case; other elements have none. */
  lemma {:induction false} KeyExactly(pairs: seq<Pair>, s: Strings)
    ensures KeyOf(pairs, s).None? <==> forall p :: p in pairs ==> !IsKey(p, s)
    ensures forall i :: 0 <= i < |pairs| && IsKey(pairs[i], s) && (forall j :: 0 <= j < i ==> !IsKey(pairs[j], s)) ==>
              KeyOf(pairs, s) == Some(s.lower(s.text(pairs[i].value.token)))
  {
    if pairs != [] {
      KeyExactly(pairs[1..], s);
      assert pairs == [pairs[0]] + pairs[1..];
      forall i | 0 <= i < |pairs| && IsKey(pairs[i], s) && (forall j :: 0 <= j < i ==> !IsKey(pairs[j], s))
        ensures KeyOf(pairs, s) == Some(s.lower(s.text(pairs[i].value.token)))
      {
        if i > 0 {
          assert !IsKey(pairs[0], s) && pairs[1..][i - 1] == pairs[i];
          assert forall j :: 0 <= j < i - 1 ==> pairs[1..][j] == pairs[j + 1];
        }
      }
    }
  }

  /** The sort key of an element, if it is an object that has one. */
  ghost function SortKey(n: Node, s: Strings): Option<string> {
    if n.Mapping? then KeyOf(n.pairs, s) else None
  }

  /** The elements with the given sort key, in order. */
  ghost function WithKey(xs: seq<Node>, key: Option<string>, s: Strings): seq<Node> {
    if xs == [] then [] else (if SortKey(xs[0], s) == key then [xs[0]] else []) + WithKey(xs[1..], key, s)
  }

  /**
   Sorting puts elements with sort keys first, in the order of the keys, and keeps the order of elements with
   equal keys.
  */
  lemma SortExactly(xs: seq<Node>, s: Strings, key: Option<string>)
    ensures var r := SortNodes(xs, s);
            && multiset(r) == multiset(xs) && WithKey(r, key, s) == WithKey(xs, key, s)
            && forall i, j :: 0 <= i < j < |r| && SortKey(r[j], s).Some? ==>
                 SortKey(r[i], s).Some? && Leq(SortKey(r[i], s).value, SortKey(r[j], s).value)
  {
    SortNodesIsSorted(xs, s);
    SortIsStable(xs, s, key);
    var r := SortNodes(xs, s);
    forall i, j | 0 <= i < j < |r| && SortKey(r[j], s).Some?
      ensures SortKey(r[i], s).Some? && Leq(SortKey(r[i], s).value, SortKey(r[j], s).value)
    {
      assert RankLeq(Rank(r[i], s), Rank(r[j], s));
    }
  }

  lemma {:induction false} SortIsStable(xs: seq<Node>, s: Strings, key: Option<string>)
    ensures WithKey(SortNodes(xs, s), key, s) == WithKey(xs, key, s)
  {
    if xs != [] {
      SortIsStable(xs[1..], s, key);
      InsertIsStable(xs[0], SortNodes(xs[1..], s), s, key);
      assert ([xs[0]] + SortNodes(xs[1..], s))[1..] == SortNodes(xs[1..], s);
    }
  }

  lemma {:induction false} InsertIsStable(x: Node, xs: seq<Node>, s: Strings, key: Option<string>)
    ensures WithKey(InsertNode(x, xs, s), key, s) == WithKey([x] + xs, key, s)
  {
    assert ([x] + xs)[1..] == xs;
    if xs != [] && !RankLeq(Rank(x, s), Rank(xs[0], s)) {
      InsertIsStable(x, xs[1..], s, key);
      var h, rest := xs[0], InsertNode(x, xs[1..], s);
      assert ([h] + rest)[1..] == rest && ([x] + xs[1..])[1..] == xs[1..];
      LeqReflexive(if Rank(x, s).Some? then Rank(x, s).value else "");
      assert Rank(x, s) != Rank(h, s);
      hide InsertNode, RankLeq, KeyOf;
      assert SortKey(x, s) != key || SortKey(h, s) != key;
    }
  }

  // ---------- the order of pairs ----------

  ghost function KeysOf(ps: seq<Pair>): seq<string> {
    if ps == [] then [] else [ps[0].key] + KeysOf(ps[1..])
  }

  /** The names of the fields that are among the keys, in field order and each once. */
  ghost function Present(fields: seq<Field>, keys: set<string>): seq<string> {
    if fields == [] then []
    else if fields[0].name in keys then [fields[0].name] + Present(fields[1..], keys - {fields[0].name})
    else Present(fields[1..], keys)
  }

  ghost predicate IsNamed(fields: seq<Field>, key: string) {
    exists f :: f in fields && f.name == key
  }

  /** The keys that no field names, in their own order. */
  ghost function Others(keys: seq<string>, fields: seq<Field>): seq<string> {
    if keys == [] then [] else (if IsNamed(fields, keys[0]) then [] else [keys[0]]) + Others(keys[1..], fields)
  }

  ghost predicate DistinctKeys(ps: seq<Pair>) {
    forall i, j :: 0 <= i < j < |ps| ==> ps[i].key != ps[j].key
  }

  ghost function KeySet(ps: seq<Pair>): set<string> {
    set p | p in ps :: p.key
  }

  /** The schema order: keys that fields name, in field order, and then the others in their own order. */
  lemma {:induction false} OrderExactly(ps: seq<Pair>, fields: seq<Field>)
    requires DistinctKeys(ps)
    ensures KeysOf(OrderPairs(ps, fields)) == Present(fields, KeySet(ps)) + Others(KeysOf(ps), fields)
    decreases |fields|
  {
    if fields == [] {
      NothingNamed(KeysOf(ps));
      assert [] + KeysOf(ps) == KeysOf(ps);
    } else {
      var i, name := IndexOf(ps, fields[0].name), fields[0].name;
      KeysAreKeys(ps);
      if i == |ps| {
        OrderExactly(ps, fields[1..]);
        OthersWithout(KeysOf(ps), fields);
        assert name !in KeySet(ps);
      } else {
        assert ps[i] in ps;
        WithoutKey(ps, i);
        OrderExactly(Without(ps, i), fields[1..]);
        OthersBut(ps, i, fields);
        FirstKey(Pair(ps[i].key, OrderNested(fields[0], ps[i].value)), OrderPairs(Without(ps, i), fields[1..]));
        hide OrderPairs, KeysOf, Others, Present;
        assert ([name] + Present(fields[1..], KeySet(ps) - {name})) + Others(KeysOf(ps), fields)
            == [name] + (Present(fields[1..], KeySet(ps) - {name}) + Others(KeysOf(ps), fields));
        assert Present(fields, KeySet(ps)) == [name] + Present(fields[1..], KeySet(ps) - {name}) by {
          PresentFirst(fields, KeySet(ps));
        }
        assert OrderPairs(ps, fields) == [Pair(ps[i].key, OrderNested(fields[0], ps[i].value))]
               + OrderPairs(Without(ps, i), fields[1..]) by {
          OrderFirst(ps, fields);
        }
      }
    }
  }

  lemma PresentFirst(fields: seq<Field>, keys: set<string>)
    requires fields != [] && fields[0].name in keys
    ensures Present(fields, keys) == [fields[0].name] + Present(fields[1..], keys - {fields[0].name})
  {
  }

  lemma OrderFirst(ps: seq<Pair>, fields: seq<Field>)
    requires fields != [] && IndexOf(ps, fields[0].name) < |ps|
    ensures var i := IndexOf(ps, fields[0].name);
            OrderPairs(ps, fields)
            == [Pair(ps[i].key, OrderNested(fields[0], ps[i].value))] + OrderPairs(Without(ps, i), fields[1..])
  {
    hide OrderNested;
  }

  lemma FirstKey(p: Pair, ps: seq<Pair>)
    ensures KeysOf([p] + ps) == [p.key] + KeysOf(ps)
  {
    assert ([p] + ps)[1..] == ps;
  }

  lemma {:induction false} KeysAreKeys(ps: seq<Pair>)
    ensures |KeysOf(ps)| == |ps| && forall i :: 0 <= i < |ps| ==> KeysOf(ps)[i] == ps[i].key
    ensures forall k :: k in KeysOf(ps) <==> k in KeySet(ps)
  {
    if ps != [] {
      KeysAreKeys(ps[1..]);
      assert ps == [ps[0]] + ps[1..];
    }
  }

  lemma {:induction false} NothingNamed(keys: seq<string>)
    ensures Others(keys, []) == keys
  {
    if keys != [] {
      NothingNamed(keys[1..]);
      assert [keys[0]] + keys[1..] == keys;
    }
  }

  /** A field whose name is not among the keys does not matter. */
  lemma {:induction false} OthersWithout(keys: seq<string>, fields: seq<Field>)
    requires fields != [] && fields[0].name !in keys
    ensures Others(keys, fields) == Others(keys, fields[1..])
  {
    if keys != [] {
      OthersWithout(keys[1..], fields);
      NamedTail(fields, keys[0]);
    }
  }

  lemma NamedTail(fields: seq<Field>, key: string)
    requires fields != []
    ensures IsNamed(fields, key) <==> fields[0].name == key || IsNamed(fields[1..], key)
  {
    assert fields == [fields[0]] + fields[1..];
  }

  lemma WithoutKey(ps: seq<Pair>, i: nat)
    requires DistinctKeys(ps) && i < |ps|
    ensures DistinctKeys(Without(ps, i)) && KeySet(Without(ps, i)) == KeySet(ps) - {ps[i].key}
  {
    var rest := Without(ps, i);
    assert forall j :: 0 <= j < |rest| ==> rest[j] == if j < i then ps[j] else ps[j + 1];
    forall p | p in ps && p.key != ps[i].key ensures p in rest {
      var j :| 0 <= j < |ps| && ps[j] == p;
      assert rest[if j < i then j else j - 1] == p;
    }
  }

  /** Taking out the pair of the first field leaves the others. */
  lemma {:induction false} OthersBut(ps: seq<Pair>, i: nat, fields: seq<Field>)
    requires DistinctKeys(ps) && i < |ps| && fields != [] && fields[0].name == ps[i].key
    ensures Others(KeysOf(Without(ps, i)), fields[1..]) == Others(KeysOf(ps), fields)
    decreases |ps|
  {
    KeysAreKeys(ps[1..]);
    NamedTail(fields, ps[0].key);
    if i == 0 {
      FirstIsNamed(ps, fields);
    } else {
      var rest := ps[1..];
      assert DistinctKeys(rest) && rest[i - 1] == ps[i] && ps[0].key != ps[i].key;
      OthersBut(rest, i - 1, fields);
      assert Without(ps, i) == [ps[0]] + Without(rest, i - 1);
      hide *;
      FirstKey(ps[0], Without(rest, i - 1));
      OthersFirst(ps[0].key, KeysOf(Without(rest, i - 1)), fields[1..]);
      OthersFirst(ps[0].key, KeysOf(rest), fields);
      FirstKey(ps[0], rest);
      assert ps == [ps[0]] + rest;
    }
  }

  lemma {:induction false} FirstIsNamed(ps: seq<Pair>, fields: seq<Field>)
    requires DistinctKeys(ps) && ps != [] && fields != [] && fields[0].name == ps[0].key
    ensures Others(KeysOf(Without(ps, 0)), fields[1..]) == Others(KeysOf(ps), fields)
  {
    var rest := ps[1..];
    assert Without(ps, 0) == rest && IsNamed(fields, ps[0].key);
    KeysAreKeys(rest);
    assert ps[0].key !in KeysOf(rest);
    hide IsNamed;
    OthersWithout(KeysOf(rest), fields);
    assert [] + Others(KeysOf(rest), fields) == Others(KeysOf(rest), fields);
  }

  lemma OthersFirst(key: string, keys: seq<string>, fields: seq<Field>)
    ensures Others([key] + keys, fields) == (if IsNamed(fields, key) then [] else [key]) + Others(keys, fields)
  {
    hide IsNamed;
    assert ([key] + keys)[1..] == keys;
  }

  // ---------- what stands in the pairs ----------

  ghost function FirstNamed(fields: seq<Field>, key: string): Option<Field> {
    if fields == [] then None else if fields[0].name == key then Some(fields[0]) else FirstNamed(fields[1..], key)
  }

  /** Every pair is there with its value, which the first field of its name may have put in order. */
  lemma {:induction false} ValuesExactly(ps: seq<Pair>, fields: seq<Field>, q: Pair)
    requires DistinctKeys(ps) && q in ps
    ensures var f := FirstNamed(fields, q.key);
            Pair(q.key, if f.Some? then OrderNested(f.value, q.value) else q.value) in OrderPairs(ps, fields)
    decreases |fields|
  {
    if fields != [] {
      var i := IndexOf(ps, fields[0].name);
      if i < |ps| {
        OrderFirst(ps, fields);
        WithoutKey(ps, i);
        hide OrderPairs, OrderNested;
        var j :| 0 <= j < |ps| && ps[j] == q;
        if j != i {
          assert Without(ps, i)[if j < i then j else j - 1] == q && q.key != ps[i].key;
          ValuesExactly(Without(ps, i), fields[1..], q);
        }
      } else {
        ValuesExactly(ps, fields[1..], q);
      }
    }
  }

  /**
   A field that lists fields of its own puts its object in their order, and so each object of a list if it is
   repeated.
  */
  lemma NestedExactly(field: Field, v: Node)
    ensures field.nested.Flat? || v.Scalar? ==> OrderNested(field, v) == v
    ensures field.nested.Nested? && v.Mapping? ==>
            OrderNested(field, v) == Mapping(OrderPairs(v.pairs, field.nested.fields))
    ensures field.nested.Nested? && v.Sequence? && !field.repeated ==> OrderNested(field, v) == v
    ensures field.nested.Nested? && v.Sequence? && field.repeated ==>
              && OrderNested(field, v).Sequence?
              && ElementsOrdered(v.items, OrderNested(field, v).items, field.nested.fields)
  {
    hide OrderPairs;
  }

  /** Each object is put in the order of the fields; other elements stay as they are. */
  ghost predicate ElementsOrdered(xs: seq<Node>, ys: seq<Node>, fields: seq<Field>) {
    && |ys| == |xs|
    && forall i :: 0 <= i < |xs| ==>
         ys[i] == if xs[i].Mapping? then Mapping(OrderPairs(xs[i].pairs, fields)) else xs[i]
  }

  /**
   The schema is that of the elements if the root has a list of items, and else of the root, whose type then
   comes first.
  */
  lemma RootExactly(root: Node, schema: seq<Field>)
    ensures ApplySchema(root, None) == root
    ensures !root.Mapping? ==> ApplySchema(root, Some(schema)) == root
    ensures root.Mapping? ==>
              var at, r := IndexOf(root.pairs, "items"), ApplySchema(root, Some(schema));
              && r.Mapping?
              && if at < |root.pairs| && root.pairs[at].value.Sequence? then
                   && |r.pairs| == |root.pairs| && (forall i :: 0 <= i < |r.pairs| && i != at ==>
                                                    r.pairs[i] == root.pairs[i])
                   && r.pairs[at].key == "items" && r.pairs[at].value.Sequence?
                   && ElementsOrdered(root.pairs[at].value.items, r.pairs[at].value.items, schema)
                 else
                   && r.pairs == OrderPairs(root.pairs, [Field("type", false, Flat)] + schema)
                   && (DistinctKeys(root.pairs) && "type" in KeySet(root.pairs) ==>
                       KeysOf(r.pairs) != [] && KeysOf(r.pairs)[0] == "type")
  {
    if root.Mapping? {
      var at := IndexOf(root.pairs, "items");
      if at < |root.pairs| && root.pairs[at].value.Sequence? {
        hide OrderPairs;
      } else if DistinctKeys(root.pairs) && "type" in KeySet(root.pairs) {
        OrderExactly(root.pairs, [Field("type", false, Flat)] + schema);
        PresentFirst([Field("type", false, Flat)] + schema, KeySet(root.pairs));
        hide OrderPairs, Present, Others, KeysOf;
      }
    }
  }
}
