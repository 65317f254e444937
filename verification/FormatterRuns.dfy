/**
 How many runs of the formatter a document needs: two always suffice, and one does exactly when the
 schema order agrees with the sort keys of the document as given (internal/format/formatter.go).
*/
module FormatterRuns {
  import opened Text
  import opened Formatter

  // ---------- when one run is enough ----------

  /** Every `items` list is in order. */
  ghost predicate ItemsSorted(n: Node, s: Strings) {
    match n
    case Scalar(_) => true
    case Sequence(items) => forall x :: x in items ==> ItemsSorted(x, s)
    case Mapping(pairs) => forall p :: p in pairs ==> SlotSorted(p, s)
  }

  ghost predicate SlotSorted(p: Pair, s: Strings) {
    ItemsSorted(p.value, s) && (s.isItems(p.key) && p.value.Sequence? ==> RankSorted(p.value.items, s))
  }

  /** The first pass leaves alone exactly the documents whose items are sorted. */
  lemma {:induction false} ReorderFixpoint(n: Node, s: Strings)
    ensures Reorder(n, s) == n <==> ItemsSorted(n, s)
    decreases n, 0
  {
    match n {
      case Scalar(_) =>
      case Sequence(items) =>
        var r := ReorderAll(items, s);
        forall x | x in items ensures Reorder(x, s) == x <==> ItemsSorted(x, s) { ReorderFixpoint(x, s); }
        if r == items {
          forall x | x in items ensures ItemsSorted(x, s) {
            var i :| 0 <= i < |items| && items[i] == x;
            assert r[i] == x;
          }
        }
        if ItemsSorted(n, s) {
          FixedIsFixedAll(items, s);
        }
      case Mapping(pairs) =>
        var r := ReorderPairs(pairs, s);
        forall p | p in pairs ensures ReorderValue(p.key, p.value, s) == p.value <==> SlotSorted(p, s) {
          SlotFixpoint(p, s);
        }
        if r == pairs {
          forall p | p in pairs ensures SlotSorted(p, s) {
            var i :| 0 <= i < |pairs| && pairs[i] == p;
            assert r[i] == p;
          }
        }
        if ItemsSorted(n, s) {
          forall i | 0 <= i < |pairs| ensures r[i] == pairs[i] {
            assert pairs[i] in pairs;
          }
        }
    }
  }

  lemma {:induction false} SlotFixpoint(p: Pair, s: Strings)
    ensures ReorderValue(p.key, p.value, s) == p.value <==> SlotSorted(p, s)
    decreases p, 0
  {
    if s.isItems(p.key) && p.value.Sequence? {
      forall x | x in p.value.items { ReorderFixpoint(x, s); }
      ItemsFixpoint(p.value.items, s);
    } else {
      ReorderFixpoint(p.value, s);
    }
  }

  lemma ItemsFixpoint(xs: seq<Node>, s: Strings)
    requires forall x :: x in xs ==> (Reorder(x, s) == x <==> ItemsSorted(x, s))
    ensures SortNodes(ReorderAll(xs, s), s) == xs <==> ItemsSorted(Sequence(xs), s) && RankSorted(xs, s)
  {
    hide Reorder, ItemsSorted, RankSorted;
    assert ItemsSorted(Sequence(xs), s) <==> forall x :: x in xs ==> ItemsSorted(x, s) by { SequenceSorted(xs, s); }
    var r := ReorderAll(xs, s);
    SortNodesIsSorted(r, s);
    SortNodesFixpoint(xs, s);
    if SortNodes(r, s) == xs {
      forall x | x in xs ensures Reorder(x, s) == x {
        assert x in multiset(SortNodes(r, s)) && x in multiset(r);
        var i :| 0 <= i < |r| && r[i] == x;
        ReorderTwice(xs[i], s);
      }
      FixedIsFixedAll(xs, s);
    }
    if forall x :: x in xs ==> Reorder(x, s) == x {
      FixedIsFixedAll(xs, s);
    }
  }

  lemma SequenceSorted(xs: seq<Node>, s: Strings)
    ensures ItemsSorted(Sequence(xs), s) <==> forall x :: x in xs ==> ItemsSorted(x, s)
  {
  }

  /** A second run changes nothing exactly when the first left every `items` list in order. */
  lemma OneRunIsEnough(root: Node, schema: Option<seq<Field>>, s: Strings)
    ensures var once := Format(root, schema, s);
            Format(once, schema, s) == once <==> ItemsSorted(once, s)
  {
    SecondRun(root, schema, s);
    ReorderFixpoint(Format(root, schema, s), s);
  }

  /** Putting fields in schema order keeps the sort key of the pairs and of all that lies below. */
  ghost predicate KeysSurvivePairs(ps: seq<Pair>, fields: seq<Field>, s: Strings)
    decreases fields, 1
  {
    fields != [] ==>
      var i := IndexOf(ps, fields[0].name);
      if i == |ps| then KeysSurvivePairs(ps, fields[1..], s)
      else KeysSurviveNested(fields[0], ps[i].value, s) && KeysSurvivePairs(Without(ps, i), fields[1..], s)
  }

  ghost predicate KeysSurviveNested(field: Field, v: Node, s: Strings)
    decreases field, 1
  {
    field.nested.Nested? ==>
      && (v.Mapping? ==> KeysSurvivePairs(v.pairs, field.nested.fields, s))
      && (v.Sequence? && field.repeated ==> KeysSurviveChildren(v.items, field.nested.fields, s))
  }

  ghost predicate KeysSurviveChildren(xs: seq<Node>, fields: seq<Field>, s: Strings)
    decreases fields, 2
  {
    forall x :: x in xs && x.Mapping? ==>
      KeyOf(OrderPairs(x.pairs, fields), s) == KeyOf(x.pairs, s) && KeysSurvivePairs(x.pairs, fields, s)
  }

  ghost predicate KeysSurvive(root: Node, schema: Option<seq<Field>>, s: Strings) {
    schema.Some? && root.Mapping? ==>
      var at := IndexOf(root.pairs, "items");
      if at < |root.pairs| && root.pairs[at].value.Sequence?
      then KeysSurviveChildren(root.pairs[at].value.items, schema.value, s)
      else KeysSurvivePairs(root.pairs, [TYPE_FIELD] + schema.value, s)
  }

  lemma {:induction false} OrderedPairsStaySorted(ps: seq<Pair>, fields: seq<Field>, s: Strings)
    requires (forall p :: p in ps ==> SlotSorted(p, s)) && KeysSurvivePairs(ps, fields, s)
    ensures forall p :: p in OrderPairs(ps, fields) ==> SlotSorted(p, s)
    decreases fields, 1
  {
    hide ItemsSorted, RankSorted;
    if fields != [] {
      var i := IndexOf(ps, fields[0].name);
      if i == |ps| {
        OrderedPairsStaySorted(ps, fields[1..], s);
      } else {
        assert ps[i] in ps && forall p :: p in Without(ps, i) ==> p in ps;
        NestedStaysSorted(fields[0], ps[i], s);
        OrderedPairsStaySorted(Without(ps, i), fields[1..], s);
      }
    }
  }

  lemma {:induction false} NestedStaysSorted(field: Field, p: Pair, s: Strings)
    requires SlotSorted(p, s) && KeysSurviveNested(field, p.value, s)
    ensures SlotSorted(Pair(p.key, OrderNested(field, p.value)), s)
    decreases field, 1
  {
    if field.nested.Nested? {
      if p.value.Mapping? {
        OrderedPairsStaySorted(p.value.pairs, field.nested.fields, s);
      } else if p.value.Sequence? && field.repeated {
        ChildrenStaySorted(p.value.items, field.nested.fields, s);
      }
    }
  }

  lemma {:induction false} ChildrenStaySorted(xs: seq<Node>, fields: seq<Field>, s: Strings)
    requires (forall x :: x in xs ==> ItemsSorted(x, s)) && KeysSurviveChildren(xs, fields, s)
    ensures var r := OrderChildren(xs, fields);
            && (forall x :: x in r ==> ItemsSorted(x, s))
            && (RankSorted(xs, s) ==> RankSorted(r, s))
    decreases fields, 2
  {
    var r := OrderChildren(xs, fields);
    forall i | 0 <= i < |xs| ensures ItemsSorted(r[i], s) && Rank(r[i], s) == Rank(xs[i], s) {
      assert xs[i] in xs;
      if xs[i].Mapping? {
        OrderedPairsStaySorted(xs[i].pairs, fields, s);
      }
    }
    if RankSorted(xs, s) {
      forall i, j | 0 <= i < j < |r| ensures RankLeq(Rank(r[i], s), Rank(r[j], s)) {
        assert RankLeq(Rank(xs[i], s), Rank(xs[j], s));
      }
    }
  }

  // ---------- the first pass does not decide whether keys survive ----------

  /** The same names in the same order, and the same scalars. */
  ghost predicate SameHeads(ps: seq<Pair>, qs: seq<Pair>) {
    && |ps| == |qs|
    && forall i :: 0 <= i < |ps| ==> SameHead(ps[i], qs[i])
  }

  ghost predicate SameHead(p: Pair, q: Pair) {
    p.key == q.key && (p.value.Scalar? <==> q.value.Scalar?) && (p.value.Scalar? ==> p.value == q.value)
  }

  lemma {:induction false} SameHeadsSameKey(ps: seq<Pair>, qs: seq<Pair>, s: Strings)
    requires SameHeads(ps, qs)
    ensures KeyOf(ps, s) == KeyOf(qs, s)
  {
    if ps != [] {
      assert SameHead(ps[0], qs[0]);
      assert forall i :: 0 <= i < |ps[1..]| ==> ps[1..][i] == ps[i + 1] && qs[1..][i] == qs[i + 1];
      SameHeadsSameKey(ps[1..], qs[1..], s);
    }
  }

  lemma {:induction false} SameHeadsSameIndex(ps: seq<Pair>, qs: seq<Pair>, name: string)
    requires SameHeads(ps, qs)
    ensures IndexOf(ps, name) == IndexOf(qs, name)
  {
    if ps != [] {
      assert SameHead(ps[0], qs[0]);
      assert forall i :: 0 <= i < |ps[1..]| ==> ps[1..][i] == ps[i + 1] && qs[1..][i] == qs[i + 1];
      SameHeadsSameIndex(ps[1..], qs[1..], name);
    }
  }

  lemma HeadsWithout(ps: seq<Pair>, qs: seq<Pair>, i: nat)
    requires SameHeads(ps, qs) && i < |ps|
    ensures SameHeads(Without(ps, i), Without(qs, i))
  {
    forall k | 0 <= k < |ps| - 1 ensures SameHead(Without(ps, i)[k], Without(qs, i)[k]) {
      assert SameHead(ps[if k < i then k else k + 1], qs[if k < i then k else k + 1]);
    }
  }

  lemma HeadsPrepend(p: Pair, q: Pair, ps: seq<Pair>, qs: seq<Pair>)
    requires SameHead(p, q) && SameHeads(ps, qs)
    ensures SameHeads([p] + ps, [q] + qs)
  {
    forall k | 0 <= k < |ps| + 1 ensures SameHead(([p] + ps)[k], ([q] + qs)[k]) {
      if k > 0 { assert SameHead(ps[k - 1], qs[k - 1]); }
    }
  }

  /** Schema order moves pairs with the same heads in the same way. */
  lemma {:induction false} OrderKeepsHeads(ps: seq<Pair>, qs: seq<Pair>, fields: seq<Field>)
    requires SameHeads(ps, qs)
    ensures SameHeads(OrderPairs(ps, fields), OrderPairs(qs, fields))
    decreases |fields|
  {
    if fields != [] {
      SameHeadsSameIndex(ps, qs, fields[0].name);
      var i := IndexOf(ps, fields[0].name);
      if i == |ps| {
        OrderKeepsHeads(ps, qs, fields[1..]);
      } else {
        assert SameHead(ps[i], qs[i]);
        HeadsWithout(ps, qs, i);
        OrderKeepsHeads(Without(ps, i), Without(qs, i), fields[1..]);
        HeadsPrepend(Pair(ps[i].key, OrderNested(fields[0], ps[i].value)),
                     Pair(qs[i].key, OrderNested(fields[0], qs[i].value)),
                     OrderPairs(Without(ps, i), fields[1..]), OrderPairs(Without(qs, i), fields[1..]));
      }
    }
  }

  lemma ReorderKeepsHeads(ps: seq<Pair>, s: Strings)
    ensures SameHeads(ReorderPairs(ps, s), ps)
  {
    forall i | 0 <= i < |ps| ensures SameHead(ReorderPairs(ps, s)[i], ps[i]) {
      KindKept(ps[i].key, ps[i].value, s);
    }
  }

  lemma ReorderedWithout(ps: seq<Pair>, i: nat, s: Strings)
    requires i < |ps|
    ensures Without(ReorderPairs(ps, s), i) == ReorderPairs(Without(ps, i), s)
  {
  }

  lemma {:induction false} PairsSurviveEither(ps: seq<Pair>, fields: seq<Field>, s: Strings)
    ensures KeysSurvivePairs(ReorderPairs(ps, s), fields, s) <==> KeysSurvivePairs(ps, fields, s)
    decreases fields, 1
  {
    if fields != [] {
      SameNames(ps, s, fields[0].name);
      var i := IndexOf(ps, fields[0].name);
      if i == |ps| {
        PairsSurviveEither(ps, fields[1..], s);
      } else {
        NestedSurvivesEither(fields[0], ps[i].key, ps[i].value, s);
        ReorderedWithout(ps, i, s);
        PairsSurviveEither(Without(ps, i), fields[1..], s);
      }
    }
  }

  lemma {:induction false} NestedSurvivesEither(field: Field, key: string, v: Node, s: Strings)
    ensures KeysSurviveNested(field, ReorderValue(key, v, s), s) <==> KeysSurviveNested(field, v, s)
    decreases field, 1
  {
    KindKept(key, v, s);
    if field.nested.Nested? {
      if v.Mapping? {
        PairsSurviveEither(v.pairs, field.nested.fields, s);
      } else if v.Sequence? {
        ChildrenSurviveEither(v.items, field.nested.fields, s);
      }
    }
  }

  /** Reordering each element, and then the list, leaves the answer for the list alone. */
  lemma {:induction false} ChildrenSurviveEither(xs: seq<Node>, fields: seq<Field>, s: Strings)
    ensures KeysSurviveChildren(ReorderAll(xs, s), fields, s) <==> KeysSurviveChildren(xs, fields, s)
    ensures KeysSurviveChildren(SortNodes(ReorderAll(xs, s), s), fields, s) <==> KeysSurviveChildren(xs, fields, s)
    decreases fields, 2
  {
    var done := ReorderAll(xs, s);
    forall i | 0 <= i < |xs| ensures ChildSurvives(done[i], fields, s) <==> ChildSurvives(xs[i], fields, s) {
      if xs[i].Mapping? {
        var ps := xs[i].pairs;
        PairsSurviveEither(ps, fields, s);
        ReorderKeepsHeads(ps, s);
        OrderKeepsHeads(ReorderPairs(ps, s), ps, fields);
        SameHeadsSameKey(OrderPairs(ReorderPairs(ps, s), fields), OrderPairs(ps, fields), s);
        KeyOfKept(ps, s);
      }
    }
    SameAnswers(xs, done, fields, s);
    SortNodesIsSorted(done, s);
    SameElements(SortNodes(done, s), done);
    SurviveByElement(xs, fields, s);
    SurviveByElement(done, fields, s);
    SurviveByElement(SortNodes(done, s), fields, s);
  }

  ghost predicate ChildSurvives(x: Node, fields: seq<Field>, s: Strings) {
    x.Mapping? ==> KeyOf(OrderPairs(x.pairs, fields), s) == KeyOf(x.pairs, s) && KeysSurvivePairs(x.pairs, fields, s)
  }

  lemma SurviveByElement(xs: seq<Node>, fields: seq<Field>, s: Strings)
    ensures KeysSurviveChildren(xs, fields, s) <==> forall x :: x in xs ==> ChildSurvives(x, fields, s)
  {
  }

  lemma SameAnswers(xs: seq<Node>, ys: seq<Node>, fields: seq<Field>, s: Strings)
    requires |xs| == |ys| && forall i :: 0 <= i < |xs| ==>
             (ChildSurvives(ys[i], fields, s) <==> ChildSurvives(xs[i], fields, s))
    ensures (forall y :: y in ys ==> ChildSurvives(y, fields, s)) <==>
            (forall x :: x in xs ==> ChildSurvives(x, fields, s))
  {
    hide ChildSurvives;
    if forall y :: y in ys ==> ChildSurvives(y, fields, s) {
      forall x | x in xs ensures ChildSurvives(x, fields, s) {
        var i :| 0 <= i < |xs| && xs[i] == x;
        assert ys[i] in ys;
      }
    }
    if forall x :: x in xs ==> ChildSurvives(x, fields, s) {
      forall y | y in ys ensures ChildSurvives(y, fields, s) {
        var i :| 0 <= i < |ys| && ys[i] == y;
        assert xs[i] in xs;
      }
    }
  }

  lemma SameElements(xs: seq<Node>, ys: seq<Node>)
    requires multiset(xs) == multiset(ys)
    ensures forall x :: x in xs <==> x in ys
  {
    assert forall x :: x in xs <==> x in multiset(xs);
    assert forall x :: x in ys <==> x in multiset(ys);
  }

  /** Whether the schema order keeps every sort key can be asked of the document as it is given. */
  lemma KeysSurviveEither(root: Node, schema: Option<seq<Field>>, s: Strings)
    ensures KeysSurvive(Reorder(root, s), schema, s) <==> KeysSurvive(root, schema, s)
  {
    if schema.Some? && root.Mapping? {
      var ps := root.pairs;
      SameNames(ps, s, "items");
      var at := IndexOf(ps, "items");
      if at < |ps| { KindKept(ps[at].key, ps[at].value, s); }
      if at < |ps| && ps[at].value.Sequence? {
        ChildrenSurviveEither(ps[at].value.items, schema.value, s);
      } else {
        PairsSurviveEither(ps, [TYPE_FIELD] + schema.value, s);
      }
    }
  }

  /**
   What a caller can check: when the schema order changes no element's first id, name, slug or
   key field, a single run already gives the final form.
  */
  lemma StableKeysNeedOneRun(root: Node, schema: Option<seq<Field>>, s: Strings)
    requires KeysSurvive(root, schema, s)
    ensures var once := Format(root, schema, s);
            Format(once, schema, s) == once
  {
    KeysSurviveEither(root, schema, s);
    ReorderTwice(root, s);
    ReorderFixpoint(Reorder(root, s), s);
    SchemaStaysSorted(Reorder(root, s), schema, s);
    OneRunIsEnough(root, schema, s);
  }

  lemma SchemaStaysSorted(y: Node, schema: Option<seq<Field>>, s: Strings)
    requires ItemsSorted(y, s) && KeysSurvive(y, schema, s)
    ensures ItemsSorted(ApplySchema(y, schema), s)
  {
    if schema.Some? && y.Mapping? {
      var ps, at := y.pairs, IndexOf(y.pairs, "items");
      if at < |ps| && ps[at].value.Sequence? {
        assert ps[at] in ps && SlotSorted(ps[at], s);
        SequenceSorted(ps[at].value.items, s);
        ChildrenStaySorted(ps[at].value.items, schema.value, s);
        var p := Pair("items", Sequence(OrderChildren(ps[at].value.items, schema.value)));
        SequenceSorted(p.value.items, s);
        hide ItemsSorted, RankSorted;
        assert SlotSorted(p, s);
        forall q | q in ps[at := p] ensures SlotSorted(q, s) {
          assert q == p || q in ps;
        }
        MappingSorted(ps[at := p], s);
      } else {
        OrderedPairsStaySorted(ps, [TYPE_FIELD] + schema.value, s);
      }
    }
  }

  lemma MappingSorted(ps: seq<Pair>, s: Strings)
    requires forall p :: p in ps ==> SlotSorted(p, s)
    ensures ItemsSorted(Mapping(ps), s)
  {
  }

  // ---------- exactly when one run is enough ----------

  /** The sort key an element has once its fields are in schema order. */
  function NewRank(x: Node, fields: seq<Field>, s: Strings): Option<string> {
    Rank(OrderChild(x, fields), s)
  }

  /** For x before y: whichever the sort puts first by the old keys comes first by the new keys too. */
  predicate Fits(x: Node, y: Node, fields: seq<Field>, s: Strings) {
    if RankLeq(Rank(x, s), Rank(y, s)) then RankLeq(NewRank(x, fields, s), NewRank(y, fields, s))
    else RankLeq(NewRank(y, fields, s), NewRank(x, fields, s))
  }

  /** The old and the new sort keys order every two elements of the list alike. */
  ghost predicate Concordant(xs: seq<Node>, fields: seq<Field>, s: Strings) {
    forall i, j :: 0 <= i < j < |xs| ==> Fits(xs[i], xs[j], fields, s)
  }

  /** So it is in every items list that the schema reaches. */
  ghost predicate AgreePairs(ps: seq<Pair>, fields: seq<Field>, s: Strings)
    decreases fields, 1
  {
    fields != [] ==>
      var i := IndexOf(ps, fields[0].name);
      if i == |ps| then AgreePairs(ps, fields[1..], s)
      else AgreeNested(fields[0], ps[i].key, ps[i].value, s) && AgreePairs(Without(ps, i), fields[1..], s)
  }

  ghost predicate AgreeNested(field: Field, key: string, v: Node, s: Strings)
    decreases field, 1
  {
    field.nested.Nested? ==>
      && (v.Mapping? ==> AgreePairs(v.pairs, field.nested.fields, s))
      && (v.Sequence? && field.repeated ==>
            && AgreeChildren(v.items, field.nested.fields, s)
            && (s.isItems(key) ==> Concordant(v.items, field.nested.fields, s)))
  }

  ghost predicate AgreeChildren(xs: seq<Node>, fields: seq<Field>, s: Strings)
    decreases fields, 2
  {
    forall x :: x in xs && x.Mapping? ==> AgreePairs(x.pairs, fields, s)
  }

  ghost predicate KeysAgree(root: Node, schema: Option<seq<Field>>, s: Strings) {
    schema.Some? && root.Mapping? ==>
      var at := IndexOf(root.pairs, "items");
      if at < |root.pairs| && root.pairs[at].value.Sequence? then
        var xs := root.pairs[at].value.items;
        AgreeChildren(xs, schema.value, s) && (s.isItems("items") ==> Concordant(xs, schema.value, s))
      else AgreePairs(root.pairs, [TYPE_FIELD] + schema.value, s)
  }

  // ---------- agreement does not depend on the first pass ----------

  lemma ConcordantCons(x: Node, xs: seq<Node>, fields: seq<Field>, s: Strings)
    ensures Concordant([x] + xs, fields, s) <==>
            Concordant(xs, fields, s) && forall y :: y in xs ==> Fits(x, y, fields, s)
  {
    hide Fits;
    var all := [x] + xs;
    assert forall i :: 0 <= i < |xs| ==> all[i + 1] == xs[i];
    if Concordant(all, fields, s) {
      forall i, j | 0 <= i < j < |xs| ensures Fits(xs[i], xs[j], fields, s) {
        assert Fits(all[i + 1], all[j + 1], fields, s);
      }
      forall y | y in xs ensures Fits(x, y, fields, s) {
        var j :| 0 <= j < |xs| && xs[j] == y;
        assert Fits(all[0], all[j + 1], fields, s);
      }
    }
    if Concordant(xs, fields, s) && forall y :: y in xs ==> Fits(x, y, fields, s) {
      forall i, j | 0 <= i < j < |all| ensures Fits(all[i], all[j], fields, s) {
        if i == 0 { assert xs[j - 1] in xs; } else { assert Fits(xs[i - 1], xs[j - 1], fields, s); }
      }
    }
  }

  lemma FitsTurned(x: Node, y: Node, fields: seq<Field>, s: Strings)
    requires !RankLeq(Rank(x, s), Rank(y, s))
    ensures Fits(x, y, fields, s) <==> Fits(y, x, fields, s)
  {
    RankTotal(Rank(x, s), Rank(y, s));
  }

  /** Moving an element to its place by the old keys changes no pair's answer. */
  lemma {:induction false} InsertStaysConcordant(x: Node, xs: seq<Node>, fields: seq<Field>, s: Strings)
    ensures Concordant(InsertNode(x, xs, s), fields, s) <==> Concordant([x] + xs, fields, s)
  {
    if xs != [] && !RankLeq(Rank(x, s), Rank(xs[0], s)) {
      hide Fits, Concordant, Rank, RankLeq;
      var h, rest := xs[0], xs[1..];
      InsertStaysConcordant(x, rest, fields, s);
      FitsTurned(x, h, fields, s);
      assert [h] + rest == xs;
      InsertNodeElements(x, rest, s);
      TailElements([x] + rest);
      SameElements(InsertNode(x, rest, s), [x] + rest);
      ConcordantCons(h, InsertNode(x, rest, s), fields, s);
      ConcordantCons(x, rest, fields, s);
      ConcordantCons(x, xs, fields, s);
      ConcordantCons(h, rest, fields, s);
    }
  }

  lemma {:induction false} SortStaysConcordant(xs: seq<Node>, fields: seq<Field>, s: Strings)
    ensures Concordant(SortNodes(xs, s), fields, s) <==> Concordant(xs, fields, s)
  {
    if xs != [] {
      hide Concordant, InsertNode;
      var rest := xs[1..];
      SortStaysConcordant(rest, fields, s);
      SortNodesIsSorted(rest, s);
      SameElements(SortNodes(rest, s), rest);
      InsertStaysConcordant(xs[0], SortNodes(rest, s), fields, s);
      ConsStaysConcordant(xs[0], SortNodes(rest, s), rest, fields, s);
      assert [xs[0]] + rest == xs;
    }
  }

  /** In front of the same elements a node fits or does not, whatever their order. */
  lemma ConsStaysConcordant(x: Node, xs: seq<Node>, ys: seq<Node>, fields: seq<Field>, s: Strings)
    requires (forall n :: n in xs <==> n in ys) && (Concordant(xs, fields, s) <==> Concordant(ys, fields, s))
    ensures Concordant([x] + xs, fields, s) <==> Concordant([x] + ys, fields, s)
  {
    hide *;
    ConcordantCons(x, xs, fields, s);
    ConcordantCons(x, ys, fields, s);
  }

  /** The first pass keeps both sort keys of an element. */
  lemma RanksKept(x: Node, fields: seq<Field>, s: Strings)
    ensures Rank(Reorder(x, s), s) == Rank(x, s) && NewRank(Reorder(x, s), fields, s) == NewRank(x, fields, s)
  {
    KindKept("", x, s);
    if x.Mapping? {
      KeyOfKept(x.pairs, s);
      ReorderKeepsHeads(x.pairs, s);
      OrderKeepsHeads(ReorderPairs(x.pairs, s), x.pairs, fields);
      SameHeadsSameKey(OrderPairs(ReorderPairs(x.pairs, s), fields), OrderPairs(x.pairs, fields), s);
    }
  }

  lemma ReorderStaysConcordant(xs: seq<Node>, fields: seq<Field>, s: Strings)
    ensures Concordant(ReorderAll(xs, s), fields, s) <==> Concordant(xs, fields, s)
  {
    var done := ReorderAll(xs, s);
    forall i | 0 <= i < |xs| ensures Rank(done[i], s) == Rank(xs[i], s)
        && NewRank(done[i], fields, s) == NewRank(xs[i], fields, s) {
      RanksKept(xs[i], fields, s);
    }
    hide Rank, RankLeq, NewRank;
    forall i, j | 0 <= i < j < |xs| ensures Fits(done[i], done[j], fields, s) <==> Fits(xs[i], xs[j], fields, s) { }
  }

  lemma {:induction false} PairsAgreeEither(ps: seq<Pair>, fields: seq<Field>, s: Strings)
    ensures AgreePairs(ReorderPairs(ps, s), fields, s) <==> AgreePairs(ps, fields, s)
    decreases fields, 1
  {
    if fields != [] {
      SameNames(ps, s, fields[0].name);
      var i := IndexOf(ps, fields[0].name);
      if i == |ps| {
        PairsAgreeEither(ps, fields[1..], s);
      } else {
        NestedAgreesEither(fields[0], ps[i].key, ps[i].value, s);
        ReorderedWithout(ps, i, s);
        PairsAgreeEither(Without(ps, i), fields[1..], s);
      }
    }
  }

  lemma {:induction false} NestedAgreesEither(field: Field, key: string, v: Node, s: Strings)
    ensures AgreeNested(field, key, ReorderValue(key, v, s), s) <==> AgreeNested(field, key, v, s)
    decreases field, 1
  {
    KindKept(key, v, s);
    if field.nested.Nested? {
      if v.Mapping? {
        PairsAgreeEither(v.pairs, field.nested.fields, s);
      } else if v.Sequence? {
        ChildrenAgreeEither(v.items, field.nested.fields, s);
        ReorderStaysConcordant(v.items, field.nested.fields, s);
        SortStaysConcordant(ReorderAll(v.items, s), field.nested.fields, s);
      }
    }
  }

  lemma {:induction false} ChildrenAgreeEither(xs: seq<Node>, fields: seq<Field>, s: Strings)
    ensures AgreeChildren(ReorderAll(xs, s), fields, s) <==> AgreeChildren(xs, fields, s)
    ensures AgreeChildren(SortNodes(ReorderAll(xs, s), s), fields, s) <==> AgreeChildren(xs, fields, s)
    decreases fields, 2
  {
    var done := ReorderAll(xs, s);
    forall i | 0 <= i < |xs| ensures ChildAgrees(done[i], fields, s) <==> ChildAgrees(xs[i], fields, s) {
      if xs[i].Mapping? { PairsAgreeEither(xs[i].pairs, fields, s); }
    }
    SameAgreement(xs, done, fields, s);
    SortNodesIsSorted(done, s);
    SameElements(SortNodes(done, s), done);
    AgreeByElement(xs, fields, s);
    AgreeByElement(done, fields, s);
    AgreeByElement(SortNodes(done, s), fields, s);
  }

  ghost predicate ChildAgrees(x: Node, fields: seq<Field>, s: Strings) {
    x.Mapping? ==> AgreePairs(x.pairs, fields, s)
  }

  lemma AgreeByElement(xs: seq<Node>, fields: seq<Field>, s: Strings)
    ensures AgreeChildren(xs, fields, s) <==> forall x :: x in xs ==> ChildAgrees(x, fields, s)
  {
  }

  lemma SameAgreement(xs: seq<Node>, ys: seq<Node>, fields: seq<Field>, s: Strings)
    requires |xs| == |ys| && forall i :: 0 <= i < |xs| ==>
             (ChildAgrees(ys[i], fields, s) <==> ChildAgrees(xs[i], fields, s))
    ensures (forall y :: y in ys ==> ChildAgrees(y, fields, s)) <==> (forall x :: x in xs ==> ChildAgrees(x, fields, s))
  {
    hide ChildAgrees;
    if forall y :: y in ys ==> ChildAgrees(y, fields, s) {
      forall x | x in xs ensures ChildAgrees(x, fields, s) {
        var i :| 0 <= i < |xs| && xs[i] == x;
        assert ys[i] in ys;
      }
    }
    if forall x :: x in xs ==> ChildAgrees(x, fields, s) {
      forall y | y in ys ensures ChildAgrees(y, fields, s) {
        var i :| 0 <= i < |ys| && ys[i] == y;
        assert xs[i] in xs;
      }
    }
  }

  lemma KeysAgreeEither(root: Node, schema: Option<seq<Field>>, s: Strings)
    ensures KeysAgree(Reorder(root, s), schema, s) <==> KeysAgree(root, schema, s)
  {
    if schema.Some? && root.Mapping? {
      var ps := root.pairs;
      SameNames(ps, s, "items");
      var at := IndexOf(ps, "items");
      if at < |ps| { KindKept(ps[at].key, ps[at].value, s); }
      if at < |ps| && ps[at].value.Sequence? {
        var xs := ps[at].value.items;
        ChildrenAgreeEither(xs, schema.value, s);
        ReorderStaysConcordant(xs, schema.value, s);
        SortStaysConcordant(ReorderAll(xs, s), schema.value, s);
      } else {
        PairsAgreeEither(ps, [TYPE_FIELD] + schema.value, s);
      }
    }
  }

  // ---------- agreement decides whether sorted lists stay sorted ----------

  /** In a list in order by the old keys, agreement is order by the new keys. */
  lemma ConcordantIsSorted(xs: seq<Node>, fields: seq<Field>, s: Strings)
    requires RankSorted(xs, s)
    ensures Concordant(xs, fields, s) <==> RankSorted(OrderChildren(xs, fields), s)
  {
    hide Rank, RankLeq, OrderChild;
    var r := OrderChildren(xs, fields);
    forall i, j | 0 <= i < j < |xs|
      ensures Fits(xs[i], xs[j], fields, s) <==> RankLeq(Rank(r[i], s), Rank(r[j], s))
    {
      assert RankLeq(Rank(xs[i], s), Rank(xs[j], s));
    }
  }

  lemma {:induction false} OrderedPairsSortedExactly(ps: seq<Pair>, fields: seq<Field>, s: Strings)
    requires forall p :: p in ps ==> SlotSorted(p, s)
    ensures (forall p :: p in OrderPairs(ps, fields) ==> SlotSorted(p, s)) <==> AgreePairs(ps, fields, s)
    decreases fields, 1
  {
    hide ItemsSorted, RankSorted, SlotSorted;
    if fields != [] {
      var i := IndexOf(ps, fields[0].name);
      if i == |ps| {
        OrderedPairsSortedExactly(ps, fields[1..], s);
      } else {
        assert ps[i] in ps && forall p :: p in Without(ps, i) ==> p in ps;
        NestedSortedExactly(fields[0], ps[i], s);
        OrderedPairsSortedExactly(Without(ps, i), fields[1..], s);
        InFront(Pair(ps[i].key, OrderNested(fields[0], ps[i].value)), OrderPairs(Without(ps, i), fields[1..]), s);
      }
    }
  }

  lemma InFront(p: Pair, ps: seq<Pair>, s: Strings)
    ensures (forall q :: q in [p] + ps ==> SlotSorted(q, s)) <==>
            SlotSorted(p, s) && forall q :: q in ps ==> SlotSorted(q, s)
  {
    hide SlotSorted;
    assert p in [p] + ps;
    assert forall q :: q in ps ==> q in [p] + ps;
  }

  lemma {:induction false} NestedSortedExactly(field: Field, p: Pair, s: Strings)
    requires SlotSorted(p, s)
    ensures SlotSorted(Pair(p.key, OrderNested(field, p.value)), s) <==> AgreeNested(field, p.key, p.value, s)
    decreases field, 1
  {
    if field.nested.Nested? {
      if p.value.Mapping? {
        OrderedPairsSortedExactly(p.value.pairs, field.nested.fields, s);
      } else if p.value.Sequence? && field.repeated {
        ChildrenSortedExactly(p.value.items, field.nested.fields, s);
        SequenceSorted(p.value.items, s);
        SequenceSorted(OrderChildren(p.value.items, field.nested.fields), s);
        if s.isItems(p.key) { ConcordantIsSorted(p.value.items, field.nested.fields, s); }
      }
    }
  }

  lemma {:induction false} ChildrenSortedExactly(xs: seq<Node>, fields: seq<Field>, s: Strings)
    requires forall x :: x in xs ==> ItemsSorted(x, s)
    ensures (forall x :: x in OrderChildren(xs, fields) ==> ItemsSorted(x, s)) <==> AgreeChildren(xs, fields, s)
    decreases fields, 2
  {
    var r := OrderChildren(xs, fields);
    forall i | 0 <= i < |xs| ensures ItemsSorted(r[i], s) <==> ChildAgrees(xs[i], fields, s) {
      assert xs[i] in xs;
      if xs[i].Mapping? {
        OrderedPairsSortedExactly(xs[i].pairs, fields, s);
        SortedByPair(xs[i].pairs, s);
        SortedByPair(OrderPairs(xs[i].pairs, fields), s);
      }
    }
    AgreeByElement(xs, fields, s);
    SortedLikeAgreement(xs, r, fields, s);
    hide *;
  }

  lemma SortedLikeAgreement(xs: seq<Node>, r: seq<Node>, fields: seq<Field>, s: Strings)
    requires |xs| == |r| && forall i :: 0 <= i < |xs| ==> (ItemsSorted(r[i], s) <==> ChildAgrees(xs[i], fields, s))
    ensures (forall x :: x in r ==> ItemsSorted(x, s)) <==> (forall x :: x in xs ==> ChildAgrees(x, fields, s))
  {
    hide ItemsSorted, ChildAgrees;
    if forall x :: x in r ==> ItemsSorted(x, s) {
      forall x | x in xs ensures ChildAgrees(x, fields, s) {
        var i :| 0 <= i < |xs| && xs[i] == x;
        assert r[i] in r;
      }
    }
    if forall x :: x in xs ==> ChildAgrees(x, fields, s) {
      forall x | x in r ensures ItemsSorted(x, s) {
        var i :| 0 <= i < |r| && r[i] == x;
        assert xs[i] in xs;
      }
    }
  }

  lemma SchemaSortedExactly(y: Node, schema: Option<seq<Field>>, s: Strings)
    requires ItemsSorted(y, s)
    ensures ItemsSorted(ApplySchema(y, schema), s) <==> KeysAgree(y, schema, s)
  {
    if schema.Some? && y.Mapping? {
      var ps, at := y.pairs, IndexOf(y.pairs, "items");
      if at < |ps| && ps[at].value.Sequence? {
        var xs := ps[at].value.items;
        assert ps[at] in ps && SlotSorted(ps[at], s);
        SequenceSorted(xs, s);
        ChildrenSortedExactly(xs, schema.value, s);
        if s.isItems("items") { ConcordantIsSorted(xs, schema.value, s); }
        var p := Pair("items", Sequence(OrderChildren(xs, schema.value)));
        SequenceSorted(p.value.items, s);
        MappingWith(ps, at, p, s);
      } else {
        OrderedPairsSortedExactly(ps, [TYPE_FIELD] + schema.value, s);
      }
    }
  }

  lemma SortedByPair(ps: seq<Pair>, s: Strings)
    ensures ItemsSorted(Mapping(ps), s) <==> forall p :: p in ps ==> SlotSorted(p, s)
  {
  }

  lemma MappingWith(ps: seq<Pair>, at: nat, p: Pair, s: Strings)
    requires at < |ps| && forall q :: q in ps ==> SlotSorted(q, s)
    ensures ItemsSorted(Mapping(ps[at := p]), s) <==> SlotSorted(p, s)
  {
    hide SlotSorted;
    assert ps[at := p][at] == p;
    if SlotSorted(p, s) {
      forall q | q in ps[at := p] ensures SlotSorted(q, s) { assert q == p || q in ps; }
    }
  }

  /**
   A second run changes nothing exactly when, in every items list of the given document that the schema
   reaches, the keys that elements have before and after the schema order put every two elements in the same order.
  */
  lemma OneRunExactly(root: Node, schema: Option<seq<Field>>, s: Strings)
    ensures var once := Format(root, schema, s);
            Format(once, schema, s) == once <==> KeysAgree(root, schema, s)
  {
    ReorderTwice(root, s);
    ReorderFixpoint(Reorder(root, s), s);
    SchemaSortedExactly(Reorder(root, s), schema, s);
    KeysAgreeEither(root, schema, s);
    OneRunIsEnough(root, schema, s);
  }

  // ---------- one run is not always enough ----------

  const PLAIN: Strings := Strings(x => x, k => k == "items", t => t)

  function Element(name: string, id: string): Node {
    Mapping([Pair("name", Scalar(name)), Pair("id", Scalar(id))])
  }

  function Turned(name: string, id: string): Node {
    Mapping([Pair("id", Scalar(id)), Pair("name", Scalar(name))])
  }

  const ID_FIRST: seq<Field> := [Field("id", false, Flat), Field("name", false, Flat)]

  lemma TurnedElement(name: string, id: string)
    ensures OrderPairs(Element(name, id).pairs, ID_FIRST) == Turned(name, id).pairs
  {
    var ps := Element(name, id).pairs;
    assert ps[1..] == [Pair("id", Scalar(id))] && IndexOf(ps, "id") == 1;
    assert Without(ps, 1) == [Pair("name", Scalar(name))];
    assert Without([Pair("name", Scalar(name))], 0) == [];
    assert ID_FIRST[1..] == [Field("name", false, Flat)] && ID_FIRST[1..][1..] == [];
  }

  function ItemsOf(x: Node, y: Node): Node {
    Mapping([Pair("items", Sequence([x, y]))])
  }

  lemma TwoItemsSorted(x: Node, y: Node)
    requires x.Mapping? && y.Mapping? && Rank(x, PLAIN).Some? && Rank(y, PLAIN).Some?
    requires (forall p :: p in x.pairs ==> p.value.Scalar?) && (forall p :: p in y.pairs ==> p.value.Scalar?)
    ensures ItemsSorted(ItemsOf(x, y), PLAIN) <==> Leq(Rank(x, PLAIN).value, Rank(y, PLAIN).value)
  {
    var xs := [x, y];
    ScalarsSorted(x);
    ScalarsSorted(y);
    SequenceSorted(xs, PLAIN);
    hide ItemsSorted, Rank, Leq;
    var slot := Pair("items", Sequence(xs));
    assert RankSorted(xs, PLAIN) <==> RankLeq(Rank(xs[0], PLAIN), Rank(xs[1], PLAIN));
    assert SlotSorted(slot, PLAIN) <==> RankSorted(xs, PLAIN);
    OneSlot(slot);
  }

  lemma ScalarsSorted(x: Node)
    requires x.Mapping? && forall p :: p in x.pairs ==> p.value.Scalar?
    ensures ItemsSorted(x, PLAIN)
  {
    forall p | p in x.pairs ensures SlotSorted(p, PLAIN) { }
  }

  lemma OneSlot(p: Pair)
    ensures ItemsSorted(Mapping([p]), PLAIN) <==> SlotSorted(p, PLAIN)
  {
    assert p in [p];
  }

  lemma TurnedItems()
    ensures ApplySchema(ItemsOf(Element("a", "2"), Element("b", "1")), Some(ID_FIRST))
            == ItemsOf(Turned("a", "2"), Turned("b", "1"))
  {
    hide OrderPairs;
    var xs, ys := [Element("a", "2"), Element("b", "1")], [Turned("a", "2"), Turned("b", "1")];
    TurnedElement("a", "2");
    TurnedElement("b", "1");
    assert OrderChildren(xs, ID_FIRST) == ys;
  }

  /** Elements are sorted by name first; the schema then puts the id first, and the next run sorts by that. */
  lemma OneRunCanBeTooFew()
    ensures var once := Format(ItemsOf(Element("a", "2"), Element("b", "1")), Some(ID_FIRST), PLAIN);
            Format(once, Some(ID_FIRST), PLAIN) != once
  {
    TwoItemsSorted(Element("a", "2"), Element("b", "1"));
    TwoItemsSorted(Turned("a", "2"), Turned("b", "1"));
    ReorderFixpoint(ItemsOf(Element("a", "2"), Element("b", "1")), PLAIN);
    TurnedItems();
    OneRunIsEnough(ItemsOf(Element("a", "2"), Element("b", "1")), Some(ID_FIRST), PLAIN);
  }
}
