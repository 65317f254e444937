/**
 The canonical layout of a data file (internal/format/formatter.go): one pass sorts the
 elements of every `items` list, a second pass puts fields in schema order.
*/
module Formatter {
  import opened Text

  /** A decoded document. A scalar carries its source token; keys are strings. */
  datatype Node =
    | Scalar(token: string)
    | Sequence(items: seq<Node>)
    | Mapping(pairs: seq<Pair>)

  datatype Pair = Pair(key: string, value: Node)

  /** String functions of the standard library that the formatter calls. */
  datatype Strings = Strings(
    lower: string -> string,   // lower case
    isItems: string -> bool,   // equal to "items" under case folding
    text: string -> string)    // the value a scalar token stands for

  // ---------- sort keys ----------

  const KEY_FIELDS: set<string> := {"id", "name", "slug", "key"}

  /** The value of the first id, name, slug or key field that is a nonempty scalar. */
  function KeyOf(pairs: seq<Pair>, s: Strings): Option<string> {
    if pairs == [] then None
    else if pairs[0].value.Scalar? && s.text(pairs[0].value.token) != "" && s.lower(pairs[0].key) in KEY_FIELDS
    then Some(s.lower(s.text(pairs[0].value.token)))
    else KeyOf(pairs[1..], s)
  }

  function Rank(n: Node, s: Strings): Option<string> {
    if n.Mapping? then KeyOf(n.pairs, s) else None
  }

  /** Elements with a key come first, by key. */
  predicate RankLeq(a: Option<string>, b: Option<string>) {
    b.None? || (a.Some? && Leq(a.value, b.value))
  }

  method ExtractMapSortKey(pairs: seq<Pair>, s: Strings) returns (key: string, hasKey: bool)
    ensures hasKey <==> KeyOf(pairs, s).Some?
    ensures hasKey ==> key == KeyOf(pairs, s).value
  {
    var fallback := "";
    for i := 0 to |pairs|
      invariant KeyOf(pairs, s) == KeyOf(pairs[i..], s)
    {
      assert pairs[i..][1..] == pairs[i + 1..];
      var val := pairs[i].value;
      if !val.Scalar? || s.text(val.token) == "" {
        continue;
      }
      var field := s.lower(pairs[i].key);
      if field in {"id", "name", "slug", "key"} {
        return s.lower(s.text(val.token)), true;
      } else if fallback == "" {
        fallback := s.lower(s.text(val.token));
      }
    }
    return fallback, false;
  }

  // ---------- sorting a list of elements ----------

  function InsertNode(x: Node, xs: seq<Node>, s: Strings): seq<Node> {
    if xs == [] || RankLeq(Rank(x, s), Rank(xs[0], s)) then [x] + xs
    else [xs[0]] + InsertNode(x, xs[1..], s)
  }

  /** The stable sort by rank. */
  function SortNodes(xs: seq<Node>, s: Strings): seq<Node> {
    if xs == [] then [] else InsertNode(xs[0], SortNodes(xs[1..], s), s)
  }

  ghost predicate RankSorted(xs: seq<Node>, s: Strings) {
    forall i, j :: 0 <= i < j < |xs| ==> RankLeq(Rank(xs[i], s), Rank(xs[j], s))
  }

  lemma RankTotal(a: Option<string>, b: Option<string>)
    ensures RankLeq(a, b) || RankLeq(b, a)
  {
    if a.Some? && b.Some? { LeqTotal(a.value, b.value); }
  }

  lemma RankTransitive(a: Option<string>, b: Option<string>, c: Option<string>)
    requires RankLeq(a, b) && RankLeq(b, c)
    ensures RankLeq(a, c)
  {
    if a.Some? && b.Some? && c.Some? { LeqTransitive(a.value, b.value, c.value); }
  }

  lemma {:induction false} InsertNodeElements(x: Node, xs: seq<Node>, s: Strings)
    ensures multiset(InsertNode(x, xs, s)) == multiset{x} + multiset(xs)
  {
    hide Rank, RankLeq;
    if xs != [] && !RankLeq(Rank(x, s), Rank(xs[0], s)) {
      InsertNodeElements(x, xs[1..], s);
      assert xs == [xs[0]] + xs[1..];
    }
  }

  lemma {:induction false} InsertNodeOrder(x: Node, xs: seq<Node>, s: Strings)
    requires RankSorted(xs, s)
    ensures RankSorted(InsertNode(x, xs, s), s)
  {
    hide Rank, RankLeq;
    if xs != [] && !RankLeq(Rank(x, s), Rank(xs[0], s)) {
      InsertNodeOrder(x, xs[1..], s);
      RankTotal(Rank(x, s), Rank(xs[0], s));
      InsertNodeElements(x, xs[1..], s);
      var rest := InsertNode(x, xs[1..], s);
      forall k | 0 <= k < |rest| ensures RankLeq(Rank(xs[0], s), Rank(rest[k], s)) {
        assert rest[k] in multiset(rest);
        assert rest[k] == x || rest[k] in xs[1..];
      }
    } else {
      forall k | 0 <= k < |xs| ensures RankLeq(Rank(x, s), Rank(xs[k], s)) {
        if k > 0 { RankTransitive(Rank(x, s), Rank(xs[0], s), Rank(xs[k], s)); }
      }
    }
  }

  lemma {:induction false} SortNodesIsSorted(xs: seq<Node>, s: Strings)
    ensures RankSorted(SortNodes(xs, s), s) && multiset(SortNodes(xs, s)) == multiset(xs)
  {
    if xs != [] {
      SortNodesIsSorted(xs[1..], s);
      InsertNodeOrder(xs[0], SortNodes(xs[1..], s), s);
      InsertNodeElements(xs[0], SortNodes(xs[1..], s), s);
      assert xs == [xs[0]] + xs[1..];
    }
  }

  /** Sorting changes nothing exactly when the list is sorted. */
  lemma {:induction false} SortNodesFixpoint(xs: seq<Node>, s: Strings)
    ensures SortNodes(xs, s) == xs <==> RankSorted(xs, s)
  {
    SortNodesIsSorted(xs, s);
    if RankSorted(xs, s) && xs != [] {
      SortNodesFixpoint(xs[1..], s);
      if |xs| > 1 { assert RankLeq(Rank(xs[0], s), Rank(xs[1], s)); }
    }
  }

  // ---------- first pass: reorder items ----------

  function Reorder(n: Node, s: Strings): Node
    decreases n, 1
  {
    match n
    case Scalar(_) => n
    case Sequence(items) => Sequence(ReorderAll(items, s))
    case Mapping(pairs) => Mapping(ReorderPairs(pairs, s))
  }

  function ReorderAll(xs: seq<Node>, s: Strings): (r: seq<Node>)
    ensures |r| == |xs|
    ensures forall i :: 0 <= i < |xs| ==> r[i] == Reorder(xs[i], s)
    decreases xs, 0
  {
    if xs == [] then [] else [Reorder(xs[0], s)] + ReorderAll(xs[1..], s)
  }

  function ReorderValue(key: string, v: Node, s: Strings): Node
    decreases v, 2
  {
    if s.isItems(key) && v.Sequence? then Sequence(SortNodes(ReorderAll(v.items, s), s))
    else Reorder(v, s)
  }

  function ReorderPairs(ps: seq<Pair>, s: Strings): (r: seq<Pair>)
    ensures |r| == |ps|
    ensures forall i :: 0 <= i < |ps| ==> r[i] == Pair(ps[i].key, ReorderValue(ps[i].key, ps[i].value, s))
    decreases ps, 0
  {
    if ps == [] then [] else [Pair(ps[0].key, ReorderValue(ps[0].key, ps[0].value, s))] + ReorderPairs(ps[1..], s)
  }

  // ---------- second pass: schema order ----------

  datatype Field = Field(name: string, repeated: bool, nested: Nested)

  /** The fields of an object-valued field, if the schema lists any. */
  datatype Nested = Flat | Nested(fields: seq<Field>)

  function IndexOf(ps: seq<Pair>, name: string): (i: nat)
    ensures i <= |ps|
    ensures i < |ps| ==> ps[i].key == name
    ensures forall j :: 0 <= j < i ==> ps[j].key != name
  {
    if ps == [] then 0 else if ps[0].key == name then 0 else 1 + IndexOf(ps[1..], name)
  }

  /** The pairs named by the fields, in field order, then the others in their own order. */
  function OrderPairs(ps: seq<Pair>, fields: seq<Field>): seq<Pair>
    decreases fields, 1
  {
    if fields == [] then ps
    else
      var i := IndexOf(ps, fields[0].name);
      if i == |ps| then OrderPairs(ps, fields[1..])
      else [Pair(ps[i].key, OrderNested(fields[0], ps[i].value))] + OrderPairs(Without(ps, i), fields[1..])
  }

  function OrderNested(field: Field, v: Node): Node
    decreases field, 1
  {
    if field.nested.Flat? then v
    else if v.Mapping? then Mapping(OrderPairs(v.pairs, field.nested.fields))
    else if v.Sequence? && field.repeated then Sequence(OrderChildren(v.items, field.nested.fields))
    else v
  }

  function OrderChild(n: Node, fields: seq<Field>): Node
    decreases fields, 2
  {
    if n.Mapping? then Mapping(OrderPairs(n.pairs, fields)) else n
  }

  function OrderChildren(xs: seq<Node>, fields: seq<Field>): (r: seq<Node>)
    ensures |r| == |xs|
    ensures forall i :: 0 <= i < |xs| ==> r[i] == OrderChild(xs[i], fields)
    decreases fields, 3, |xs|
  {
    if xs == [] then [] else [OrderChild(xs[0], fields)] + OrderChildren(xs[1..], fields)
  }

  const TYPE_FIELD := Field("type", false, Flat)

  /** The second pass, on the root of a document. */
  function ApplySchema(root: Node, schema: Option<seq<Field>>): Node {
    if schema.None? || !root.Mapping? then root
    else
      var at := IndexOf(root.pairs, "items");
      if at < |root.pairs| && root.pairs[at].value.Sequence? then
        Mapping(root.pairs[at := Pair("items", Sequence(OrderChildren(root.pairs[at].value.items, schema.value)))])
      else Mapping(OrderPairs(root.pairs, [TYPE_FIELD] + schema.value))
  }

  /** One run of the formatter on a decoded document. */
  function Format(root: Node, schema: Option<seq<Field>>, s: Strings): Node {
    ApplySchema(Reorder(root, s), schema)
  }

  // ---------- each pass is idempotent ----------

  lemma KindKept(key: string, v: Node, s: Strings)
    ensures v.Scalar? ==> ReorderValue(key, v, s) == v
    ensures ReorderValue(key, v, s).Scalar? <==> v.Scalar?
    ensures ReorderValue(key, v, s).Sequence? <==> v.Sequence?
    ensures ReorderValue(key, v, s).Mapping? <==> v.Mapping?
    ensures Reorder(v, s).Mapping? <==> v.Mapping?
  {
    match v {
      case Scalar(_) =>
      case Sequence(_) =>
      case Mapping(_) =>
    }
  }

  lemma KeyOfKept(ps: seq<Pair>, s: Strings)
    ensures KeyOf(ReorderPairs(ps, s), s) == KeyOf(ps, s)
  {
    if ps != [] {
      KeyOfKept(ps[1..], s);
      var v := ps[0].value;
      KindKept(ps[0].key, v, s);
      assert ReorderPairs(ps, s)[1..] == ReorderPairs(ps[1..], s);
    }
  }

  lemma FixedIsFixedAll(xs: seq<Node>, s: Strings)
    requires forall x :: x in xs ==> Reorder(x, s) == x
    ensures ReorderAll(xs, s) == xs
  {
  }

  lemma {:induction false} ReorderTwice(n: Node, s: Strings)
    ensures Reorder(Reorder(n, s), s) == Reorder(n, s)
    decreases n, 1
  {
    match n {
      case Scalar(_) =>
      case Sequence(items) => ReorderAllTwice(items, s);
      case Mapping(pairs) =>
        var r := ReorderPairs(pairs, s);
        forall i | 0 <= i < |pairs| ensures ReorderPairs(r, s)[i] == r[i] {
          ReorderValueTwice(pairs[i].key, pairs[i].value, s);
        }
        assert ReorderPairs(r, s) == r;
    }
  }

  lemma {:induction false} ReorderAllTwice(xs: seq<Node>, s: Strings)
    ensures ReorderAll(ReorderAll(xs, s), s) == ReorderAll(xs, s)
    decreases xs, 0
  {
    forall i | 0 <= i < |xs| { ReorderTwice(xs[i], s); }
  }

  lemma {:induction false} ReorderValueTwice(key: string, v: Node, s: Strings)
    ensures ReorderValue(key, ReorderValue(key, v, s), s) == ReorderValue(key, v, s)
    decreases v, 2
  {
    if s.isItems(key) && v.Sequence? {
      var done := ReorderAll(v.items, s);
      ReorderAllTwice(v.items, s);
      var sorted := SortNodes(done, s);
      SortNodesIsSorted(done, s);
      SortNodesFixpoint(sorted, s);
      forall x | x in sorted ensures Reorder(x, s) == x {
        assert x in multiset(sorted) && x in multiset(done);
        var i :| 0 <= i < |done| && done[i] == x;
        assert ReorderAll(done, s)[i] == x;
      }
      FixedIsFixedAll(sorted, s);
    } else {
      ReorderTwice(v, s);
    }
  }

  lemma {:induction false} OrderKeepsNames(ps: seq<Pair>, fields: seq<Field>, name: string)
    ensures IndexOf(ps, name) == |ps| ==>
              IndexOf(OrderPairs(ps, fields), name) == |OrderPairs(ps, fields)|
    decreases |fields|
  {
    if fields != [] && IndexOf(ps, name) == |ps| {
      var i := IndexOf(ps, fields[0].name);
      if i == |ps| {
        OrderKeepsNames(ps, fields[1..], name);
      } else {
        NotNamed(Without(ps, i), name);
        OrderKeepsNames(Without(ps, i), fields[1..], name);
        var rest := OrderPairs(Without(ps, i), fields[1..]);
        NotNamed([Pair(ps[i].key, OrderNested(fields[0], ps[i].value))] + rest, name);
      }
    }
  }

  lemma NotNamed(ps: seq<Pair>, name: string)
    ensures IndexOf(ps, name) == |ps| <==> forall j :: 0 <= j < |ps| ==> ps[j].key != name
  {
  }

  lemma {:induction false} OrderPairsTwice(ps: seq<Pair>, fields: seq<Field>)
    ensures OrderPairs(OrderPairs(ps, fields), fields) == OrderPairs(ps, fields)
    decreases fields, 1
  {
    if fields != [] {
      var i := IndexOf(ps, fields[0].name);
      if i == |ps| {
        OrderKeepsNames(ps, fields[1..], fields[0].name);
        OrderPairsTwice(ps, fields[1..]);
      } else {
        var rest := OrderPairs(Without(ps, i), fields[1..]);
        var first := Pair(ps[i].key, OrderNested(fields[0], ps[i].value));
        OrderNestedTwice(fields[0], ps[i].value);
        OrderPairsTwice(Without(ps, i), fields[1..]);
        assert Without([first] + rest, 0) == rest;
      }
    }
  }

  lemma {:induction false} OrderNestedTwice(field: Field, v: Node)
    ensures OrderNested(field, OrderNested(field, v)) == OrderNested(field, v)
    decreases field, 1
  {
    if field.nested.Nested? {
      if v.Mapping? {
        OrderPairsTwice(v.pairs, field.nested.fields);
      } else if v.Sequence? && field.repeated {
        OrderChildrenTwice(v.items, field.nested.fields);
      }
    }
  }

  lemma {:induction false} OrderChildrenTwice(xs: seq<Node>, fields: seq<Field>)
    ensures OrderChildren(OrderChildren(xs, fields), fields) == OrderChildren(xs, fields)
    decreases fields, 2
  {
    forall i | 0 <= i < |xs| ensures OrderChild(OrderChild(xs[i], fields), fields) == OrderChild(xs[i], fields) {
      if xs[i].Mapping? { OrderPairsTwice(xs[i].pairs, fields); }
    }
  }

  /** The second pass keeps the kind of the first pair of any name. */
  lemma {:induction false} FirstKindKept(ps: seq<Pair>, fields: seq<Field>, name: string)
    requires IndexOf(ps, name) < |ps|
    ensures var r := OrderPairs(ps, fields);
            IndexOf(r, name) < |r| && (r[IndexOf(r, name)].value.Sequence? <==> ps[IndexOf(ps, name)].value.Sequence?)
    decreases |fields|
  {
    if fields != [] {
      var i := IndexOf(ps, fields[0].name);
      if i == |ps| {
        FirstKindKept(ps, fields[1..], name);
      } else if fields[0].name != name {
        DropOther(ps, i, name);
        FirstKindKept(Without(ps, i), fields[1..], name);
        PushOther(Pair(ps[i].key, OrderNested(fields[0], ps[i].value)), OrderPairs(Without(ps, i), fields[1..]), name);
      }
    }
  }

  lemma PushOther(p: Pair, ps: seq<Pair>, name: string)
    requires p.key != name
    ensures IndexOf([p] + ps, name) == 1 + IndexOf(ps, name)
  {
    assert ([p] + ps)[1..] == ps;
  }

  lemma {:induction false} DropOther(ps: seq<Pair>, i: nat, name: string)
    requires i < |ps| && ps[i].key != name && IndexOf(ps, name) < |ps|
    ensures var d := Without(ps, i);
            IndexOf(d, name) < |d| && d[IndexOf(d, name)] == ps[IndexOf(ps, name)]
  {
    var d, at := Without(ps, i), IndexOf(ps, name);
    var to := if at < i then at else at - 1;
    assert d[to] == ps[at];
    forall j | 0 <= j < to ensures d[j].key != name {
      assert d[j] == if j < i then ps[j] else ps[j + 1];
    }
    FirstIs(d, name, to);
  }

  lemma {:induction false} FirstIs(ps: seq<Pair>, name: string, at: nat)
    requires at < |ps| && ps[at].key == name && forall j :: 0 <= j < at ==> ps[j].key != name
    ensures IndexOf(ps, name) == at
  {
  }

  lemma {:induction false} ApplySchemaTwice(root: Node, schema: Option<seq<Field>>)
    ensures ApplySchema(ApplySchema(root, schema), schema) == ApplySchema(root, schema)
  {
    if schema.Some? && root.Mapping? {
      var ps, at := root.pairs, IndexOf(root.pairs, "items");
      if at < |ps| && ps[at].value.Sequence? {
        var done := ps[at := Pair("items", Sequence(OrderChildren(ps[at].value.items, schema.value)))];
        FirstIs(done, "items", at);
        OrderChildrenTwice(ps[at].value.items, schema.value);
      } else {
        var fields := [TYPE_FIELD] + schema.value;
        OrderPairsTwice(ps, fields);
        var done := OrderPairs(ps, fields);
        if at < |ps| {
          FirstKindKept(ps, fields, "items");
        } else {
          OrderKeepsNames(ps, fields, "items");
        }
      }
    }
  }

  // ---------- the first pass keeps schema order ----------

  lemma SameNames(ps: seq<Pair>, s: Strings, name: string)
    ensures IndexOf(ReorderPairs(ps, s), name) == IndexOf(ps, name)
  {
    if ps != [] {
      assert ReorderPairs(ps, s)[1..] == ReorderPairs(ps[1..], s);
    }
  }

  lemma {:induction false} OrderSurvives(ps: seq<Pair>, fields: seq<Field>, s: Strings)
    requires OrderPairs(ps, fields) == ps
    ensures OrderPairs(ReorderPairs(ps, s), fields) == ReorderPairs(ps, s)
    decreases fields, 1
  {
    if fields != [] {
      var name := fields[0].name;
      SameNames(ps, s, name);
      var i := IndexOf(ps, name);
      if i == |ps| {
        OrderSurvives(ps, fields[1..], s);
      } else {
        var first := Pair(ps[i].key, OrderNested(fields[0], ps[i].value));
        assert ps == [first] + OrderPairs(Without(ps, i), fields[1..]);
        assert ps[0] == first && i == 0;
        assert ps[1..] == OrderPairs(Without(ps, i), fields[1..]) && Without(ps, 0) == ps[1..];
        NestedSurvives(fields[0], ps[0].key, ps[0].value, s);
        OrderSurvives(ps[1..], fields[1..], s);
        var r := ReorderPairs(ps, s);
        assert Without(r, 0) == r[1..] == ReorderPairs(ps[1..], s);
      }
    }
  }

  lemma {:induction false} NestedSurvives(field: Field, key: string, v: Node, s: Strings)
    requires OrderNested(field, v) == v
    ensures OrderNested(field, ReorderValue(key, v, s)) == ReorderValue(key, v, s)
    decreases field, 1
  {
    KindKept(key, v, s);
    if field.nested.Nested? {
      if v.Mapping? {
        OrderSurvives(v.pairs, field.nested.fields, s);
      } else if v.Sequence? && field.repeated {
        ChildrenSurvive(v.items, field.nested.fields, s);
      }
    }
  }

  /** Elements in schema order stay so, whether or not their list is sorted. */
  lemma {:induction false} ChildrenSurvive(xs: seq<Node>, fields: seq<Field>, s: Strings)
    requires OrderChildren(xs, fields) == xs
    ensures var r := ReorderAll(xs, s);
            OrderChildren(r, fields) == r && OrderChildren(SortNodes(r, s), fields) == SortNodes(r, s)
    decreases fields, 2
  {
    var r := ReorderAll(xs, s);
    var sorted := SortNodes(r, s);
    forall i | 0 <= i < |xs| ensures OrderChild(r[i], fields) == r[i] {
      assert OrderChild(xs[i], fields) == xs[i];
      KindKept("", xs[i], s);
      if xs[i].Mapping? { OrderSurvives(xs[i].pairs, fields, s); }
    }
    SortNodesIsSorted(r, s);
    forall i | 0 <= i < |sorted| ensures OrderChild(sorted[i], fields) == sorted[i] {
      assert sorted[i] in multiset(sorted) && sorted[i] in multiset(r);
    }
  }

  /** A document in schema order is still in schema order after the first pass. */
  lemma {:induction false} SchemaSurvives(root: Node, schema: Option<seq<Field>>, s: Strings)
    requires ApplySchema(root, schema) == root
    ensures ApplySchema(Reorder(root, s), schema) == Reorder(root, s)
  {
    if schema.Some? && root.Mapping? {
      var ps, at := root.pairs, IndexOf(root.pairs, "items");
      SameNames(ps, s, "items");
      if at < |ps| {
        KindKept(ps[at].key, ps[at].value, s);
      }
      if at < |ps| && ps[at].value.Sequence? {
        assert ps[at] == Pair("items", Sequence(OrderChildren(ps[at].value.items, schema.value)));
        ChildrenSurvive(ps[at].value.items, schema.value, s);
        var r := ReorderPairs(ps, s);
        assert r[at := r[at]] == r;
      } else {
        OrderSurvives(ps, [TYPE_FIELD] + schema.value, s);
      }
    }
  }

  // ---------- convergence ----------

  /** From the second run on, only the sorting pass can change anything. */
  lemma SecondRun(root: Node, schema: Option<seq<Field>>, s: Strings)
    ensures Format(Format(root, schema, s), schema, s) == Reorder(Format(root, schema, s), s)
  {
    ApplySchemaTwice(Reorder(root, s), schema);
    SchemaSurvives(Format(root, schema, s), schema, s);
  }

  /** Two runs reach the final form of every document. */
  lemma FormatConverges(root: Node, schema: Option<seq<Field>>, s: Strings)
    ensures var twice := Format(Format(root, schema, s), schema, s);
            Format(twice, schema, s) == twice
  {
    var once := Format(root, schema, s);
    SecondRun(root, schema, s);
    SecondRun(once, schema, s);
    ReorderTwice(once, s);
  }

  // ---------- nothing is lost or added ----------

  /** A document with the order of pairs, and of elements of `items` lists, forgotten. */
  datatype Content =
    | Leaf(token: string)
    | Listed(elements: seq<Content>)
    | Bag(members: multiset<Content>)
    | Record(slots: multiset<Slot>)

  datatype Slot = Slot(key: string, content: Content)

  ghost function ContentOf(n: Node, s: Strings): Content
    decreases n, 1
  {
    match n
    case Scalar(token) => Leaf(token)
    case Sequence(items) => Listed(ContentAll(items, s))
    case Mapping(pairs) => Record(multiset(Slots(pairs, s)))
  }

  ghost function ContentAll(xs: seq<Node>, s: Strings): (r: seq<Content>)
    ensures |r| == |xs|
    ensures forall i :: 0 <= i < |xs| ==> r[i] == ContentOf(xs[i], s)
    decreases xs, 0
  {
    if xs == [] then [] else [ContentOf(xs[0], s)] + ContentAll(xs[1..], s)
  }

  ghost function SlotOf(p: Pair, s: Strings): Slot
    decreases p, 2
  {
    Slot(p.key, if s.isItems(p.key) && p.value.Sequence? then Bag(multiset(ContentAll(p.value.items, s)))
                else ContentOf(p.value, s))
  }

  ghost function Slots(ps: seq<Pair>, s: Strings): (r: seq<Slot>)
    ensures |r| == |ps|
    ensures forall i :: 0 <= i < |ps| ==> r[i] == SlotOf(ps[i], s)
    decreases ps, 0
  {
    if ps == [] then [] else [SlotOf(ps[0], s)] + Slots(ps[1..], s)
  }

  lemma {:induction false} ContentsWithout(xs: seq<Node>, j: nat, s: Strings)
    requires j < |xs|
    ensures ContentAll(Without(xs, j), s) == Without(ContentAll(xs, s), j)
  {
    hide ContentOf;
    var a, b := ContentAll(Without(xs, j), s), Without(ContentAll(xs, s), j);
    forall i | 0 <= i < |a| ensures a[i] == b[i] {
      assert a[i] == ContentOf(Without(xs, j)[i], s);
    }
  }

  lemma {:induction false} SameContents(xs: seq<Node>, ys: seq<Node>, s: Strings)
    requires multiset(xs) == multiset(ys)
    ensures multiset(ContentAll(xs, s)) == multiset(ContentAll(ys, s))
    decreases |xs|
  {
    hide ContentOf;
    if xs == [] {
      assert |multiset(ys)| == 0;
    } else {
      assert xs[0] in multiset(ys);
      var j :| 0 <= j < |ys| && ys[j] == xs[0];
      PairOff(xs, ys, j);
      SameContents(xs[1..], Without(ys, j), s);
      ContentsWithout(ys, j, s);
      assert ContentAll(xs, s)[1..] == ContentAll(xs[1..], s);
      PairOff(ContentAll(xs, s), ContentAll(ys, s), j);
    }
  }

  lemma {:induction false} ReorderKeepsContent(n: Node, s: Strings)
    ensures ContentOf(Reorder(n, s), s) == ContentOf(n, s)
    decreases n, 0
  {
    match n {
      case Scalar(_) =>
      case Sequence(items) =>
        forall i | 0 <= i < |items| { ReorderKeepsContent(items[i], s); }
        assert ContentAll(ReorderAll(items, s), s) == ContentAll(items, s);
      case Mapping(pairs) =>
        forall i | 0 <= i < |pairs| { ReorderKeepsSlot(pairs[i], s); }
        assert Slots(ReorderPairs(pairs, s), s) == Slots(pairs, s);
    }
  }

  lemma {:induction false} ReorderKeepsSlot(p: Pair, s: Strings)
    ensures SlotOf(Pair(p.key, ReorderValue(p.key, p.value, s)), s) == SlotOf(p, s)
    decreases p, 0
  {
    KindKept(p.key, p.value, s);
    if s.isItems(p.key) && p.value.Sequence? {
      var xs := p.value.items;
      var r := ReorderAll(xs, s);
      forall i | 0 <= i < |xs| { ReorderKeepsContent(xs[i], s); }
      assert ContentAll(r, s) == ContentAll(xs, s);
      SortNodesIsSorted(r, s);
      SameContents(SortNodes(r, s), r, s);
    } else {
      ReorderKeepsContent(p.value, s);
    }
  }

  lemma {:induction false} SlotsWithout(ps: seq<Pair>, j: nat, s: Strings)
    requires j < |ps|
    ensures Slots(Without(ps, j), s) == Without(Slots(ps, s), j)
  {
    hide SlotOf;
    var a, b := Slots(Without(ps, j), s), Without(Slots(ps, s), j);
    forall i | 0 <= i < |a| ensures a[i] == b[i] {
      assert a[i] == SlotOf(Without(ps, j)[i], s);
    }
  }

  lemma SlotsSplit(ps: seq<Pair>, j: nat, s: Strings)
    requires j < |ps|
    ensures multiset(Slots(ps, s)) == multiset(Slots(Without(ps, j), s)) + multiset{SlotOf(ps[j], s)}
  {
    hide SlotOf, Slots;
    SlotsWithout(ps, j, s);
    WithoutElements(Slots(ps, s), j);
  }

  lemma {:induction false} OrderKeepsSlots(ps: seq<Pair>, fields: seq<Field>, s: Strings)
    ensures multiset(Slots(OrderPairs(ps, fields), s)) == multiset(Slots(ps, s))
    decreases fields, 1
  {
    hide SlotOf, OrderNested;
    if fields != [] {
      var i := IndexOf(ps, fields[0].name);
      if i == |ps| {
        OrderKeepsSlots(ps, fields[1..], s);
      } else {
        var first, rest := Pair(ps[i].key, OrderNested(fields[0], ps[i].value)),
            OrderPairs(Without(ps, i), fields[1..]);
        NestedKeepsSlot(fields[0], ps[i], s);
        OrderKeepsSlots(Without(ps, i), fields[1..], s);
        SlotsSplit(ps, i, s);
        SlotsSplit([first] + rest, 0, s);
        assert Without([first] + rest, 0) == rest;
      }
    }
  }

  lemma {:induction false} NestedKeepsSlot(field: Field, p: Pair, s: Strings)
    ensures SlotOf(Pair(p.key, OrderNested(field, p.value)), s) == SlotOf(p, s)
    decreases field, 1
  {
    if field.nested.Nested? {
      if p.value.Mapping? {
        OrderKeepsSlots(p.value.pairs, field.nested.fields, s);
      } else if p.value.Sequence? && field.repeated {
        ChildrenKeepContent(p.value.items, field.nested.fields, s);
      }
    }
  }

  lemma {:induction false} ChildrenKeepContent(xs: seq<Node>, fields: seq<Field>, s: Strings)
    ensures ContentAll(OrderChildren(xs, fields), s) == ContentAll(xs, s)
    decreases fields, 3
  {
    hide *;
    var a, b := ContentAll(OrderChildren(xs, fields), s), ContentAll(xs, s);
    forall i | 0 <= i < |xs| ensures a[i] == b[i] { ChildKeepsContent(xs[i], fields, s); }
  }

  lemma {:induction false} ChildKeepsContent(n: Node, fields: seq<Field>, s: Strings)
    ensures ContentOf(OrderChild(n, fields), s) == ContentOf(n, s)
    decreases fields, 2
  {
    hide OrderPairs, Slots, ContentAll;
    if n.Mapping? { OrderKeepsSlots(n.pairs, fields, s); }
  }

  /** Formatting permutes pairs and items; every other list keeps its order, and nothing is lost or added. */
  lemma FormatKeepsContent(root: Node, schema: Option<seq<Field>>, s: Strings)
    ensures ContentOf(Format(root, schema, s), s) == ContentOf(root, s)
  {
    ReorderKeepsContent(root, s);
    SchemaKeepsContent(Reorder(root, s), schema, s);
  }

  lemma ReplacedPair(ps: seq<Pair>, at: nat, p: Pair, s: Strings)
    requires at < |ps| && SlotOf(p, s) == SlotOf(ps[at], s)
    ensures Slots(ps[at := p], s) == Slots(ps, s)
  {
    hide SlotOf;
    var a, b := Slots(ps[at := p], s), Slots(ps, s);
    forall i | 0 <= i < |ps| ensures a[i] == b[i] {
      assert a[i] == SlotOf(ps[at := p][i], s);
    }
  }

  lemma SchemaKeepsContent(y: Node, schema: Option<seq<Field>>, s: Strings)
    ensures ContentOf(ApplySchema(y, schema), s) == ContentOf(y, s)
  {
    if schema.Some? && y.Mapping? {
      var ps, at := y.pairs, IndexOf(y.pairs, "items");
      if at < |ps| && ps[at].value.Sequence? {
        ChildrenKeepContent(ps[at].value.items, schema.value, s);
        var p := Pair("items", Sequence(OrderChildren(ps[at].value.items, schema.value)));
        assert SlotOf(p, s) == SlotOf(ps[at], s);
        ReplacedPair(ps, at, p, s);
      } else {
        OrderKeepsSlots(ps, [TYPE_FIELD] + schema.value, s);
      }
    }
  }
}
