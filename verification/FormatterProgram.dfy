/**
 The formatting passes as the program runs them, in place on the content of mappings and sequences,
 proved equal to the functions of Formatter (internal/format/formatter.go).
*/
module FormatterProgram {
  import opened Text
  import opened Formatter

  // ---------- the passes as the program runs them: in place ----------

  datatype EntityNode = EntityNode(node: Node, sortKey: string, hasKey: bool, line: int, origIndex: int)

  /** The comparison handed to the library's stable sort. */
  predicate EntityLess(a: EntityNode, b: EntityNode) {
    if a.hasKey && b.hasKey then
      if a.sortKey == b.sortKey then a.line < b.line else Less(a.sortKey, b.sortKey)
    else if a.hasKey != b.hasKey then a.hasKey
    else if a.line == b.line then a.origIndex < b.origIndex
    else a.line < b.line
  }

  function InsertEntity(x: EntityNode, xs: seq<EntityNode>): seq<EntityNode> {
    if xs == [] || !EntityLess(xs[0], x) then [x] + xs else [xs[0]] + InsertEntity(x, xs[1..])
  }

  /** What a stable sort by that comparison yields. */
  function SortEntities(xs: seq<EntityNode>): seq<EntityNode> {
    if xs == [] then [] else InsertEntity(xs[0], SortEntities(xs[1..]))
  }

  function NodesOf(xs: seq<EntityNode>): (r: seq<Node>)
    ensures |r| == |xs|
    ensures forall i :: 0 <= i < |xs| ==> r[i] == xs[i].node
  {
    if xs == [] then [] else [xs[0].node] + NodesOf(xs[1..])
  }

  /** Entities as the first loop builds them, from elements in document order. */
  ghost predicate InDocumentOrder(xs: seq<EntityNode>, s: Strings) {
    && (forall i :: 0 <= i < |xs| ==> Describes(xs[i], s))
    && (forall i, j :: 0 <= i < j < |xs| ==> xs[i].line <= xs[j].line && xs[i].origIndex < xs[j].origIndex)
  }

  ghost predicate Describes(x: EntityNode, s: Strings) {
    (x.hasKey <==> Rank(x.node, s).Some?) && (x.hasKey ==> x.sortKey == Rank(x.node, s).value)
  }

  /** An entity may go before another that comes later in the document exactly when its rank is no greater. */
  lemma EarlierEntity(x: EntityNode, y: EntityNode, s: Strings)
    requires Describes(x, s) && Describes(y, s) && x.line <= y.line && x.origIndex < y.origIndex
    ensures !EntityLess(y, x) <==> RankLeq(Rank(x.node, s), Rank(y.node, s))
  {
    if x.hasKey && y.hasKey {
      LeqReflexive(x.sortKey);
      LeqTotal(x.sortKey, y.sortKey);
      if Leq(x.sortKey, y.sortKey) && Leq(y.sortKey, x.sortKey) { LeqAntisymmetric(x.sortKey, y.sortKey); }
    }
  }

  lemma {:induction false} InsertEntityElements(x: EntityNode, xs: seq<EntityNode>)
    ensures multiset(InsertEntity(x, xs)) == multiset{x} + multiset(xs)
  {
    hide EntityLess;
    if xs != [] {
      TailElements(xs);
      InsertEntityElements(x, xs[1..]);
    }
  }

  lemma {:induction false} InsertEntityIsInsertNode(x: EntityNode, xs: seq<EntityNode>, s: Strings)
    requires Describes(x, s)
    requires forall y :: y in xs ==> Describes(y, s) && x.line <= y.line && x.origIndex < y.origIndex
    ensures NodesOf(InsertEntity(x, xs)) == InsertNode(x.node, NodesOf(xs), s)
  {
    hide Describes, EntityLess, RankLeq, Rank;
    if xs != [] {
      assert xs[0] in xs;
      EarlierEntity(x, xs[0], s);
      NodesOfCons(xs[0], xs[1..]);
      assert xs == [xs[0]] + xs[1..] && NodesOf(xs)[1..] == NodesOf(xs[1..]);
      if EntityLess(xs[0], x) {
        InsertEntityIsInsertNode(x, xs[1..], s);
        NodesOfCons(xs[0], InsertEntity(x, xs[1..]));
      } else {
        NodesOfCons(x, xs);
      }
    } else {
      NodesOfCons(x, xs);
    }
  }

  lemma NodesOfCons(x: EntityNode, xs: seq<EntityNode>)
    ensures NodesOf([x] + xs) == [x.node] + NodesOf(xs)
  {
    assert ([x] + xs)[1..] == xs;
  }

  /** With line numbers that do not decrease, the comparison by line is stability. */
  lemma {:induction false} SortEntitiesIsSortNodes(xs: seq<EntityNode>, s: Strings)
    requires InDocumentOrder(xs, s)
    ensures NodesOf(SortEntities(xs)) == SortNodes(NodesOf(xs), s)
    ensures multiset(SortEntities(xs)) == multiset(xs)
  {
    hide Describes, RankLeq, EntityLess;
    if xs != [] {
      var rest := SortEntities(xs[1..]);
      SortEntitiesIsSortNodes(xs[1..], s);
      LaterEntities(xs, rest, s);
      InsertEntityIsInsertNode(xs[0], rest, s);
      InsertEntityElements(xs[0], rest);
      TailElements(xs);
      assert NodesOf(xs)[1..] == NodesOf(xs[1..]);
    }
  }

  lemma LaterEntities(xs: seq<EntityNode>, rest: seq<EntityNode>, s: Strings)
    requires xs != [] && InDocumentOrder(xs, s) && multiset(rest) == multiset(xs[1..])
    ensures forall y :: y in rest ==> Describes(y, s) && xs[0].line <= y.line && xs[0].origIndex < y.origIndex
  {
    hide Describes;
    forall y | y in rest ensures Describes(y, s) && xs[0].line <= y.line && xs[0].origIndex < y.origIndex {
      assert y in multiset(rest) && y in multiset(xs[1..]);
      var i :| 0 <= i < |xs[1..]| && xs[1..][i] == y;
      assert xs[i + 1] == y;
    }
  }

  /** Without any key the list stays as it is. */
  lemma {:induction false} NoKeysNoChange(xs: seq<Node>, s: Strings)
    requires forall i :: 0 <= i < |xs| ==> Rank(xs[i], s).None?
    ensures SortNodes(xs, s) == xs
  {
    SortNodesFixpoint(xs, s);
  }

  method ApplyOnDocument(node: Node, s: Strings) returns (r: Node)
    ensures r == Reorder(node, s)
    decreases node, 1
  {
    match node {
      case Mapping(pairs) =>
        var content := new Pair[|pairs|](i requires 0 <= i < |pairs| => pairs[i]);
        assert content[..] == pairs;
        RewriteMapping(content, s);
        return Mapping(content[..]);
      case Sequence(items) =>
        var content := new Node[|items|](i requires 0 <= i < |items| => items[i]);
        for i := 0 to content.Length
          invariant forall k :: 0 <= k < i ==> content[k] == Reorder(items[k], s)
          invariant forall k :: i <= k < |items| ==> content[k] == items[k]
        {
          content[i] := ApplyOnDocument(content[i], s);
        }
        assert content[..] == ReorderAll(items, s);
        return Sequence(content[..]);
      case Scalar(_) =>
        return node;
    }
  }

  method RewriteMapping(content: array<Pair>, s: Strings)
    modifies content
    ensures content[..] == ReorderPairs(old(content[..]), s)
    decreases content[..], 0
  {
    hide ReorderValue;
    ghost var was := content[..];
    for idx := 0 to content.Length
      invariant forall k :: 0 <= k < idx ==> content[k] == Pair(was[k].key, ReorderValue(was[k].key, was[k].value, s))
      invariant forall k :: idx <= k < content.Length ==> content[k] == was[k]
    {
      assert was[idx] == content[idx];
      var done := RewriteValue(content[idx].key, content[idx].value, s);
      content[idx] := Pair(content[idx].key, done);
    }
    assert content[..] == ReorderPairs(was, s);
  }

  method RewriteValue(key: string, val: Node, s: Strings) returns (done: Node)
    ensures done == ReorderValue(key, val, s)
    decreases val, 2
  {
    if s.isItems(key) && val.Sequence? {
      var elements := new Node[|val.items|](i requires 0 <= i < |val.items| => val.items[i]);
      assert elements[..] == val.items;
      ReorderItems(elements, s);
      return Sequence(elements[..]);
    }
    done := ApplyOnDocument(val, s);
  }

  /**
   The line numbers a decoder gives to n elements in document order: all that is known is that they do not
   decrease.
  */
  method LineNumbers(n: nat) returns (lines: seq<int>)
    ensures |lines| == n && forall i, j :: 0 <= i < j < n ==> lines[i] <= lines[j]
  {
    lines := seq(n, i => i);
  }

  /** Rewrite every element and note its sort key. */
  method CollectEntities(content: array<Node>, s: Strings) returns (entities: seq<EntityNode>, keyed: nat)
    modifies content
    ensures content[..] == ReorderAll(old(content[..]), s) == NodesOf(entities)
    ensures InDocumentOrder(entities, s)
    ensures keyed == 0 ==> forall k :: 0 <= k < |entities| ==> Rank(entities[k].node, s).None?
    decreases content[..], 0
  {
    hide Rank, Reorder;
    ghost var was := content[..];
    var lines := LineNumbers(content.Length);
    entities := [];
    keyed := 0;
    for i := 0 to content.Length
      invariant |entities| == i
      invariant forall k :: 0 <= k < i ==> content[k] == Reorder(was[k], s)
      invariant forall k :: i <= k < content.Length ==> content[k] == was[k]
      invariant forall k :: 0 <= k < i ==>
                entities[k].node == content[k] && entities[k].line == lines[k] && entities[k].origIndex == k
      invariant forall k :: 0 <= k < i ==> Describes(entities[k], s)
      invariant keyed == 0 ==> forall k :: 0 <= k < i ==> !entities[k].hasKey
    {
      content[i] := ApplyOnDocument(content[i], s);
      var key, hasKey := EntitySortKey(content[i], s);
      if hasKey {
        keyed := keyed + 1;
      }
      entities := entities + [EntityNode(content[i], key, hasKey, lines[i], i)];
    }
  }

  /** Sort the elements of an `items` list in place. */
  method ReorderItems(content: array<Node>, s: Strings)
    modifies content
    ensures content[..] == SortNodes(ReorderAll(old(content[..]), s), s)
    decreases content[..], 1
  {
    hide Rank, Reorder, SortNodes, SortEntities, InDocumentOrder;
    ghost var done := ReorderAll(content[..], s);
    var entities, keyed := CollectEntities(content, s);
    if keyed == 0 {
      NoKeysNoChange(done, s);
      return;
    }
    SortEntitiesIsSortNodes(entities, s);
    SameCount(entities);
    PutBack(content, SortEntities(entities));
  }

  lemma SameCount(entities: seq<EntityNode>)
    requires multiset(SortEntities(entities)) == multiset(entities)
    ensures |SortEntities(entities)| == |entities|
  {
    assert |multiset(SortEntities(entities))| == |multiset(entities)|;
  }

  /** The last loop of the sort: the list's slots take the sorted elements. */
  method PutBack(content: array<Node>, entities: seq<EntityNode>)
    requires |entities| == content.Length
    modifies content
    ensures content[..] == NodesOf(entities)
  {
    for i := 0 to content.Length
      invariant forall k :: 0 <= k < i ==> content[k] == entities[k].node
    {
      content[i] := entities[i].node;
    }
  }

  method EntitySortKey(node: Node, s: Strings) returns (key: string, hasKey: bool)
    ensures hasKey <==> Rank(node, s).Some?
    ensures hasKey ==> key == Rank(node, s).value
  {
    if node.Mapping? {
      key, hasKey := ExtractMapSortKey(node.pairs, s);
    } else {
      key, hasKey := "", false;
    }
  }

  /** The pairs whose used flag is not set. */
  ghost function Unused(ps: seq<Pair>, used: seq<bool>): seq<Pair>
    requires |ps| == |used|
  {
    if ps == [] then [] else (if used[0] then [] else [ps[0]]) + Unused(ps[1..], used[1..])
  }

  lemma {:induction false} UnusedSplit(ps: seq<Pair>, used: seq<bool>, i: nat)
    requires |ps| == |used| && i <= |ps|
    ensures Unused(ps, used) == Unused(ps[..i], used[..i]) + Unused(ps[i..], used[i..])
  {
    if i == 0 {
      assert ps[0..] == ps && used[0..] == used;
    } else {
      UnusedSplit(ps[1..], used[1..], i - 1);
      assert ps[..i][1..] == ps[1..][..i - 1] && used[..i][1..] == used[1..][..i - 1];
      assert ps[i..] == ps[1..][i - 1..] && used[i..] == used[1..][i - 1..];
    }
  }

  lemma {:induction false} UnusedNames(ps: seq<Pair>, used: seq<bool>, name: string)
    requires |ps| == |used| && forall j :: 0 <= j < |ps| && !used[j] ==> ps[j].key != name
    ensures forall p :: p in Unused(ps, used) ==> p.key != name
  {
    if ps != [] { UnusedNames(ps[1..], used[1..], name); }
  }

  lemma UnusedAround(ps: seq<Pair>, used: seq<bool>, i: nat) returns (before: seq<Pair>, after: seq<Pair>)
    requires |ps| == |used| && i < |ps| && !used[i]
    ensures before == Unused(ps[..i], used[..i])
    ensures Unused(ps, used) == before + ([ps[i]] + after)
    ensures Unused(ps, used[i := true]) == before + after
  {
    before, after := Unused(ps[..i], used[..i]), Unused(ps[i + 1..], used[i + 1..]);
    var marked := used[i := true];
    UnusedSplit(ps, used, i);
    UnusedSplit(ps, marked, i);
    UnusedStep(ps[i..], used[i..]);
    UnusedStep(ps[i..], marked[i..]);
    hide Unused;
    assert ps[i..][1..] == ps[i + 1..];
    assert marked[..i] == used[..i];
    assert marked[i..][1..] == used[i + 1..] && used[i..][1..] == used[i + 1..];
  }

  lemma FirstUnused(ps: seq<Pair>, used: seq<bool>, name: string, i: nat)
    requires |ps| == |used| && i <= |ps|
    requires forall j :: 0 <= j < i && !used[j] ==> ps[j].key != name
    requires i < |ps| ==> !used[i] && ps[i].key == name
    ensures var rest := Unused(ps, used);
            var at := IndexOf(rest, name);
            if i == |ps| then at == |rest|
            else at < |rest| && rest[at] == ps[i] && Unused(ps, used[i := true]) == Without(rest, at)
  {
    hide Unused, IndexOf;
    UnusedNames(ps[..i], used[..i], name);
    if i == |ps| {
      assert ps[..i] == ps && used[..i] == used;
      NotNamed(Unused(ps, used), name);
    } else {
      var before, after := UnusedAround(ps, used, i);
      FirstIs(Unused(ps, used), name, |before|);
    }
  }

  lemma UnusedStep(ps: seq<Pair>, used: seq<bool>)
    requires |ps| == |used| && ps != []
    ensures Unused(ps, used) == (if used[0] then [] else [ps[0]]) + Unused(ps[1..], used[1..])
  {
  }

  /** The first unused pair of that name, now marked used; or the length of the list. */
  method TakePair(pairs: seq<Pair>, used: array<bool>, key: string) returns (i: nat)
    requires used.Length == |pairs|
    modifies used
    ensures i <= |pairs|
    ensures var rest := Unused(pairs, old(used[..]));
            var at := IndexOf(rest, key);
            if i == |pairs| then at == |rest| && used[..] == old(used[..])
            else at < |rest| && rest[at] == pairs[i] && Unused(pairs, used[..]) == Without(rest, at)
  {
    i := 0;
    while i < |pairs|
      invariant i <= |pairs|
      invariant forall j :: 0 <= j < i && !used[j] ==> pairs[j].key != key
    {
      if !used[i] && pairs[i].key == key {
        FirstUnused(pairs, used[..], key, i);
        used[i] := true;
        assert used[..] == old(used[..])[i := true];
        return;
      }
      i := i + 1;
    }
    FirstUnused(pairs, used[..], key, i);
  }

  /** One field of the schema: its pair, if there is one, with its own value put in order. */
  method TakeField(pairs: seq<Pair>, used: array<bool>, field: Field, ghost others: seq<Field>)
      returns (taken: seq<Pair>)
    requires used.Length == |pairs|
    modifies used
    ensures OrderPairs(Unused(pairs, old(used[..])), [field] + others)
            == taken + OrderPairs(Unused(pairs, used[..]), others)
    decreases field, 2
  {
    hide OrderNested, Unused;
    FirstField(Unused(pairs, used[..]), field, others);
    hide OrderPairs;
    var i := TakePair(pairs, used, field.name);
    if i == |pairs| {
      return [];
    }
    var value := ApplyNestedSchema(field, pairs[i].value);
    return [Pair(pairs[i].key, value)];
  }

  method ReorderMappingWithSchema(pairs: seq<Pair>, schema: seq<Field>, keepType: bool) returns (reordered: seq<Pair>)
    ensures reordered == OrderPairs(pairs, if keepType then [TYPE_FIELD] + schema else schema)
    decreases schema, 1
  {
    hide OrderPairs, OrderNested, Unused;
    var used := new bool[|pairs|](_ => false);
    AllUnused(pairs, used[..]);
    ghost var all := OrderPairs(pairs, if keepType then [TYPE_FIELD] + schema else schema);
    reordered := [];
    if keepType {
      reordered := TakeType(pairs, used, schema);
    }
    assert schema[0..] == schema;
    for k := 0 to |schema|
      invariant all == reordered + OrderPairs(Unused(pairs, used[..]), schema[k..])
    {
      assert schema[k..] == [schema[k]] + schema[k + 1..];
      var taken := TakeField(pairs, used, schema[k], schema[k + 1..]);
      reordered := reordered + taken;
    }
    NoField(Unused(pairs, used[..]));
    var rest := Remaining(pairs, used);
    reordered := reordered + rest;
  }

  /** The type declaration of a file stays in front. */
  method TakeType(pairs: seq<Pair>, used: array<bool>, ghost schema: seq<Field>) returns (taken: seq<Pair>)
    requires used.Length == |pairs|
    modifies used
    ensures OrderPairs(Unused(pairs, old(used[..])), [TYPE_FIELD] + schema)
            == taken + OrderPairs(Unused(pairs, used[..]), schema)
  {
    hide OrderPairs, OrderNested, Unused;
    FirstField(Unused(pairs, used[..]), TYPE_FIELD, schema);
    var i := TakePair(pairs, used, "type");
    if i == |pairs| {
      return [];
    }
    FlatField(pairs[i].value);
    return [pairs[i]];
  }

  lemma NoField(ps: seq<Pair>)
    ensures OrderPairs(ps, []) == ps
  {
  }

  lemma FlatField(v: Node)
    ensures OrderNested(TYPE_FIELD, v) == v
  {
  }

  lemma FirstField(ps: seq<Pair>, field: Field, others: seq<Field>)
    ensures var i := IndexOf(ps, field.name);
            OrderPairs(ps, [field] + others) ==
            if i == |ps| then OrderPairs(ps, others)
            else [Pair(ps[i].key, OrderNested(field, ps[i].value))] + OrderPairs(Without(ps, i), others)
  {
    hide OrderNested;
    assert ([field] + others)[1..] == others;
  }

  /** The last loop: the pairs no field has taken, in their own order. */
  method Remaining(pairs: seq<Pair>, used: array<bool>) returns (rest: seq<Pair>)
    requires used.Length == |pairs|
    ensures rest == Unused(pairs, used[..])
  {
    rest := [];
    for i := 0 to |pairs|
      invariant rest + Unused(pairs[i..], used[i..]) == Unused(pairs, used[..])
    {
      assert pairs[i..][1..] == pairs[i + 1..] && used[i..][1..] == used[i + 1..];
      if used[i] {
        continue;
      }
      rest := rest + [pairs[i]];
    }
  }

  lemma {:induction false} AllUnused(ps: seq<Pair>, used: seq<bool>)
    requires |ps| == |used| && forall i :: 0 <= i < |used| ==> !used[i]
    ensures Unused(ps, used) == ps
  {
    if ps != [] { AllUnused(ps[1..], used[1..]); }
  }

  method ApplyNestedSchema(field: Field, node: Node) returns (r: Node)
    ensures r == OrderNested(field, node)
    decreases field, 1
  {
    if field.nested.Flat? {
      return node;
    }
    if field.repeated && node.Sequence? {
      var items := OrderChildrenInPlace(node.items, field.nested.fields);
      return Sequence(items);
    }
    if node.Mapping? {
      var pairs := ReorderMappingWithSchema(node.pairs, field.nested.fields, false);
      return Mapping(pairs);
    }
    return node;
  }

  method OrderChildrenInPlace(items: seq<Node>, schema: seq<Field>) returns (r: seq<Node>)
    ensures r == OrderChildren(items, schema)
    decreases schema, 2
  {
    var content := new Node[|items|](i requires 0 <= i < |items| => items[i]);
    for i := 0 to content.Length
      invariant forall k :: 0 <= k < i ==> content[k] == OrderChild(items[k], schema)
      invariant forall k :: i <= k < |items| ==> content[k] == items[k]
    {
      if content[i].Mapping? {
        var pairs := ReorderMappingWithSchema(content[i].pairs, schema, false);
        content[i] := Mapping(pairs);
      }
    }
    r := content[..];
    assert r == OrderChildren(items, schema);
  }

  method ApplySchemaOrdering(root: Node, schema: Option<seq<Field>>) returns (r: Node)
    ensures r == ApplySchema(root, schema)
  {
    if schema.None? || !root.Mapping? {
      return root;
    }
    var at := IndexOf(root.pairs, "items");
    if at < |root.pairs| && root.pairs[at].value.Sequence? {
      var items := OrderChildrenInPlace(root.pairs[at].value.items, schema.value);
      return Mapping(root.pairs[at := Pair("items", Sequence(items))]);
    }
    var pairs := ReorderMappingWithSchema(root.pairs, schema.value, true);
    return Mapping(pairs);
  }

  /** Both passes, as run on every file. */
  method FormatNode(root: Node, schema: Option<seq<Field>>, s: Strings) returns (r: Node)
    ensures r == Format(root, schema, s)
  {
    var reordered := ApplyOnDocument(root, s);
    r := ApplySchemaOrdering(reordered, schema);
  }
}
