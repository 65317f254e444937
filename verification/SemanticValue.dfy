/**
 The canonical text by which the semantic diff compares field values: lists are sorted,
 so that their order does not matter (internal/diff/diff_semantic.go).
*/
module SemanticValue {
  import opened Text

  /** A decoded field value. A scalar is represented by its JSON text. */
  datatype Value =
    | Null
    | Scalar(token: string)
    | List(items: seq<Value>)
    | Object(fields: map<string, Value>)

  // ---------- the canonical text ----------

  function Canon(v: Value): string
    decreases v, 1, 0
  {
    match v
    case Null => "null"
    case Scalar(token) => token
    case List(items) => "[" + Join(SortStrings(CanonAll(items)), ",") + "]"
    case Object(fields) => "{" + Join(CanonParts(v, SortedKeys(fields.Keys)), ",") + "}"
  }

  function CanonAll(items: seq<Value>): (r: seq<string>)
    ensures |r| == |items|
    ensures forall i :: 0 <= i < |items| ==> r[i] == Canon(items[i])
  {
    if items == [] then [] else [Canon(items[0])] + CanonAll(items[1..])
  }

  function CanonParts(v: Value, keys: seq<string>): (r: seq<string>)
    requires v.Object? && forall k :: k in keys ==> k in v.fields
    ensures |r| == |keys|
    ensures forall i :: 0 <= i < |keys| ==> r[i] == keys[i] + ":" + Canon(v.fields[keys[i]])
    decreases v, 0, |keys|
  {
    if keys == [] then []
    else [keys[0] + ":" + Canon(v.fields[keys[0]])] + CanonParts(v, keys[1..])
  }

  /** The recursion with its two appending loops. */
  method SemanticCanonicalValue(value: Value) returns (text: string)
    ensures text == Canon(value)
    decreases value, 1
  {
    match value {
      case Null =>
        return "null";
      case Object(_) =>
        var parts := CanonicalParts(value, SortedKeys(value.fields.Keys));
        return "{" + Join(parts, ",") + "}";
      case List(list) =>
        var items := CanonicalItems(list);
        return "[" + Join(SortStrings(items), ",") + "]";
      case Scalar(token) =>
        return token;
    }
  }

  method CanonicalParts(value: Value, keys: seq<string>) returns (parts: seq<string>)
    requires value.Object? && forall k :: k in keys ==> k in value.fields
    ensures parts == CanonParts(value, keys)
    decreases value, 0
  {
    parts := [];
    ghost var all := CanonParts(value, keys);
    for i := 0 to |keys|
      invariant parts == all[..i]
    {
      assert all[i] == keys[i] + ":" + Canon(value.fields[keys[i]]);
      var child := SemanticCanonicalValue(value.fields[keys[i]]);
      parts := parts + [keys[i] + ":" + child];
    }
  }

  method CanonicalItems(list: seq<Value>) returns (items: seq<string>)
    ensures items == CanonAll(list)
    decreases list, 0
  {
    items := [];
    for i := 0 to |list|
      invariant items == CanonAll(list)[..i]
    {
      var item := SemanticCanonicalValue(list[i]);
      items := items + [item];
    }
  }

  method SemanticValuesEqual(left: Value, right: Value) returns (equal: bool)
    ensures equal <==> Canon(left) == Canon(right)
  {
    var leftCanonical := SemanticCanonicalValue(left);
    var rightCanonical := SemanticCanonicalValue(right);
    return leftCanonical == rightCanonical;
  }

  // ---------- equality up to list order ----------

  /** The same tree, up to permuting the elements of lists at every depth. */
  ghost predicate Equiv(a: Value, b: Value)
    decreases a, 0
  {
    match a
    case Null => b.Null?
    case Scalar(token) => b == a
    case List(items) => b.List? && EquivLists(items, b.items)
    case Object(fields) =>
      && b.Object?
      && fields.Keys == b.fields.Keys
      && forall k :: k in fields ==> Equiv(fields[k], b.fields[k])
  }

  /** Each element is paired with its own equivalent element of the other list. */
  ghost predicate EquivLists(xs: seq<Value>, ys: seq<Value>)
    decreases xs, 0
  {
    if xs == [] then ys == []
    else exists j :: 0 <= j < |ys| && Equiv(xs[0], ys[j]) && EquivLists(xs[1..], Without(ys, j))
  }

  lemma {:induction false} CanonAllWithout(xs: seq<Value>, j: nat)
    requires j < |xs|
    ensures CanonAll(Without(xs, j)) == Without(CanonAll(xs), j)
  {
    var l, r := CanonAll(Without(xs, j)), Without(CanonAll(xs), j);
    forall i | 0 <= i < |l| ensures l[i] == r[i] {
      assert l[i] == Canon(Without(xs, j)[i]);
    }
  }

  // ---------- equivalent values have the same canonical text ----------

  lemma {:induction false} EquivHasSameCanon(a: Value, b: Value)
    requires Equiv(a, b)
    ensures Canon(a) == Canon(b)
    decreases a, 0
  {
    hide Clean, EquivLists;
    match a {
      case Null =>
      case Scalar(_) =>
      case List(items) =>
        EquivListsHaveSameCanon(items, b.items);
        SortDependsOnElementsOnly(CanonAll(items), CanonAll(b.items));
      case Object(fields) =>
        var keys := SortedKeys(fields.Keys);
        forall i | 0 <= i < |keys| ensures CanonParts(a, keys)[i] == CanonParts(b, keys)[i] {
          EquivHasSameCanon(fields[keys[i]], b.fields[keys[i]]);
        }
        assert CanonParts(a, keys) == CanonParts(b, keys);
    }
  }

  lemma {:induction false} EquivListsHaveSameCanon(xs: seq<Value>, ys: seq<Value>)
    requires EquivLists(xs, ys)
    ensures multiset(CanonAll(xs)) == multiset(CanonAll(ys))
    decreases xs, 0
  {
    if xs != [] {
      var j :| 0 <= j < |ys| && Equiv(xs[0], ys[j]) && EquivLists(xs[1..], Without(ys, j));
      EquivHasSameCanon(xs[0], ys[j]);
      EquivListsHaveSameCanon(xs[1..], Without(ys, j));
      CanonAllWithout(ys, j);
      assert CanonAll(xs)[1..] == CanonAll(xs[1..]);
      PairOff(CanonAll(xs), CanonAll(ys), j);
    }
  }

  // ---------- reading the canonical text back ----------

  const SPECIAL: string := ",:[]{}\""

  /** A token without quotes: a number or a literal name. */
  predicate Bare(t: string) {
    t != "" && forall c :: c in t ==> c !in SPECIAL
  }

  /** A scalar's JSON text: a string, or a bare token other than the text of nil. */
  predicate IsToken(t: string) {
    Quoted(t) || (Bare(t) && t != "null")
  }

  /** Keys are printed without quotes; these are the ones the printed text cannot confuse. */
  predicate CleanKey(k: string) {
    ':' !in k && (k == "" || k[0] != '}')
  }

  ghost predicate Clean(v: Value) {
    match v
    case Null => true
    case Scalar(token) => IsToken(token)
    case List(items) => forall x :: x in items ==> Clean(x)
    case Object(fields) => forall k :: k in fields ==> CleanKey(k) && Clean(fields[k])
  }

  /** What may follow a value inside a canonical text. */
  predicate Stops(s: string) {
    s == "" || s[0] in ",]}"
  }

  lemma ReadQuoted(t: string, u: string, s: string, r: string)
    requires Quoted(t) && Quoted(u) && t + s == u + r
    ensures t == u && s == r
  {
    QuoteEndStays(t, s, 1);
    QuoteEndStays(u, r, 1);
    SplitAt(t, s, u, r);
  }

  lemma BareEndsFirst(t: string, u: string, s: string, r: string)
    requires Bare(u) && Stops(s) && t + s == u + r
    ensures |u| <= |t|
  {
    var w := t + s;
    assert forall i :: 0 <= i < |u| ==> w[i] == u[i] && u[i] in u;
    assert |t| < |w| ==> w[|t|] == s[0];
  }

  lemma ReadBare(t: string, u: string, s: string, r: string)
    requires Bare(t) && Bare(u) && Stops(s) && Stops(r) && t + s == u + r
    ensures t == u && s == r
  {
    BareEndsFirst(t, u, s, r);
    BareEndsFirst(u, t, r, s);
    SplitAt(t, s, u, r);
  }

  /** The first character of a canonical text tells which case produced it. */
  lemma FirstCharacter(v: Value)
    requires Clean(v)
    ensures Canon(v) != ""
    ensures v.List? <==> Canon(v)[0] == '['
    ensures v.Object? <==> Canon(v)[0] == '{'
    ensures Canon(v)[0] == '"' <==> v.Scalar? && Quoted(v.token)
    ensures Canon(v)[0] !in ",:]}"
  {
    match v {
      case Null => assert Bare("null");
      case Scalar(token) => assert token[0] in token;
      case List(_) =>
      case Object(_) =>
    }
  }

  /** Some value of vs has each text of X. */
  ghost predicate TextsOf(X: seq<string>, vs: seq<Value>) {
    && (forall v :: v in vs ==> Clean(v))
    && forall i :: 0 <= i < |X| ==> exists v :: v in vs && Canon(v) == X[i]
  }

  /** A canonical text inside a longer one can be read in one way only. */
  lemma {:induction false} ReadValue(a: Value, b: Value, s: string, r: string)
    requires Clean(a) && Clean(b) && Stops(s) && Stops(r)
    requires Canon(a) + s == Canon(b) + r
    ensures Canon(a) == Canon(b) && s == r
    decreases a, 1, 0
  {
    FirstCharacter(a);
    FirstCharacter(b);
    assert Canon(a)[0] == (Canon(a) + s)[0] == Canon(b)[0];
    if a.List? {
      ReadList(a.items, b.items, s, r);
    } else if a.Object? {
      ReadObject(a, b, s, r);
    } else if Canon(a)[0] == '"' {
      ReadQuoted(a.token, b.token, s, r);
    } else {
      ReadBare(Canon(a), Canon(b), s, r);
    }
  }

  lemma {:induction false} ReadList(xs: seq<Value>, ys: seq<Value>, s: string, r: string)
    requires (forall x :: x in xs ==> Clean(x)) && (forall y :: y in ys ==> Clean(y))
    requires Canon(List(xs)) + s == Canon(List(ys)) + r
    ensures Canon(List(xs)) == Canon(List(ys)) && s == r
    decreases xs, 1, 0
  {
    hide Canon, Clean, CanonAll, SortStrings, TextsOf;
    var X, Y := SortStrings(CanonAll(xs)), SortStrings(CanonAll(ys));
    SortedTexts(xs);
    SortedTexts(ys);
    ListBody(xs, s);
    ListBody(ys, r);
    ReadItems(xs, X, ys, Y, s, r);
    SplitAt(Canon(List(xs)), s, Canon(List(ys)), r);
  }

  lemma ListBody(xs: seq<Value>, s: string)
    ensures Join(SortStrings(CanonAll(xs)), ",") + ("]" + s) == (Canon(List(xs)) + s)[1..]
  {
    hide CanonAll, Join, SortStrings;
    var body := Join(SortStrings(CanonAll(xs)), ",");
    assert Canon(List(xs)) + s == "[" + (body + ("]" + s));
  }

  lemma SortedTexts(xs: seq<Value>)
    requires forall x :: x in xs ==> Clean(x)
    ensures TextsOf(SortStrings(CanonAll(xs)), xs)
  {
    var X := SortStrings(CanonAll(xs));
    SortIsSortedPermutation(CanonAll(xs));
    forall i | 0 <= i < |X| ensures exists v :: v in xs && Canon(v) == X[i] {
      assert X[i] in multiset(X);
      var j :| 0 <= j < |xs| && CanonAll(xs)[j] == X[i];
      assert xs[j] in xs && Canon(xs[j]) == X[i];
    }
  }

  /** Two comma-separated listings of canonical texts that read the same are the same. */
  lemma {:induction false} ReadItems(xs: seq<Value>, X: seq<string>, ys: seq<Value>, Y: seq<string>, s: string,
                                     r: string)
    requires TextsOf(X, xs) && TextsOf(Y, ys)
    requires Join(X, ",") + ("]" + s) == Join(Y, ",") + ("]" + r)
    ensures X == Y && s == r
    decreases xs, 0, |X|
  {
    hide Canon, Clean, TextsOf, Join;
    var w := Join(X, ",") + ("]" + s);
    if X == [] || Y == [] {
      ListingStart(X, xs, s);
      ListingStart(Y, ys, r);
    } else {
      var x := FirstText(X, xs);
      var y := FirstText(Y, ys);
      ListingTail(X, s);
      ListingTail(Y, r);
      ReadValue(x, y, After(X, s), After(Y, r));
      SameRemainder(X, s, Y, r);
      if |X| > 1 {
        ReadItems(xs, X[1..], ys, Y[1..], s, r);
      }
      assert X == [X[0]] + X[1..] && Y == [Y[0]] + Y[1..];
    }
  }

  lemma SameRemainder(X: seq<string>, s: string, Y: seq<string>, r: string)
    requires X != [] && Y != [] && After(X, s) == After(Y, r)
    ensures |X| == 1 <==> |Y| == 1
    ensures |X| == 1 ==> s == r
    ensures |X| > 1 ==> Join(X[1..], ",") + ("]" + s) == Join(Y[1..], ",") + ("]" + r)
  {
    assert After(X, s)[0] == After(Y, r)[0];
    assert After(X, s)[1..] == if |X| == 1 then s else Join(X[1..], ",") + ("]" + s);
    assert After(Y, r)[1..] == if |Y| == 1 then r else Join(Y[1..], ",") + ("]" + r);
  }

  lemma FirstText(X: seq<string>, xs: seq<Value>) returns (x: Value)
    requires TextsOf(X, xs) && X != []
    ensures x in xs && Clean(x) && Canon(x) == X[0]
    ensures TextsOf(X[1..], xs)
  {
    hide Canon, Clean;
    var text := X[0];
    x :| x in xs && Canon(x) == text;
  }

  /** What follows the first text of a listing. */
  function After(X: seq<string>, s: string): string
    requires X != []
  {
    if |X| == 1 then "]" + s else "," + (Join(X[1..], ",") + ("]" + s))
  }

  lemma ListingTail(X: seq<string>, s: string)
    requires X != []
    ensures Join(X, ",") + ("]" + s) == X[0] + After(X, s)
  {
  }

  lemma ListingStart(X: seq<string>, xs: seq<Value>, s: string)
    requires TextsOf(X, xs)
    ensures (Join(X, ",") + ("]" + s))[0] == ']' <==> X == []
    ensures X == [] ==> (Join(X, ",") + ("]" + s))[1..] == s
  {
    if X != [] {
      var x: Value :| x in xs && Canon(x) == X[0];
      FirstCharacter(x);
    }
  }

  /** The text of the fields of v listed in ks, up to the closing brace and beyond. */
  function Fields(v: Value, ks: seq<string>, s: string): string
    requires v.Object? && forall k :: k in ks ==> k in v.fields
  {
    Join(CanonParts(v, ks), ",") + ("}" + s)
  }

  lemma {:induction false} ReadObject(a: Value, b: Value, s: string, r: string)
    requires a.Object? && b.Object? && Clean(a) && Clean(b)
    requires Canon(a) + s == Canon(b) + r
    ensures Canon(a) == Canon(b) && s == r
    ensures a.fields.Keys == b.fields.Keys
    ensures forall k :: k in a.fields ==> Canon(a.fields[k]) == Canon(b.fields[k])
    decreases a, 0, 1, 0
  {
    hide *;
    var ks, ls := SortedKeys(a.fields.Keys), SortedKeys(b.fields.Keys);
    ObjectBody(a, s);
    ObjectBody(b, r);
    ReadFields(a, ks, b, ls, s, r);
    SplitAt(Canon(a), s, Canon(b), r);
  }

  lemma ObjectBody(v: Value, s: string)
    requires v.Object?
    ensures Fields(v, SortedKeys(v.fields.Keys), s) == (Canon(v) + s)[1..]
  {
    hide CanonParts, Join, SortedKeys;
    var body := Join(CanonParts(v, SortedKeys(v.fields.Keys)), ",");
    assert Canon(v) == "{" + body + "}";
    hide Canon;
    Enclosed(body, s);
  }

  lemma Enclosed(body: string, s: string)
    ensures (("{" + body + "}") + s)[1..] == body + ("}" + s)
  {
  }

  lemma {:induction false} ReadFields(a: Value, ks: seq<string>, b: Value, ls: seq<string>, s: string, r: string)
    requires a.Object? && b.Object? && Clean(a) && Clean(b)
    requires (forall k :: k in ks ==> k in a.fields) && (forall k :: k in ls ==> k in b.fields)
    requires Fields(a, ks, s) == Fields(b, ls, r)
    ensures ks == ls && s == r
    ensures forall k :: k in ks ==> Canon(a.fields[k]) == Canon(b.fields[k])
    decreases a, 0, 0, |ks|
  {
    hide Canon, Clean, CanonParts, Fields;
    FieldsStart(a, ks, s);
    FieldsStart(b, ls, r);
    if ks == [] || ls == [] {
    } else {
      var k, l := ks[0], ls[0];
      assert k in ks && l in ls;
      ReadKey(k, Canon(a.fields[k]) + AfterField(a, ks, s), l, Canon(b.fields[l]) + AfterField(b, ls, r));
      ReadValue(a.fields[k], b.fields[l], AfterField(a, ks, s), AfterField(b, ls, r));
      if |ks| == 1 || |ls| == 1 {
        assert AfterField(a, ks, s)[0] == AfterField(b, ls, r)[0];
        assert s == ("}" + s)[1..] && r == ("}" + r)[1..];
        assert ks == [k] && ls == [l];
      } else {
        assert Fields(a, ks[1..], s) == AfterField(a, ks, s)[1..];
        assert Fields(b, ls[1..], r) == AfterField(b, ls, r)[1..];
        ReadFields(a, ks[1..], b, ls[1..], s, r);
        assert ks == [k] + ks[1..] && ls == [l] + ls[1..];
      }
    }
  }

  function AfterField(v: Value, ks: seq<string>, s: string): string
    requires v.Object? && ks != [] && forall k :: k in ks ==> k in v.fields
  {
    if |ks| == 1 then "}" + s else "," + Fields(v, ks[1..], s)
  }

  lemma CleanField(v: Value, k: string)
    requires v.Object? && Clean(v) && k in v.fields
    ensures CleanKey(k) && Clean(v.fields[k])
  {
  }

  lemma PartsTail(v: Value, ks: seq<string>)
    requires v.Object? && ks != [] && forall k :: k in ks ==> k in v.fields
    ensures CanonParts(v, ks)[1..] == CanonParts(v, ks[1..])
    ensures CanonParts(v, ks)[0] == ks[0] + ":" + Canon(v.fields[ks[0]])
  {
    hide Canon;
  }

  lemma FieldsStart(v: Value, ks: seq<string>, s: string)
    requires v.Object? && Clean(v) && forall k :: k in ks ==> k in v.fields
    ensures ks != [] ==> Fields(v, ks, s) == ks[0] + (":" + (Canon(v.fields[ks[0]]) + AfterField(v, ks, s)))
    ensures ks != [] ==> CleanKey(ks[0]) && Clean(v.fields[ks[0]])
    ensures ks == [] ==> Fields(v, ks, s)[1..] == s
    ensures Fields(v, ks, s) != "" && (Fields(v, ks, s)[0] == '}' <==> ks == [])
  {
    hide Canon, Clean, CanonParts;
    if ks == [] {
      assert CanonParts(v, ks) == [];
    } else {
      assert ks[0] in ks;
      CleanField(v, ks[0]);
      PartsTail(v, ks);
    }
  }

  lemma ReadKey(k: string, s: string, l: string, r: string)
    requires ':' !in k && ':' !in l && k + (":" + s) == l + (":" + r)
    ensures k == l && s == r
  {
    KeyEndsFirst(k, s, l, r);
    KeyEndsFirst(l, r, k, s);
    SplitAt(k, ":" + s, l, ":" + r);
    assert s == (":" + s)[1..] && r == (":" + r)[1..];
  }

  lemma KeyEndsFirst(k: string, s: string, l: string, r: string)
    requires ':' !in l && k + (":" + s) == l + (":" + r)
    ensures |l| <= |k|
  {
    var w := k + (":" + s);
    assert forall i :: 0 <= i < |l| ==> w[i] == l[i] && l[i] in l;
    assert w[|k|] == ':';
  }

  // ---------- the canonical text decides equivalence ----------

  lemma {:induction false} SameCanonIsEquiv(a: Value, b: Value)
    requires Clean(a) && Clean(b) && Canon(a) == Canon(b)
    ensures Equiv(a, b)
    decreases a, 0
  {
    FirstCharacter(a);
    FirstCharacter(b);
    match a {
      case Null => assert !Quoted("null");
      case Scalar(_) =>
      case List(items) =>
        SameListTexts(items, b.items);
        SameTextsAreEquivLists(items, b.items);
      case Object(fields) =>
        ReadObject(a, b, "", "");
        forall k | k in fields ensures Equiv(fields[k], b.fields[k]) {
          SameCanonIsEquiv(fields[k], b.fields[k]);
        }
    }
  }

  lemma SameListTexts(xs: seq<Value>, ys: seq<Value>)
    requires (forall x :: x in xs ==> Clean(x)) && (forall y :: y in ys ==> Clean(y))
    requires Canon(List(xs)) == Canon(List(ys))
    ensures multiset(CanonAll(xs)) == multiset(CanonAll(ys))
  {
    hide CanonAll, Clean, TextsOf;
    var X, Y := SortStrings(CanonAll(xs)), SortStrings(CanonAll(ys));
    SortedTexts(xs);
    SortedTexts(ys);
    assert Join(X, ",") + ("]" + "") == Canon(List(xs))[1..];
    assert Join(Y, ",") + ("]" + "") == Canon(List(ys))[1..];
    ReadItems(xs, X, ys, Y, "", "");
    SortDependsOnElementsOnly(CanonAll(xs), CanonAll(ys));
  }

  lemma {:induction false} SameTextsAreEquivLists(xs: seq<Value>, ys: seq<Value>)
    requires (forall x :: x in xs ==> Clean(x)) && (forall y :: y in ys ==> Clean(y))
    requires multiset(CanonAll(xs)) == multiset(CanonAll(ys))
    ensures EquivLists(xs, ys)
    decreases xs, 0
  {
    hide Canon, Equiv, Clean, Text.SortStrings;
    if xs == [] {
      assert |multiset(CanonAll(ys))| == 0;
    } else {
      assert CanonAll(xs)[0] in multiset(CanonAll(ys));
      var j :| 0 <= j < |ys| && CanonAll(ys)[j] == CanonAll(xs)[0];
      SameCanonIsEquiv(xs[0], ys[j]);
      CanonAllWithout(ys, j);
      assert CanonAll(xs)[1..] == CanonAll(xs[1..]);
      PairOff(CanonAll(xs), CanonAll(ys), j);
      StaysClean(ys, j);
      hide Without, CanonAll;
      SameTextsAreEquivLists(xs[1..], Without(ys, j));
    }
  }

  lemma StaysClean(ys: seq<Value>, j: nat)
    requires j < |ys| && forall y :: y in ys ==> Clean(y)
    ensures forall y :: y in Without(ys, j) ==> Clean(y)
  {
    hide Clean;
  }

  /** For clean trees the canonical text is equal exactly when the trees are equal up to list order. */
  lemma CanonDecidesEquiv(a: Value, b: Value)
    requires Clean(a) && Clean(b)
    ensures Canon(a) == Canon(b) <==> Equiv(a, b)
  {
    if Equiv(a, b) {
      EquivHasSameCanon(a, b);
    }
    if Canon(a) == Canon(b) {
      SameCanonIsEquiv(a, b);
    }
  }

  lemma {:induction false} EquivReflexive(a: Value)
    ensures Equiv(a, a)
    decreases a, 0
  {
    match a {
      case Null =>
      case Scalar(_) =>
      case List(items) => ShuffledListsAreEquiv(items, items);
      case Object(fields) => forall k | k in fields { EquivReflexive(fields[k]); }
    }
  }

  /** Reordering a list, in any way, gives an equivalent list. */
  lemma {:induction false} ShuffledListsAreEquiv(xs: seq<Value>, ys: seq<Value>)
    requires multiset(xs) == multiset(ys)
    ensures EquivLists(xs, ys)
    decreases xs, 0
  {
    if xs == [] {
      assert |multiset(ys)| == 0;
    } else {
      assert xs[0] in multiset(ys);
      var j :| 0 <= j < |ys| && ys[j] == xs[0];
      PairOff(xs, ys, j);
      ShuffledListsAreEquiv(xs[1..], Without(ys, j));
      EquivReflexive(xs[0]);
    }
  }

  // ---------- what unquoted keys can hide ----------

  lemma OneField(k: string, v: Value)
    ensures Canon(Object(map[k := v])) == "{" + (k + ":" + Canon(v)) + "}"
  {
    var m := map[k := v];
    StrictListingIsUnique(SortedKeys(m.Keys), [k]);
    assert CanonParts(Object(m), [k]) == [k + ":" + Canon(v)];
  }

  lemma TwoFields(k: string, v: Value, l: string, w: Value)
    requires Less(k, l)
    ensures Canon(Object(map[k := v, l := w])) == "{" + (k + ":" + Canon(v) + "," + (l + ":" + Canon(w))) + "}"
  {
    var o := Object(map[k := v, l := w]);
    StrictListingIsUnique(SortedKeys(o.fields.Keys), [k, l]);
    assert CanonParts(o, [k, l]) == [k + ":" + Canon(v), l + ":" + Canon(w)];
    JoinTwo(k + ":" + Canon(v), l + ":" + Canon(w));
  }

  lemma JoinTwo(x: string, y: string)
    ensures Join([x, y], ",") == x + "," + y
  {
    assert [x, y][1..] == [y];
  }

  lemma {:induction false} EquivListsHaveSameLength(xs: seq<Value>, ys: seq<Value>)
    requires EquivLists(xs, ys)
    ensures |xs| == |ys|
  {
    if xs != [] {
      var j :| 0 <= j < |ys| && Equiv(xs[0], ys[j]) && EquivLists(xs[1..], Without(ys, j));
      EquivListsHaveSameLength(xs[1..], Without(ys, j));
    }
  }

  /** Every record of two fields looks like one whose only key holds the first field, a comma and the second key. */
  lemma ColonInKeyCollides(k: string, u: Value, l: string, v: Value)
    requires Less(k, l)
    ensures var joined := Object(map[k + ":" + Canon(u) + "," + l := v]);
            && Canon(joined) == Canon(Object(map[k := u, l := v]))
            && !Equiv(joined, Object(map[k := u, l := v]))
  {
    var key := k + ":" + Canon(u) + "," + l;
    OneField(key, v);
    TwoFields(k, u, l, v);
    assert key + ":" + Canon(v) == k + ":" + Canon(u) + "," + (l + ":" + Canon(v)) by {
      SameText(k + ":" + Canon(u) + ",", l, Canon(v));
    }
    assert k != l && k in map[k := u, l := v].Keys && l in map[k := u, l := v].Keys;
  }

  lemma SameText(x: string, l: string, c: string)
    ensures x + l + ":" + c == x + (l + ":" + c)
  {
  }

  /** So does a closing brace at the start of a key, even without a colon in any key. */
  lemma BraceInKeyCollides(v: Value)
    ensures Canon(List([Object(map["},{~" := v])])) == Canon(List([Object(map[]), Object(map["~" := v])]))
    ensures !Equiv(List([Object(map["},{~" := v])]), List([Object(map[]), Object(map["~" := v])]))
  {
    hide Canon, CanonAll, SortStrings, Join;
    var b, e, o := Object(map["},{~" := v]), Object(map[]), Object(map["~" := v]);
    BraceTexts(v);
    ListOfTwo(e, o);
    ListOfOne(b);
    if EquivLists([b], [e, o]) { EquivListsHaveSameLength([b], [e, o]); }
  }

  lemma BraceTexts(v: Value)
    ensures var b, e, o := Object(map["},{~" := v]), Object(map[]), Object(map["~" := v]);
            Leq(Canon(e), Canon(o)) && Canon(b) == Canon(e) + "," + Canon(o)
  {
    hide Canon, Leq;
    OneField("},{~", v);
    OneField("~", v);
    EmptyObject();
    BraceText(Canon(v));
  }

  lemma BraceText(c: string)
    ensures "{" + ("},{~" + ":" + c) + "}" == "{}" + "," + ("{" + ("~" + ":" + c) + "}")
    ensures Leq("{}", "{" + ("~" + ":" + c) + "}")
  {
    var l, r, o := "{" + ("},{~" + ":" + c) + "}", "{}" + "," + ("{" + ("~" + ":" + c) + "}"),
        "{" + ("~" + ":" + c) + "}";
    assert o[0] == '{' && o[1..][0] == '~';
    assert l[..5] == "{},{~" == r[..5];
    assert l[5..] == ":" + c + "}" == r[5..];
    assert l == l[..5] + l[5..] && r == r[..5] + r[5..];
  }

  lemma EmptyObject()
    ensures Canon(Object(map[])) == "{}"
  {
    StrictListingIsUnique(SortedKeys({}), []);
  }

  lemma ListOfOne(x: Value)
    ensures Canon(List([x])) == "[" + Canon(x) + "]"
  {
    assert CanonAll([x]) == [Canon(x)];
    assert SortStrings([Canon(x)]) == [Canon(x)];
  }

  lemma ListOfTwo(x: Value, y: Value)
    requires Leq(Canon(x), Canon(y))
    ensures Canon(List([x, y])) == "[" + (Canon(x) + "," + Canon(y)) + "]"
  {
    assert CanonAll([x, y]) == [Canon(x), Canon(y)];
    SortedPair(Canon(x), Canon(y));
    JoinTwo(Canon(x), Canon(y));
  }

  lemma SortedPair(x: string, y: string)
    requires Leq(x, y)
    ensures SortStrings([x, y]) == [x, y]
  {
    SortIsSortedPermutation([x, y]);
    SortedListingIsUnique(SortStrings([x, y]), [x, y]);
  }
}
