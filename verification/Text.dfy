/**
 Strings as the repository compares, sorts and joins them. Byte-wise order on UTF-8 text is
 the order of code points, so characters are compared by their code.
*/
module Text {

  datatype Option<+T> = None | Some(value: T)

  datatype Result<+T, +E> = Ok(value: T) | Err(error: E)

  // ---------- order ----------

  predicate Leq(a: string, b: string) {
    a == [] || (b != [] && (a[0] < b[0] || (a[0] == b[0] && Leq(a[1..], b[1..]))))
  }

  predicate Less(a: string, b: string) {
    Leq(a, b) && a != b
  }

  lemma {:induction false} LeqReflexive(a: string)
    ensures Leq(a, a)
  {
    if a != [] { LeqReflexive(a[1..]); }
  }

  lemma {:induction false} LeqTotal(a: string, b: string)
    ensures Leq(a, b) || Leq(b, a)
  {
    if a != [] && b != [] { LeqTotal(a[1..], b[1..]); }
  }

  lemma {:induction false} LeqAntisymmetric(a: string, b: string)
    requires Leq(a, b) && Leq(b, a)
    ensures a == b
  {
    if a != [] {
      LeqAntisymmetric(a[1..], b[1..]);
      assert a == [a[0]] + a[1..] && b == [b[0]] + b[1..];
    }
  }

  lemma {:induction false} LeqTransitive(a: string, b: string, c: string)
    requires Leq(a, b) && Leq(b, c)
    ensures Leq(a, c)
  {
    if a != [] && a[0] == b[0] && b[0] == c[0] { LeqTransitive(a[1..], b[1..], c[1..]); }
  }

  // ---------- sorting ----------

  ghost predicate Sorted(xs: seq<string>) {
    forall i, j :: 0 <= i < j < |xs| ==> Leq(xs[i], xs[j])
  }

  ghost predicate StrictlySorted(xs: seq<string>) {
    forall i, j :: 0 <= i < j < |xs| ==> Less(xs[i], xs[j])
  }

  function InsertSorted(x: string, xs: seq<string>): seq<string> {
    if xs == [] || Leq(x, xs[0]) then [x] + xs else [xs[0]] + InsertSorted(x, xs[1..])
  }

  /** The sorted permutation of a list of strings. */
  function SortStrings(xs: seq<string>): seq<string> {
    if xs == [] then [] else InsertSorted(xs[0], SortStrings(xs[1..]))
  }

  lemma {:induction false} InsertKeepsElements(x: string, xs: seq<string>)
    ensures multiset(InsertSorted(x, xs)) == multiset{x} + multiset(xs)
  {
    if xs != [] && !Leq(x, xs[0]) {
      InsertKeepsElements(x, xs[1..]);
      assert xs == [xs[0]] + xs[1..];
    }
  }

  lemma {:induction false} InsertKeepsOrder(x: string, xs: seq<string>)
    requires Sorted(xs)
    ensures Sorted(InsertSorted(x, xs))
  {
    if xs != [] && !Leq(x, xs[0]) {
      InsertKeepsOrder(x, xs[1..]);
      LeqTotal(x, xs[0]);
      var rest := InsertSorted(x, xs[1..]);
      InsertKeepsElements(x, xs[1..]);
      forall k | 0 <= k < |rest| ensures Leq(xs[0], rest[k]) {
        assert rest[k] in multiset(rest);
        assert rest[k] == x || rest[k] in xs[1..];
      }
    } else {
      forall k | 0 <= k < |xs| ensures Leq(x, xs[k]) {
        if k > 0 { LeqTransitive(x, xs[0], xs[k]); }
      }
    }
  }

  lemma {:induction false} SortIsSortedPermutation(xs: seq<string>)
    ensures Sorted(SortStrings(xs)) && multiset(SortStrings(xs)) == multiset(xs)
  {
    if xs != [] {
      SortIsSortedPermutation(xs[1..]);
      InsertKeepsOrder(xs[0], SortStrings(xs[1..]));
      InsertKeepsElements(xs[0], SortStrings(xs[1..]));
      assert xs == [xs[0]] + xs[1..];
    }
  }

  lemma FirstIsLeast(xs: seq<string>, x: string)
    requires Sorted(xs) && x in multiset(xs)
    ensures xs != [] && Leq(xs[0], x)
  {
    var i :| 0 <= i < |xs| && xs[i] == x;
    LeqReflexive(x);
  }

  /** A multiset of strings has one sorted listing. */
  lemma {:induction false} SortedListingIsUnique(xs: seq<string>, ys: seq<string>)
    requires Sorted(xs) && Sorted(ys) && multiset(xs) == multiset(ys)
    ensures xs == ys
    decreases |xs|
  {
    hide Leq, Sorted;
    if xs == [] {
      assert |multiset(ys)| == 0;
    } else {
      assert xs[0] in multiset(ys);
      SameFirst(xs, ys);
      TailElements(xs);
      TailElements(ys);
      TailIsSorted(xs);
      TailIsSorted(ys);
      SortedListingIsUnique(xs[1..], ys[1..]);
      assert xs == [xs[0]] + xs[1..] && ys == [ys[0]] + ys[1..];
    }
  }

  lemma SameFirst(xs: seq<string>, ys: seq<string>)
    requires Sorted(xs) && Sorted(ys) && multiset(xs) == multiset(ys) && xs != [] && ys != []
    ensures xs[0] == ys[0]
  {
    hide Leq, Sorted;
    assert xs[0] in multiset(xs) && ys[0] in multiset(ys);
    FirstIsLeast(ys, xs[0]);
    FirstIsLeast(xs, ys[0]);
    LeqAntisymmetric(xs[0], ys[0]);
  }

  lemma TailIsSorted(xs: seq<string>)
    requires Sorted(xs) && xs != []
    ensures Sorted(xs[1..])
  {
    hide Leq;
  }

  lemma SortDependsOnElementsOnly(xs: seq<string>, ys: seq<string>)
    ensures SortStrings(xs) == SortStrings(ys) <==> multiset(xs) == multiset(ys)
  {
    SortIsSortedPermutation(xs);
    SortIsSortedPermutation(ys);
    if multiset(xs) == multiset(ys) {
      SortedListingIsUnique(SortStrings(xs), SortStrings(ys));
    }
  }

  // ---------- sorted keys of a set ----------

  ghost predicate IsLeast(x: string, s: set<string>) {
    x in s && forall y :: y in s ==> Leq(x, y)
  }

  lemma {:induction false} LeastExists(s: set<string>)
    requires s != {}
    ensures exists x :: IsLeast(x, s)
  {
    hide Leq;
    var x :| x in s;
    LeqReflexive(x);
    if s == {x} {
      assert IsLeast(x, s);
    } else {
      LeastExists(s - {x});
      var z :| IsLeast(z, s - {x});
      LeastOfOneMore(s, x, z);
    }
  }

  lemma LeastOfOneMore(s: set<string>, x: string, z: string)
    requires x in s && IsLeast(z, s - {x})
    ensures IsLeast(x, s) || IsLeast(z, s)
  {
    hide Leq;
    LeqTotal(x, z);
    LeqReflexive(x);
    if Leq(x, z) {
      forall y | y in s ensures Leq(x, y) { if y != x { LeqTransitive(x, z, y); } }
    }
  }

  lemma LeastIsUnique(s: set<string>, x: string, y: string)
    requires IsLeast(x, s) && IsLeast(y, s)
    ensures x == y
  {
    hide Leq;
    LeqAntisymmetric(x, y);
  }

  function Least(s: set<string>): (x: string)
    requires s != {}
    ensures IsLeast(x, s)
  {
    LeastExists(s);
    hide Leq;
    assert forall p, q ::
             p in s && q in s && (forall y :: y in s ==> Leq(p, y)) && (forall y :: y in s ==> Leq(q, y))
             ==> p == q by {
      forall p, q | IsLeast(p, s) && IsLeast(q, s) ensures p == q { LeastIsUnique(s, p, q); }
      assert forall p :: p in s && (forall y :: y in s ==> Leq(p, y)) ==> IsLeast(p, s);
    }
    var x :| x in s && forall y :: y in s ==> Leq(x, y);
    x
  }

  /** The elements of a set in increasing order. */
  function SortedKeys(s: set<string>): (r: seq<string>)
    ensures forall x :: x in r <==> x in s
    ensures StrictlySorted(r)
    ensures |r| == |s|
  {
    if s == {} then []
    else
      var rest := SortedKeys(s - {Least(s)});
      LeastInFront(s, rest);
      [Least(s)] + rest
  }

  lemma LeastInFront(s: set<string>, rest: seq<string>)
    requires s != {} && StrictlySorted(rest) && |rest| == |s| - 1 && forall x :: x in rest <==> x in s - {Least(s)}
    ensures StrictlySorted([Least(s)] + rest) && forall x :: x in [Least(s)] + rest <==> x in s
  {
    hide Leq, Least;
    var all := [Least(s)] + rest;
    forall i, j | 0 <= i < j < |all| ensures Less(all[i], all[j]) {
      assert all[j] == rest[j - 1] && rest[j - 1] in rest;
      assert i > 0 ==> Less(rest[i - 1], rest[j - 1]);
    }
  }

  lemma StrictListingIsUnique(xs: seq<string>, ys: seq<string>)
    requires StrictlySorted(xs) && StrictlySorted(ys)
    requires forall x :: x in xs <==> x in ys
    ensures xs == ys
  {
    StrictIsCounted(xs);
    StrictIsCounted(ys);
    assert multiset(xs) == multiset(ys);
    SortedListingIsUnique(xs, ys);
  }

  lemma {:induction false} StrictIsCounted(xs: seq<string>)
    requires StrictlySorted(xs)
    ensures forall x :: multiset(xs)[x] == if x in xs then 1 else 0
  {
    if xs != [] {
      StrictIsCounted(xs[1..]);
      assert xs == [xs[0]] + xs[1..];
      assert xs[0] !in xs[1..];
    }
  }

  // ---------- removing one element ----------

  function Without<T>(xs: seq<T>, j: nat): seq<T>
    requires j < |xs|
  {
    xs[..j] + xs[j + 1..]
  }

  lemma WithoutElements<T>(xs: seq<T>, j: nat)
    requires j < |xs|
    ensures multiset(xs) == multiset(Without(xs, j)) + multiset{xs[j]}
    ensures multiset(Without(xs, j)) == multiset(xs) - multiset{xs[j]}
  {
    assert xs == xs[..j] + ([xs[j]] + xs[j + 1..]);
  }

  lemma TailElements<T>(xs: seq<T>)
    requires xs != []
    ensures multiset(xs) == multiset(xs[1..]) + multiset{xs[0]}
    ensures multiset(xs[1..]) == multiset(xs) - multiset{xs[0]}
  {
    assert xs == [xs[0]] + xs[1..];
  }

  /** Removing a common element from both sides neither makes nor breaks equality of multisets. */
  lemma PairOff<T>(xs: seq<T>, ys: seq<T>, j: nat)
    requires xs != [] && j < |ys| && xs[0] == ys[j]
    ensures multiset(xs[1..]) == multiset(Without(ys, j)) <==> multiset(xs) == multiset(ys)
  {
    TailElements(xs);
    WithoutElements(ys, j);
  }

  // ---------- joining ----------

  function Join(parts: seq<string>, sep: string): string {
    if parts == [] then ""
    else if |parts| == 1 then parts[0]
    else parts[0] + sep + Join(parts[1..], sep)
  }

  // ---------- quoted strings and prefixes ----------

  /** Where the JSON string that is open at position i ends, or 0 when it does not end. */
  function QuoteEnd(t: string, i: nat): nat
    decreases |t| - i
  {
    if i >= |t| then 0
    else if t[i] == '"' then i + 1
    else if t[i] == '\\' then QuoteEnd(t, i + 2)
    else QuoteEnd(t, i + 1)
  }

  predicate Quoted(t: string) {
    t != "" && t[0] == '"' && QuoteEnd(t, 1) == |t|
  }

  lemma QuoteEndStays(t: string, s: string, i: nat)
    requires QuoteEnd(t, i) != 0
    ensures QuoteEnd(t + s, i) == QuoteEnd(t, i)
    decreases |t| - i
  {
    if t[i] != '"' {
      QuoteEndStays(t, s, if t[i] == '\\' then i + 2 else i + 1);
    }
  }

  lemma SplitAt(t: string, s: string, u: string, r: string)
    requires t + s == u + r && |t| == |u|
    ensures t == u && s == r
  {
    assert t == (t + s)[..|t|] && u == (u + r)[..|u|];
    assert s == (t + s)[|t|..] && r == (u + r)[|u|..];
  }
}
