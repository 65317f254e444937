/**
 When a detour can be cheaper than the direct way: the distance of optimal string alignment edits no
 substring twice, so a swapped pair cannot be edited again (internal/lsp/code_actions.go).
*/
module EditDetours {
  import opened EditDistance

  // ---------- scripts without transpositions ----------

  /** Two different neighbours of one text stand side by side in the other, the other way round. */
  ghost predicate Swappable(a: string, b: string) {
    exists i, j :: SwapsAt(a, b, i, j)
  }

  ghost predicate SwapsAt(a: string, b: string, i: int, j: int) {
    0 < i < |a| && 0 < j < |b| && a[i] == b[j - 1] && a[i - 1] == b[j] && a[i] != a[i - 1]
  }

  predicate Plain(s: Script) {
    forall e :: e in s ==> !e.Transpose?
  }

  lemma PlainSnoc(s: Script, e: Edit)
    requires Plain(s) && !e.Transpose?
    ensures Plain(s + [e])
  {
  }

  /** Between texts without a swapped pair, a transposition swaps equal characters and can be two keeps. */
  lemma {:induction false} WithoutSwaps(s: Script) returns (t: Script)
    requires !Swappable(Source(s), Target(s))
    ensures Rewrites(t, Source(s), Target(s)) && Plain(t) && Cost(t) <= Cost(s)
  {
    if s == [] {
      t := [];
    } else {
      var p, e := s[..|s| - 1], s[|s| - 1];
      PrefixesDoNotSwap(Source(p), e.Before(), Target(p), e.After());
      t := WithoutSwaps(p);
      if e.Transpose? {
        SwapAtEnd(Source(p), Target(p), e.c, e.d);
        t := KeepTwice(t, e.c);
      } else {
        Snoc(t, e);
        PlainSnoc(t, e);
        t := t + [e];
      }
    }
  }

  lemma KeepTwice(s: Script, c: char) returns (t: Script)
    requires Plain(s)
    ensures Source(t) == Source(s) + [c, c] && Target(t) == Target(s) + [c, c] && Cost(t) == Cost(s) && Plain(t)
  {
    Snoc(s, Keep(c));
    Snoc(s + [Keep(c)], Keep(c));
    t := s + [Keep(c)] + [Keep(c)];
    assert Source(s) + [c] + [c] == Source(s) + [c, c];
    assert Target(s) + [c] + [c] == Target(s) + [c, c];
  }

  lemma PrefixesDoNotSwap(a: string, x: string, b: string, y: string)
    requires !Swappable(a + x, b + y)
    ensures !Swappable(a, b)
  {
    forall i, j ensures SwapsAt(a, b, i, j) ==> SwapsAt(a + x, b + y, i, j) {
    }
  }

  lemma SwapAtEnd(a: string, b: string, c: char, d: char)
    ensures c != d ==> Swappable(a + [c, d], b + [d, c])
  {
    assert c != d ==> SwapsAt(a + [c, d], b + [d, c], |a| + 1, |b| + 1);
  }

  // ---------- composing scripts ----------

  /** The edit that does to a character what two edits do one after the other. */
  function Both(e: Edit, f: Edit): Script
    requires !e.Transpose? && !e.Delete? && !f.Transpose? && !f.Insert?
  {
    match (e, f)
    case (Insert(_), Delete(_)) => []
    case (Insert(_), Keep(_)) => [e]
    case (Insert(_), Substitute(_, d)) => [Insert(d)]
    case (Keep(_), _) => [f]
    case (Substitute(c, _), Delete(_)) => [Delete(c)]
    case (Substitute(_, _), Keep(_)) => [e]
    case (Substitute(c, _), Substitute(_, d)) => [Substitute(c, d)]
  }

  /** Scripts without transpositions compose, at no more than the sum of their costs. */
  lemma {:induction false} Compose(s: Script, t: Script) returns (r: Script)
    requires Plain(s) && Plain(t) && Target(s) == Source(t)
    ensures Rewrites(r, Source(s), Target(t)) && Cost(r) <= Cost(s) + Cost(t)
    decreases |s| + |t|
  {
    if s != [] && s[|s| - 1].Delete? {
      var p, e := s[..|s| - 1], s[|s| - 1];
      r := Compose(p, t);
      Snoc(r, e);
      r := r + [e];
    } else if t != [] && t[|t| - 1].Insert? {
      var q, f := t[..|t| - 1], t[|t| - 1];
      r := Compose(s, q);
      Snoc(r, f);
      r := r + [f];
    } else if s == [] || t == [] {
      BothEmpty(s, t);
      r := [];
    } else {
      var p, e := s[..|s| - 1], s[|s| - 1];
      var q, f := t[..|t| - 1], t[|t| - 1];
      assert e in s && f in t;
      SameLast(Target(p), e.After(), Source(q), f.Before());
      r := Compose(p, q);
      r := Append(r, e, f);
    }
  }

  lemma Append(s: Script, e: Edit, f: Edit) returns (r: Script)
    requires !e.Transpose? && !e.Delete? && !f.Transpose? && !f.Insert? && e.After() == f.Before()
    ensures Source(r) == Source(s) + e.Before() && Target(r) == Target(s) + f.After()
            && Cost(r) <= Cost(s) + e.Price() + f.Price()
  {
    r := s + Both(e, f);
    if Both(e, f) != [] {
      Snoc(s, Both(e, f)[0]);
      assert Both(e, f) == [Both(e, f)[0]];
    } else {
      assert r == s;
    }
  }

  lemma SameLast(a: string, x: string, b: string, y: string)
    requires a + x == b + y && |x| == 1 && |y| == 1
    ensures a == b && x == y
  {
    assert (a + x)[|a|] == x[0] && (b + y)[|b|] == y[0];
    assert a == (a + x)[..|a|] && b == (b + y)[..|b|];
  }

  lemma BothEmpty(s: Script, t: Script)
    requires Plain(s) && Plain(t) && Target(s) == Source(t) && (s == [] || t == [])
    requires (s != [] ==> !s[|s| - 1].Delete?) && (t != [] ==> !t[|t| - 1].Insert?)
    ensures s == [] && t == []
  {
    if s != [] {
      LeavesSomething(s);
    } else if t != [] {
      LeavesSomething(t);
    }
  }

  lemma LeavesSomething(s: Script)
    requires s != []
    ensures Target(s) != "" || s[|s| - 1].Delete?
    ensures Source(s) != "" || s[|s| - 1].Insert?
  {
  }

  /** No detour through b is cheaper when neither leg has a swapped pair. */
  lemma TriangleWithoutSwaps(a: string, b: string, c: string)
    requires !Swappable(a, b) && !Swappable(b, c)
    ensures Distance(a, c) <= Distance(a, b) + Distance(b, c)
  {
    var s := BestScript(a, b);
    var t := BestScript(b, c);
    var p := WithoutSwaps(s);
    var q := WithoutSwaps(t);
    var r := Compose(p, q);
    assert IsLeastCost(Distance(a, c), a, c);
  }

  // ---------- exactly which texts can be passed through ----------

  /** The neighbours of the text are all equal: it repeats one character. */
  predicate OneCharacter(b: string) {
    forall i :: 0 < i < |b| ==> b[i] == b[i - 1]
  }

  /** No pair of texts is nearer by way of b. */
  ghost predicate NoShortcutThrough(b: string) {
    forall a, c :: Distance(a, c) <= Distance(a, b) + Distance(b, c)
  }

  /** The edit that consumes the k-th character, and the costs of what lies on each side of it. */
  ghost predicate Passes(a: string, c: string, cost: nat, k: nat, p: nat, q: nat, e: Edit) {
    && p <= k < p + |e.Before()| <= |a| && q + |e.After()| <= |c|
    && a[p..p + |e.Before()|] == e.Before() && c[q..q + |e.After()|] == e.After()
    && cost >= Distance(a[..p], c[..q]) + e.Price() + Distance(a[p + |e.Before()|..], c[q + |e.After()|..])
  }

  lemma {:induction false} PassesOver(s: Script, k: nat) returns (p: nat, q: nat, e: Edit)
    requires k < |Source(s)|
    ensures Passes(Source(s), Target(s), Cost(s), k, p, q, e)
  {
    hide Passes, Distance;
    var n := |s| - 1;
    var r, f := s[..n], s[n];
    if k >= |Source(r)| {
      p, q, e := |Source(r)|, |Target(r)|, f;
      PassesLast(r, f, k);
    } else {
      p, q, e := PassesOver(r, k);
      PassesMore(Source(r), Target(r), Cost(r), k, p, q, e, f);
    }
  }

  lemma PassesLast(r: Script, f: Edit, k: nat)
    requires |Source(r)| <= k < |Source(r)| + |f.Before()|
    ensures Passes(Source(r) + f.Before(), Target(r) + f.After(), Cost(r) + f.Price(), k, |Source(r)|, |Target(r)|, f)
  {
    hide Source, Target, Cost, Distance, IsLeastCost;
    Ends(Source(r), f.Before());
    Ends(Target(r), f.After());
    DistanceZeroIffEqual("", "");
    LeastFor(r);
  }

  lemma PassesMore(a: string, c: string, cost: nat, k: nat, p: nat, q: nat, e: Edit, f: Edit)
    requires Passes(a, c, cost, k, p, q, e)
    ensures Passes(a + f.Before(), c + f.After(), cost + f.Price(), k, p, q, e)
  {
    hide Distance, IsLeastCost;
    var u, v := p + |e.Before()|, q + |e.After()|;
    Extends(a, f.Before(), p, u);
    Extends(c, f.After(), q, v);
    OneMoreEdit(a[u..], c[v..], f);
  }

  lemma Ends(a: string, x: string)
    ensures (a + x)[..|a|] == a && (a + x)[|a|..|a| + |x|] == x && (a + x)[|a| + |x|..] == ""
  {
  }

  lemma LeastFor(s: Script)
    ensures Distance(Source(s), Target(s)) <= Cost(s)
  {
    assert Rewrites(s, Source(s), Target(s));
    assert IsLeastCost(Distance(Source(s), Target(s)), Source(s), Target(s));
  }

  lemma Extends(a: string, x: string, p: nat, u: nat)
    requires p <= u <= |a|
    ensures (a + x)[..p] == a[..p] && (a + x)[p..u] == a[p..u] && (a + x)[u..] == a[u..] + x
  {
  }

  lemma OneMoreEdit(a: string, b: string, e: Edit)
    ensures Distance(a + e.Before(), b + e.After()) <= Distance(a, b) + e.Price()
  {
    var s := BestScript(a, b);
    Snoc(s, e);
    LeastFor(s + [e]);
  }

  /** Lower bounds from lengths and from a place where two texts of one length differ. */
  lemma Apart(a: string, b: string)
    ensures Distance(a, b) >= |a| - |b| && Distance(a, b) >= |b| - |a|
    ensures a != b ==> Distance(a, b) >= 1
  {
    DistanceBounds(a, b);
    DistanceZeroIffEqual(a, b);
  }

  /** A pair swapped around a third character cannot be undone by two edits. */
  lemma SwappedAround(u: string, x: char, z: char, y: char, v: string)
    requires x != y && z != x && z != y
    ensures Distance(u + [x, z, y] + v, u + [y, x] + v) >= 3
  {
    Places(u, x, z, y, v);
    TurnedIsFar(u + [x, z, y] + v, u + [y, x] + v, |u|);
  }

  lemma TurnedIsFar(a: string, c: string, m: nat)
    requires Turned(a, c, m)
    ensures Distance(a, c) >= 3
  {
    hide Distance, IsLeastCost, Turned;
    Bounds(a, c, m);
    var p, q, e := BestPassesOver(a, c, m + 1);
    if e.Transpose? {
      TurnedAtThird(a, c, m, p, q, e);
    } else {
      assert |e.Before()| == 1 && p == m + 1;
      EditedAtThird(a, c, m, q, e);
    }
  }

  lemma Bounds(a: string, c: string, m: nat)
    requires Turned(a, c, m)
    ensures m + 1 < |a|
  {
  }

  lemma BestPassesOver(a: string, c: string, k: nat) returns (p: nat, q: nat, e: Edit)
    requires k < |a|
    ensures Passes(a, c, Distance(a, c), k, p, q, e)
  {
    hide Passes;
    var s := BestScript(a, c);
    p, q, e := PassesOver(s, k);
  }

  /** The two texts differ at the three characters and at the two. */
  ghost predicate Turned(a: string, c: string, m: nat) {
    && |a| == |c| + 1 && m + 2 < |a|
    && a[m] == c[m + 1] && a[m + 2] == c[m] && a[m] != c[m]
    && a[m + 1] != a[m] && a[m + 1] != a[m + 2]
  }

  lemma Places(u: string, x: char, z: char, y: char, v: string)
    requires x != y && z != x && z != y
    ensures Turned(u + [x, z, y] + v, u + [y, x] + v, |u|)
  {
  }

  lemma TurnedAtThird(a: string, c: string, m: nat, p: nat, q: nat, e: Edit)
    requires Turned(a, c, m) && e.Transpose? && p <= m + 1 < p + 2 <= |a| && q + 2 <= |c|
    requires a[p..p + 2] == e.Before() && c[q..q + 2] == e.After()
    ensures Distance(a[..p], c[..q]) + 1 + Distance(a[p + 2..], c[q + 2..]) >= 3
  {
    Apart(a[..p], c[..q]);
    Apart(a[p + 2..], c[q + 2..]);
    hide Distance, IsLeastCost;
    assert a[p..p + 2][0] == a[p] && a[p..p + 2][1] == a[p + 1];
    assert c[q..q + 2][0] == c[q] && c[q..q + 2][1] == c[q + 1];
    assert a[p] == c[q + 1] && a[p + 1] == c[q];
  }

  lemma EditedAtThird(a: string, c: string, m: nat, q: nat, e: Edit)
    requires Turned(a, c, m) && !e.Transpose? && !e.Insert? && q + |e.After()| <= |c|
    requires a[m + 1..m + 2] == e.Before() && c[q..q + |e.After()|] == e.After()
    ensures Distance(a[..m + 1], c[..q]) + e.Price() + Distance(a[m + 2..], c[q + |e.After()|..]) >= 3
  {
    hide Distance, IsLeastCost;
    var j := q + |e.After()|;
    Apart(a[..m + 1], c[..q]);
    Apart(a[m + 2..], c[j..]);
    if e.Keep? {
      assert a[m + 1..m + 2][0] == a[m + 1] && c[q..q + 1][0] == c[q];
    } else {
      DifferAt(a[..m + 1], c[..q], m);
      DifferAt(a[m + 2..], c[j..], 0);
    }
  }

  lemma DifferAt(a: string, b: string, k: nat)
    ensures k < |a| && k < |b| && a[k] != b[k] ==> a != b
  {
  }

  /** The characters of which at least one differs from two given ones. */
  function Third(x: char, y: char): (z: char)
    ensures z != x && z != y
  {
    if x != 'a' && y != 'a' then 'a' else if x != 'b' && y != 'b' then 'b' else 'c'
  }

  /** A text with two different neighbours lies on a shortcut. */
  lemma ShortcutThrough(b: string, i: nat)
    requires 0 < i < |b| && b[i] != b[i - 1]
    ensures !NoShortcutThrough(b)
  {
    var u, x, y, v := b[..i - 1], b[i - 1], b[i], b[i + 1..];
    var z := Third(x, y);
    var a, c := u + [x, z, y] + v, u + [y, x] + v;
    SwappedAround(u, x, z, y, v);
    assert b == u + [x, y] + v;
    InsertBetween(u, x, z, y, v);
    SwapWithin(u, x, y, v);
    assert Distance(a, c) > Distance(a, b) + Distance(b, c);
  }

  lemma {:induction false} WithSuffix(s: Script, v: string) returns (t: Script)
    ensures Rewrites(t, Source(s) + v, Target(s) + v) && Cost(t) == Cost(s)
    decreases |v|
  {
    if v == "" {
      assert Source(s) + v == Source(s) && Target(s) + v == Target(s);
      t := s;
    } else {
      var n := |v| - 1;
      t := WithSuffix(s, v[..n]);
      Snoc(t, Keep(v[n]));
      t := t + [Keep(v[n])];
      assert v == v[..n] + [v[n]];
      assert Source(s) + v == Source(s) + v[..n] + [v[n]] && Target(s) + v == Target(s) + v[..n] + [v[n]];
    }
  }

  lemma InsertBetween(u: string, x: char, z: char, y: char, v: string)
    ensures Distance(u + [x, z, y] + v, u + [x, y] + v) <= 1
  {
    KeepAllIsFree(u + [x]);
    var s := KeepAll(u + [x]);
    Snoc(s, Delete(z));
    var r := WithSuffix(s + [Delete(z)], [y] + v);
    hide Source, Target, Cost, Distance, IsLeastCost;
    assert u + [x] + [z] + ([y] + v) == u + [x, z, y] + v;
    assert u + [x] + [] + ([y] + v) == u + [x, y] + v;
    LeastFor(r);
  }

  lemma SwapWithin(u: string, x: char, y: char, v: string)
    ensures Distance(u + [x, y] + v, u + [y, x] + v) <= 1
  {
    KeepAllIsFree(u);
    Snoc(KeepAll(u), Transpose(x, y));
    var r := WithSuffix(KeepAll(u) + [Transpose(x, y)], v);
    LeastFor(r);
  }

  /** Exactly the texts that repeat one character lie on no shortcut. */
  lemma NoShortcutExactly(b: string)
    ensures NoShortcutThrough(b) <==> OneCharacter(b)
  {
    if OneCharacter(b) {
      forall a, c ensures Distance(a, c) <= Distance(a, b) + Distance(b, c) {
        assert !Swappable(a, b) && !Swappable(b, c);
        TriangleWithoutSwaps(a, b, c);
      }
    } else {
      var i :| 0 < i < |b| && b[i] != b[i - 1];
      ShortcutThrough(b, i);
    }
  }
}
