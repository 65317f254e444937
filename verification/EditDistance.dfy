/**
 The edit distance behind the "did you mean" quick fixes of the language server,
 and the choice of one candidate by it (internal/lsp/code_actions.go).

 The reference point is a script: a left-to-right list of edits, each consuming and
 producing its own characters, so that no substring is ever edited twice.
*/
module EditDistance {
  import opened Text

  datatype Edit =
    | Keep(c: char)
    | Insert(c: char)
    | Delete(c: char)
    | Substitute(c: char, d: char)
    | Transpose(c: char, d: char)
  {
    /** What the edit consumes. */
    function Before(): string {
      match this
      case Keep(c) => [c]
      case Insert(_) => []
      case Delete(c) => [c]
      case Substitute(c, _) => [c]
      case Transpose(c, d) => [c, d]
    }

    /** What the edit leaves behind. */
    function After(): string {
      match this
      case Keep(c) => [c]
      case Insert(c) => [c]
      case Delete(_) => []
      case Substitute(_, d) => [d]
      case Transpose(c, d) => [d, c]
    }

    function Price(): nat {
      if Keep? then 0 else 1
    }

    /** The edit that undoes this one. */
    function Inverse(): Edit {
      match this
      case Keep(c) => Keep(c)
      case Insert(c) => Delete(c)
      case Delete(c) => Insert(c)
      case Substitute(c, d) => Substitute(d, c)
      case Transpose(c, d) => Transpose(d, c)
    }
  }

  type Script = seq<Edit>

  function Source(s: Script): string {
    if s == [] then [] else Source(s[..|s| - 1]) + s[|s| - 1].Before()
  }

  function Target(s: Script): string {
    if s == [] then [] else Target(s[..|s| - 1]) + s[|s| - 1].After()
  }

  function Cost(s: Script): nat {
    if s == [] then 0 else Cost(s[..|s| - 1]) + s[|s| - 1].Price()
  }

  ghost predicate Rewrites(s: Script, a: string, b: string) {
    Source(s) == a && Target(s) == b
  }

  /** d is the least cost of any script that rewrites a into b. */
  ghost predicate IsLeastCost(d: int, a: string, b: string) {
    && (exists s :: Rewrites(s, a, b) && Cost(s) == d)
    && (forall s :: Rewrites(s, a, b) ==> d <= Cost(s))
  }

  lemma Snoc(s: Script, e: Edit)
    ensures Source(s + [e]) == Source(s) + e.Before()
    ensures Target(s + [e]) == Target(s) + e.After()
    ensures Cost(s + [e]) == Cost(s) + e.Price()
  {
    assert (s + [e])[..|s|] == s;
  }

  /** The first i characters of the text end so, with what one edit has before or after it. */
  ghost predicate EndsWith(text: string, i: nat, end: string) {
    && |end| <= i <= |text| && |end| <= 2
    && (|end| > 0 ==> text[i - 1] == end[|end| - 1])
    && (|end| > 1 ==> text[i - 2] == end[0])
  }

  lemma Joins(text: string, i: nat, end: string)
    requires EndsWith(text, i, end)
    ensures text[..i] == text[..i - |end|] + end
  {
  }

  /** A script between prefixes, followed by the edit that accounts for what is left of longer ones. */
  lemma Extends(p: Script, e: Edit, a: string, b: string, i: nat, j: nat) returns (s: Script)
    requires EndsWith(a, i, e.Before()) && EndsWith(b, j, e.After())
    requires Rewrites(p, a[..i - |e.Before()|], b[..j - |e.After()|])
    ensures Rewrites(s, a[..i], b[..j]) && Cost(s) == Cost(p) + e.Price()
  {
    Snoc(p, e);
    Joins(a, i, e.Before());
    Joins(b, j, e.After());
    hide Source, Target, Cost, EndsWith;
    s := p + [e];
  }

  // ---------- the distance, defined by scripts alone ----------

  /** Some script exists: delete everything, then insert everything. */
  lemma {:induction false} ScriptExists(a: string, b: string) returns (s: Script)
    ensures Rewrites(s, a, b)
    decreases |a| + |b|
  {
    assert a[..|a|] == a && b[..|b|] == b;
    if b != [] {
      var p := ScriptExists(a, b[..|b| - 1]);
      s := Extends(p, Insert(b[|b| - 1]), a, b, |a|, |b|);
    } else if a != [] {
      var p := ScriptExists(a[..|a| - 1], b);
      s := Extends(p, Delete(a[|a| - 1]), a, b, |a|, 0);
    } else {
      s := [];
    }
  }

  lemma {:induction false} CheapestScript(s: Script, a: string, b: string) returns (t: Script)
    requires Rewrites(s, a, b)
    ensures Rewrites(t, a, b) && forall u :: Rewrites(u, a, b) ==> Cost(t) <= Cost(u)
    decreases Cost(s)
  {
    if u :| Rewrites(u, a, b) && Cost(u) < Cost(s) {
      t := CheapestScript(u, a, b);
    } else {
      t := s;
    }
  }

  /** The least cost of rewriting a into b. */
  ghost function Distance(a: string, b: string): (d: nat)
    ensures IsLeastCost(d, a, b)
  {
    assert exists d: nat :: IsLeastCost(d, a, b) by {
      var s := ScriptExists(a, b);
      var t := CheapestScript(s, a, b);
      assert IsLeastCost(Cost(t), a, b);
    }
    var d: nat :| IsLeastCost(d, a, b);
    d
  }

  lemma BestScript(a: string, b: string) returns (s: Script)
    ensures Rewrites(s, a, b) && Cost(s) == Distance(a, b)
  {
    var d := Distance(a, b);
    assert IsLeastCost(d, a, b);
    s :| Rewrites(s, a, b) && Cost(s) == d;
  }

  // ---------- the laws of the distance ----------

  function Mirror(s: Script): Script {
    if s == [] then [] else Mirror(s[..|s| - 1]) + [s[|s| - 1].Inverse()]
  }

  lemma {:induction false} MirrorRewritesBack(s: Script)
    ensures Rewrites(Mirror(s), Target(s), Source(s)) && Cost(Mirror(s)) == Cost(s)
  {
    if s != [] {
      MirrorRewritesBack(s[..|s| - 1]);
      Snoc(Mirror(s[..|s| - 1]), s[|s| - 1].Inverse());
    }
  }

  /** The distance does not depend on the direction. */
  lemma DistanceIsSymmetric(a: string, b: string)
    ensures Distance(a, b) == Distance(b, a)
  {
    var s := BestScript(a, b);
    var t := BestScript(b, a);
    MirrorRewritesBack(s);
    MirrorRewritesBack(t);
  }

  function KeepAll(a: string): Script {
    if a == [] then [] else KeepAll(a[..|a| - 1]) + [Keep(a[|a| - 1])]
  }

  lemma {:induction false} KeepAllIsFree(a: string)
    ensures Rewrites(KeepAll(a), a, a) && Cost(KeepAll(a)) == 0
  {
    if a != [] {
      hide Source, Target, Cost;
      KeepAllIsFree(a[..|a| - 1]);
      Snoc(KeepAll(a[..|a| - 1]), Keep(a[|a| - 1]));
    }
  }

  lemma {:induction false} FreeScriptsKeep(s: Script)
    requires Cost(s) == 0
    ensures Source(s) == Target(s)
  {
    if s != [] {
      FreeScriptsKeep(s[..|s| - 1]);
    }
  }

  /** Distance zero means equal, and only equal. */
  lemma DistanceZeroIffEqual(a: string, b: string)
    ensures Distance(a, b) == 0 <==> a == b
  {
    if a == b {
      KeepAllIsFree(a);
    }
    var s := BestScript(a, b);
    if Cost(s) == 0 {
      FreeScriptsKeep(s);
    }
  }

  lemma {:induction false} CostCoversLengthChange(s: Script)
    ensures |Source(s)| <= |Target(s)| + Cost(s)
    ensures |Target(s)| <= |Source(s)| + Cost(s)
  {
    if s != [] {
      CostCoversLengthChange(s[..|s| - 1]);
    }
  }

  /** Substitute position by position, then insert or delete the rest. */
  lemma {:induction false} PlainScript(a: string, b: string) returns (s: Script)
    ensures Rewrites(s, a, b) && Cost(s) <= Max(|a|, |b|)
    decreases |a| + |b|
  {
    if a == [] && b == [] {
      s := [];
    } else {
      hide Source, Target, Cost;
      var i, j := if |a| < |b| then |a| else |a| - 1, if |b| < |a| then |b| else |b| - 1;
      var e := if |a| < |b| then Insert(b[j]) else if |b| < |a| then Delete(a[i]) else Substitute(a[i], b[j]);
      var p := PlainScript(a[..i], b[..j]);
      Snoc(p, e);
      s := p + [e];
      PlainEdit(a, b, i, j, e);
    }
  }

  /** The last edit of a plain script takes the texts from their prefixes. */
  lemma PlainEdit(a: string, b: string, i: nat, j: nat, e: Edit)
    requires i <= |a| && j <= |b|
    requires e.Insert? ==> i == |a| && j + 1 == |b| && e.c == b[j]
    requires e.Delete? ==> i + 1 == |a| && j == |b| && e.c == a[i]
    requires e.Substitute? ==> i + 1 == |a| && j + 1 == |b| && e.c == a[i] && e.d == b[j]
    requires !e.Keep? && !e.Transpose?
    ensures a == a[..i] + e.Before() && b == b[..j] + e.After()
  {
  }

  function Max(a: nat, b: nat): nat { if a < b then b else a }

  /** Never less than the length difference, never more than the longer length. */
  lemma DistanceBounds(a: string, b: string)
    ensures |a| - |b| <= Distance(a, b) && |b| - |a| <= Distance(a, b)
    ensures Distance(a, b) <= Max(|a|, |b|)
  {
    var s := BestScript(a, b);
    CostCoversLengthChange(s);
    var t := PlainScript(a, b);
  }

  // ---------- the table ----------

  function Min(a: nat, b: nat): nat { if b < a then b else a }

  /** Cell (i, j) agrees with its neighbours, as the program fills it in. */
  ghost predicate Settled(matrix: array2<nat>, a: string, b: string, i: nat, j: nat)
    requires i <= |a| < matrix.Length0 && j <= |b| < matrix.Length1
    reads matrix
  {
    if i == 0 then matrix[i, j] == j
    else if j == 0 then matrix[i, j] == i
    else
      var cost := if a[i - 1] != b[j - 1] then 1 else 0;
      var best := Min(Min(matrix[i - 1, j] + 1, matrix[i, j - 1] + 1), matrix[i - 1, j - 1] + cost);
      matrix[i, j] ==
      if i > 1 && j > 1 && a[i - 1] == b[j - 2] && a[i - 2] == b[j - 1]
      then Min(best, matrix[i - 2, j - 2] + 1)
      else best
  }

  ghost predicate AllSettled(matrix: array2<nat>, a: string, b: string)
    requires |a| < matrix.Length0 && |b| < matrix.Length1
    reads matrix
  {
    forall i: nat, j: nat :: i <= |a| && j <= |b| ==> Settled(matrix, a, b, i, j)
  }

  /** One more edit never lets the table grow by more than the edit's price. */
  lemma StepBound(matrix: array2<nat>, a: string, b: string, i0: nat, j0: nat, i: nat, j: nat, e: Edit)
    requires |a| < matrix.Length0 && |b| < matrix.Length1 && AllSettled(matrix, a, b)
    requires i0 <= i <= |a| && j0 <= j <= |b|
    requires e.Before() == a[i0..i] && e.After() == b[j0..j]
    ensures matrix[i, j] <= matrix[i0, j0] + e.Price()
  {
    assert |e.Before()| == i - i0 && |e.After()| == j - j0;
    assert Settled(matrix, a, b, i, j) && Settled(matrix, a, b, i0, j0);
    match e {
      case Keep(c) => assert a[i - 1] == e.Before()[0] == e.After()[0] == b[j - 1];
      case Insert(c) =>
      case Delete(c) =>
      case Substitute(c, d) =>
      case Transpose(c, d) =>
        assert a[i - 2] == e.Before()[0] == e.After()[1] == b[j - 1];
        assert a[i - 1] == e.Before()[1] == e.After()[0] == b[j - 2];
    }
  }

  lemma Between(text: string, start: string, more: string)
    requires start + more <= text
    ensures start <= text && more == text[|start|..|start + more|]
  {
  }

  /** No script beats the table. */
  lemma {:induction false} TableIsLowerBound(matrix: array2<nat>, a: string, b: string, s: Script)
    requires |a| < matrix.Length0 && |b| < matrix.Length1 && AllSettled(matrix, a, b)
    requires Source(s) <= a && Target(s) <= b
    ensures matrix[|Source(s)|, |Target(s)|] <= Cost(s)
    decreases |s|
  {
    if s == [] {
      assert Settled(matrix, a, b, 0, 0);
    } else {
      var p, e := s[..|s| - 1], s[|s| - 1];
      assert Source(s) == Source(p) + e.Before() && Target(s) == Target(p) + e.After();
      assert Cost(s) == Cost(p) + e.Price();
      hide *;
      TableIsLowerBound(matrix, a, b, p);
      Between(a, Source(p), e.Before());
      Between(b, Target(p), e.After());
      StepBound(matrix, a, b, |Source(p)|, |Target(p)|, |Source(s)|, |Target(s)|, e);
    }
  }

  /** One of four cells accounts for cell (i, j). */
  lemma WhichCell(matrix: array2<nat>, a: string, b: string, i: nat, j: nat)
    requires 0 < i <= |a| < matrix.Length0 && 0 < j <= |b| < matrix.Length1 && Settled(matrix, a, b, i, j)
    ensures || matrix[i, j] == matrix[i, j - 1] + 1
            || matrix[i, j] == matrix[i - 1, j] + 1
            || matrix[i, j] == matrix[i - 1, j - 1] + (if a[i - 1] != b[j - 1] then 1 else 0)
            || (&& i > 1 && j > 1 && a[i - 1] == b[j - 2] && a[i - 2] == b[j - 1]
                && matrix[i, j] == matrix[i - 2, j - 2] + 1)
  {
  }

  lemma LastInside(matrix: array2<nat>, a: string, b: string, i: nat, j: nat) returns (e: Edit)
    requires 0 < i <= |a| < matrix.Length0 && 0 < j <= |b| < matrix.Length1 && Settled(matrix, a, b, i, j)
    ensures EndsWith(a, i, e.Before()) && EndsWith(b, j, e.After()) && |e.Before() + e.After()| > 0
    ensures matrix[i, j] == matrix[i - |e.Before()|, j - |e.After()|] + e.Price()
  {
    WhichCell(matrix, a, b, i, j);
    hide Settled;
    if matrix[i, j] == matrix[i, j - 1] + 1 {
      e := Insert(b[j - 1]);
    } else if matrix[i, j] == matrix[i - 1, j] + 1 {
      e := Delete(a[i - 1]);
    } else if matrix[i, j] == matrix[i - 1, j - 1] + (if a[i - 1] != b[j - 1] then 1 else 0) {
      e := if a[i - 1] != b[j - 1] then Substitute(a[i - 1], b[j - 1]) else Keep(a[i - 1]);
    } else {
      e := Transpose(a[i - 2], a[i - 1]);
    }
  }

  /** The last edit that accounts for cell (i, j). */
  lemma LastEdit(matrix: array2<nat>, a: string, b: string, i: nat, j: nat) returns (e: Edit)
    requires |a| < matrix.Length0 && |b| < matrix.Length1 && AllSettled(matrix, a, b)
    requires i <= |a| && j <= |b| && i + j > 0
    ensures EndsWith(a, i, e.Before()) && EndsWith(b, j, e.After()) && |e.Before() + e.After()| > 0
    ensures matrix[i, j] == matrix[i - |e.Before()|, j - |e.After()|] + e.Price()
  {
    assert Settled(matrix, a, b, i, j);
    if i == 0 {
      assert Settled(matrix, a, b, 0, j - 1);
      e := Insert(b[j - 1]);
    } else if j == 0 {
      assert Settled(matrix, a, b, i - 1, 0);
      e := Delete(a[i - 1]);
    } else {
      e := LastInside(matrix, a, b, i, j);
    }
  }

  /** Every cell is the cost of some script. */
  lemma {:induction false} TableIsReached(matrix: array2<nat>, a: string, b: string, i: nat, j: nat) returns (s: Script)
    requires |a| < matrix.Length0 && |b| < matrix.Length1 && AllSettled(matrix, a, b)
    requires i <= |a| && j <= |b|
    ensures Rewrites(s, a[..i], b[..j]) && Cost(s) == matrix[i, j]
    decreases i + j
  {
    if i + j == 0 {
      assert Settled(matrix, a, b, 0, 0);
      s := [];
    } else {
      var e := LastEdit(matrix, a, b, i, j);
      assert EndsWith(a, i, e.Before()) && EndsWith(b, j, e.After());
      hide AllSettled, Rewrites, Cost;
      var p := TableIsReached(matrix, a, b, i - |e.Before()|, j - |e.After()|);
      s := Extends(p, e, a, b, i, j);
    }
  }

  /** A table filled by the recurrence holds the distance in its last cell. */
  lemma TableHoldsDistance(matrix: array2<nat>, a: string, b: string)
    requires |a| < matrix.Length0 && |b| < matrix.Length1 && AllSettled(matrix, a, b)
    ensures matrix[|a|, |b|] == Distance(a, b)
  {
    assert a[..|a|] == a && b[..|b|] == b;
    var s := TableIsReached(matrix, a, b, |a|, |b|);
    forall t | Rewrites(t, a, b)
      ensures matrix[|a|, |b|] <= Cost(t)
    {
      TableIsLowerBound(matrix, a, b, t);
    }
  }

  /** The body of the inner loop: the cell from its neighbours above and to the left. */
  method FillCell(matrix: array2<nat>, a: string, b: string, i: nat, j: nat)
    requires 1 <= i <= |a| < matrix.Length0 && 1 <= j <= |b| < matrix.Length1
    modifies matrix
    ensures Settled(matrix, a, b, i, j)
    ensures forall p, q :: 0 <= p < matrix.Length0 && 0 <= q < matrix.Length1 && (p != i || q != j)
                           ==> matrix[p, q] == old(matrix[p, q])
  {
    var cost := 0;
    if a[i - 1] != b[j - 1] {
      cost := 1;
    }
    var steps := [matrix[i - 1, j] + 1, matrix[i, j - 1] + 1, matrix[i - 1, j - 1] + cost];
    matrix[i, j] := MinInt(steps);
    assert matrix[i, j] == Min(Min(steps[0], steps[1]), steps[2]);
    if i > 1 && j > 1 && a[i - 1] == b[j - 2] && a[i - 2] == b[j - 1] {
      var pair := [matrix[i, j], matrix[i - 2, j - 2] + 1];
      matrix[i, j] := MinInt(pair);
      assert matrix[i, j] == Min(pair[0], pair[1]);
    }
  }

  /** The first column counts deletions, the first row insertions. */
  method FillBorders(matrix: array2<nat>, a: string, b: string)
    requires |a| < matrix.Length0 && |b| < matrix.Length1
    modifies matrix
    ensures forall p: nat :: p <= |a| ==> Settled(matrix, a, b, p, 0)
    ensures forall q: nat :: q <= |b| ==> Settled(matrix, a, b, 0, q)
  {
    for i := 0 to |a| + 1
      invariant forall p: nat :: p < i ==> matrix[p, 0] == p
    {
      matrix[i, 0] := i;
    }
    for j := 0 to |b| + 1
      invariant forall p: nat :: p <= |a| ==> matrix[p, 0] == p
      invariant forall q: nat :: q < j ==> matrix[0, q] == q
    {
      matrix[0, j] := j;
    }
  }

  /** The table: one matrix, filled row by row, last cell returned. */
  method DamerauLevenshtein(a: string, b: string) returns (d: nat)
    ensures d == Distance(a, b)
  {
    hide Distance, IsLeastCost;
    DistanceBounds(a, b);
    if |a| == 0 { return |b|; }
    if |b| == 0 { return |a|; }
    var matrix := new nat[|a| + 1, |b| + 1];
    FillBorders(matrix, a, b);
    for i := 1 to |a| + 1
      invariant forall p: nat :: p <= |a| ==> Settled(matrix, a, b, p, 0)
      invariant forall p: nat, q: nat :: p < i && q <= |b| ==> Settled(matrix, a, b, p, q)
    {
      for j := 1 to |b| + 1
        invariant forall p: nat :: p <= |a| ==> Settled(matrix, a, b, p, 0)
        invariant forall p: nat, q: nat :: p < i && q <= |b| ==> Settled(matrix, a, b, p, q)
        invariant forall q: nat :: q < j ==> Settled(matrix, a, b, i, q)
      {
        label Fill:
        FillCell(matrix, a, b, i, j);
        forall p: nat, q: nat | p <= |a| && q <= |b| && (p < i || (p == i && q < j) || q == 0)
          ensures Settled(matrix, a, b, p, q)
        {
          assert old@Fill(Settled(matrix, a, b, p, q));
        }
      }
    }
    TableHoldsDistance(matrix, a, b);
    return matrix[|a|, |b|];
  }

  /** The variadic minimum. */
  method MinInt(values: seq<nat>) returns (best: nat)
    requires values != []
    ensures exists k :: 0 <= k < |values| && best == values[k]
    ensures forall k :: 0 <= k < |values| ==> best <= values[k]
  {
    best := values[0];
    for k := 1 to |values|
      invariant exists m :: 0 <= m < k && best == values[m]
      invariant forall m :: 0 <= m < k ==> best <= values[m]
    {
      if values[k] < best {
        best := values[k];
      }
    }
  }

  // ---------- the distance is not a metric ----------

  /** A script for a nonempty pair ends in one of five ways; each leaves a shorter pair. */
  lemma LastEditOf(s: Script, a: string, b: string) returns (p: Script, e: Edit)
    requires Rewrites(s, a, b) && a + b != []
    ensures Source(p) + e.Before() == a && Target(p) + e.After() == b
    ensures Cost(s) == Cost(p) + e.Price()
    ensures Cost(p) >= Distance(Source(p), Target(p))
  {
    assert s != [];
    p, e := s[..|s| - 1], s[|s| - 1];
    assert Rewrites(p, Source(p), Target(p));
    assert IsLeastCost(Distance(Source(p), Target(p)), Source(p), Target(p));
  }

  /** Price of the last edit plus the distance of what remains. */
  lemma Peel(a: string, b: string) returns (a0: string, b0: string, e: Edit)
    requires a + b != []
    ensures a0 + e.Before() == a && b0 + e.After() == b
    ensures a0 == a[..|a| - |e.Before()|] && b0 == b[..|b| - |e.After()|]
    ensures Distance(a, b) >= Distance(a0, b0) + e.Price()
  {
    var s := BestScript(a, b);
    var p, last := LastEditOf(s, a, b);
    a0, b0, e := Source(p), Target(p), last;
  }

  lemma FarFromOne()
    ensures Distance("c", "ab") >= 2
  {
    assert "ab"[..1] == "a";
    var a, b, e := Peel("c", "ab");
    DistanceBounds(a, b);
    DistanceZeroIffEqual(a, b);
    hide Distance;
    assert !e.Keep? && !e.Transpose?;
    assert e.Insert? ==> a == "c" && b == "a" && a[0] != b[0];
    assert e.Delete? ==> |a| == 0 && |b| == 2;
    assert e.Substitute? ==> |a| == 0 && |b| == 1;
  }

  lemma FarFromTwo()
    ensures Distance("ca", "ab") >= 2
  {
    assert "ab"[..1] == "a" && "ca"[..1] == "c";
    FarFromOne();
    var a, b, e := Peel("ca", "ab");
    DistanceBounds(a, b);
    DistanceZeroIffEqual(a, b);
    assert !e.Keep?;
    assert !e.Transpose?;
  }

  lemma FarFromThree()
    ensures Distance("ca", "abc") >= 3
  {
    assert "ca"[..1] == "c" && "abc"[..2] == "ab";
    FarFromOne();
    FarFromTwo();
    var a, b, e := Peel("ca", "abc");
    DistanceBounds(a, b);
    assert !e.Keep?;
    assert !e.Transpose?;
  }

  lemma OneEditApart(s: Script, a: string, b: string)
    requires Rewrites(s, a, b) && Cost(s) == 1 && a != b
    ensures Distance(a, b) == 1
  {
    DistanceZeroIffEqual(a, b);
    assert IsLeastCost(Distance(a, b), a, b);
  }

  lemma SwapOnce(c: char, d: char)
    requires c != d
    ensures Distance([c, d], [d, c]) == 1
  {
    Snoc([], Transpose(c, d));
    assert [c, d][0] != [d, c][0];
    OneEditApart([] + [Transpose(c, d)], [c, d], [d, c]);
  }

  lemma InsertOnce(c: char, d: char, x: char)
    ensures Distance([c, d], [c, x, d]) == 1
  {
    var s := [Keep(c)];
    var t := s + [Insert(x)];
    Snoc([], Keep(c));
    assert [] + [Keep(c)] == s;
    assert Rewrites(s, [c], [c]) && Cost(s) == 0;
    Snoc(s, Insert(x));
    assert Rewrites(t, [c], [c, x]) && Cost(t) == 1;
    Snoc(t, Keep(d));
    assert Rewrites(t + [Keep(d)], [c, d], [c, x, d]) && Cost(t + [Keep(d)]) == 1;
    OneEditApart(t + [Keep(d)], [c, d], [c, x, d]);
  }

  /** Because no substring is edited twice, a detour can be cheaper than the direct way. */
  lemma TriangleInequalityFails()
    ensures Distance("ca", "ac") == 1 && Distance("ac", "abc") == 1
    ensures Distance("ca", "abc") == 3
  {
    SwapOnce('c', 'a');
    InsertOnce('a', 'c', 'b');
    FarFromThree();
    DistanceBounds("ca", "abc");
  }

  // ---------- choosing a candidate ----------

  /** The number of bytes of a character in UTF-8; the program measures a word in bytes. */
  function Bytes(c: char): nat {
    if c as int < 0x80 then 1 else if c as int < 0x800 then 2 else if c as int < 0x10000 then 3 else 4
  }

  function ByteLength(s: string): nat {
    if s == [] then 0 else Bytes(s[0]) + ByteLength(s[1..])
  }

  function MaxCandidateDistance(value: string): nat {
    if ByteLength(value) >= 10 then 3 else if ByteLength(value) >= 5 then 2 else 1
  }

  /** Case is ignored on both sides. */
  ghost function Gap(want: string, candidate: string, lower: string -> string): nat {
    Distance(lower(want), lower(candidate))
  }

  method FoldedDistance(want: string, candidate: string, lower: string -> string) returns (d: nat)
    ensures d == Gap(want, candidate, lower)
  {
    d := DamerauLevenshtein(lower(want), lower(candidate));
  }

  /** Position i holds the only nearest candidate, and it is near enough. */
  ghost predicate UniqueNearest(want: string, candidates: seq<string>, lower: string -> string, i: nat) {
    && i < |candidates| && candidates[i] != ""
    && Gap(want, candidates[i], lower) <= MaxCandidateDistance(want)
    && forall j :: 0 <= j < |candidates| && j != i && candidates[j] != ""
                   ==> Gap(want, candidates[i], lower) < Gap(want, candidates[j], lower)
  }

  /** One scan keeping the best and the second best distance; a tie at the top is no answer. */
  method BestStringCandidate(word: string, candidates: seq<string>, trim: string -> string, lower: string -> string)
      returns (r: Option<string>)
    ensures trim(word) == "" ==> r == None
    ensures trim(word) != "" ==>
              (r.Some? <==> exists i: nat :: UniqueNearest(trim(word), candidates, lower, i))
    ensures r.Some? ==> exists i: nat :: UniqueNearest(trim(word), candidates, lower, i) && r.value == candidates[i]
  {
    hide Gap, MaxCandidateDistance;
    var want := trim(word);
    if want == "" || |candidates| == 0 {
      return None;
    }
    var best, bestDistance, secondBest := "", -1, -1;
    ghost var at := -1;
    ghost var next := -1;
    for k := 0 to |candidates|
      invariant -1 <= at < k && -1 <= next < k
      invariant bestDistance == -1 <==> at == -1
      invariant secondBest == -1 <==> next == -1
      invariant at == -1 ==> best == "" && next == -1 && forall j :: 0 <= j < k ==> candidates[j] == ""
      invariant at != -1 ==> best == candidates[at] != "" && bestDistance == Gap(want, best, lower)
      invariant at != -1 ==> forall j :: 0 <= j < k && candidates[j] != "" ==>
                bestDistance <= Gap(want, candidates[j], lower)
      invariant next != -1 ==> next != at && candidates[next] != "" && secondBest == Gap(want, candidates[next], lower)
      invariant at != -1 ==> forall j :: 0 <= j < k && j != at && candidates[j] != ""
                                         ==> next != -1 && secondBest <= Gap(want, candidates[j], lower)
    {
      if candidates[k] == "" {
        continue;
      }
      var distance := FoldedDistance(want, candidates[k], lower);
      if bestDistance == -1 || distance < bestDistance {
        secondBest := bestDistance;
        next := at;
        bestDistance := distance;
        best := candidates[k];
        at := k;
        continue;
      }
      if secondBest == -1 || distance < secondBest {
        secondBest := distance;
        next := k;
      }
    }
    if best == "" || bestDistance > MaxCandidateDistance(want) {
      return None;
    }
    if secondBest != -1 && secondBest == bestDistance {
      return None;
    }
    assert UniqueNearest(want, candidates, lower, at);
    return Some(best);
  }

  // ---------- how near is near enough ----------

  /** A text of up to four bytes tolerates one edit, one of up to nine two, and a longer one three. */
  lemma LimitExactly(value: string)
    ensures ByteLength(value) <= 4 <==> MaxCandidateDistance(value) == 1
    ensures 5 <= ByteLength(value) <= 9 <==> MaxCandidateDistance(value) == 2
    ensures ByteLength(value) >= 10 <==> MaxCandidateDistance(value) == 3
    ensures (forall c :: c in value ==> c <= '~') ==> ByteLength(value) == |value|
    ensures |value| <= ByteLength(value) <= 4 * |value|
  {
    BytesExactly(value, "");
  }

  /** Bytes add up; a character takes one below U+0080, two below U+0800, three below U+10000, and else four. */
  lemma {:induction false} BytesExactly(a: string, b: string)
    ensures (forall c :: c in a ==> c <= '~') ==> ByteLength(a) == |a|
    ensures |a| <= ByteLength(a) <= 4 * |a|
    ensures ByteLength(a + b) == ByteLength(a) + ByteLength(b)
    ensures forall c: char ::
              ByteLength([c])
              == if c < '\U{80}' then 1 else if c < '\U{800}' then 2 else if c < '\U{10000}' then 3 else 4
  {
    forall c: char ensures ByteLength([c]) == Bytes(c) { assert [c][1..] == []; }
    if a == "" {
      assert a + b == b;
    } else {
      BytesExactly(a[1..], b);
      assert (a + b)[1..] == a[1..] + b;
      assert a[0] in a && forall c :: c in a[1..] ==> c in a;
    }
  }

  /** A candidate is chosen by its distance without regard to case on either side. */
  lemma ChosenExactly(want: string, candidates: seq<string>, lower: string -> string, i: nat)
    ensures UniqueNearest(want, candidates, lower, i) <==>
              && i < |candidates| && candidates[i] != ""
              && Distance(lower(want), lower(candidates[i]))
                   <= (if ByteLength(want) >= 10 then 3 else if ByteLength(want) >= 5 then 2 else 1)
              && forall j :: 0 <= j < |candidates| && j != i && candidates[j] != "" ==>
                   Distance(lower(want), lower(candidates[i])) < Distance(lower(want), lower(candidates[j]))
  {
    hide Distance;
  }
}
