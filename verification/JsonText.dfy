/**
 The JSON text of a formatted document (internal/format/formatter.go), read back by the
 grammar of sections 2 to 6 of RFC 8259.
*/
module JsonText {
  import opened Text
  import opened Formatter

  /** Quoting of object keys, as the standard library's encoder and decoder do it. */
  datatype Codec = Codec(quote: string -> string, unquote: string -> string)

  /** All that is used of the library: a quoted key is one JSON string and can be unquoted. */
  ghost predicate Faithful(c: Codec) {
    forall k: string :: Quoted(c.quote(k)) && c.unquote(c.quote(k)) == k
  }

  // ---------- writing ----------

  function Indent(depth: nat): string {
    if depth == 0 then "" else "  " + Indent(depth - 1)
  }

  /** The text of a node at a nesting depth. */
  function Write(n: Node, depth: nat, c: Codec): string
    decreases n, 1
  {
    match n
    case Scalar(token) => token
    case Mapping(pairs) =>
      if pairs == [] then "{}"
      else "{\n" + (Indent(depth + 1) + (Members(pairs, depth + 1, c) + ("\n" + (Indent(depth) + "}"))))
    case Sequence(items) =>
      if items == [] then "[]"
      else "[\n" + (Indent(depth + 1) + (Elements(items, depth + 1, c) + ("\n" + (Indent(depth) + "]"))))
  }

  function Members(ps: seq<Pair>, depth: nat, c: Codec): string
    requires ps != []
    decreases ps, 0
  {
    var first := c.quote(ps[0].key) + (": " + Write(ps[0].value, depth, c));
    if |ps| == 1 then first else first + (",\n" + (Indent(depth) + Members(ps[1..], depth, c)))
  }

  function Elements(xs: seq<Node>, depth: nat, c: Codec): string
    requires xs != []
    decreases xs, 0
  {
    var first := Write(xs[0], depth, c);
    if |xs| == 1 then first else first + (",\n" + (Indent(depth) + Elements(xs[1..], depth, c)))
  }

  function Encode(root: Node, c: Codec): string {
    Write(root, 0, c) + "\n"
  }

  // ---------- reading ----------

  predicate IsSpace(ch: char) {
    ch == ' ' || ch == '\n' || ch == '\t' || ch == '\r'
  }

  function Skip(s: string): (r: string)
    ensures |r| <= |s|
    ensures r != "" ==> !IsSpace(r[0])
  {
    if s != "" && IsSpace(s[0]) then Skip(s[1..]) else s
  }

  /** A character that may stand in a number or a literal name. */
  predicate InBare(ch: char) {
    !IsSpace(ch) && ch !in ",:[]{}\""
  }

  predicate IsDigit(ch: char) {
    '0' <= ch <= '9'
  }

  /** The end of the run of digits that starts here. */
  function DigitsEnd(t: string, i: nat): (n: nat)
    requires i <= |t|
    ensures i <= n <= |t| && forall k :: i <= k < n ==> IsDigit(t[k])
    decreases |t| - i
  {
    if i < |t| && IsDigit(t[i]) then DigitsEnd(t, i + 1) else i
  }

  /** Section 6: an optional minus, digits without a leading zero, then an optional fraction and exponent. */
  predicate IsNumber(t: string) {
    var i := if t != "" && t[0] == '-' then 1 else 0;
    var whole := DigitsEnd(t, i);
    var fraction := if whole < |t| && t[whole] == '.' then DigitsEnd(t, whole + 1) else whole;
    var sign := if fraction < |t| && t[fraction] in "eE"
                then (if fraction + 1 < |t| && t[fraction + 1] in "+-" then fraction + 2 else fraction + 1)
                else fraction;
    var exponent := if sign > fraction then DigitsEnd(t, sign) else fraction;
    && i < whole && (t[i] == '0' ==> whole == i + 1)
    && (fraction > whole ==> fraction > whole + 1)
    && (sign > fraction ==> exponent > sign)
    && exponent == |t|
  }

  // Section 6 part by part, as texts rather than positions.

  ghost predicate AreDigits(s: string) {
    s != "" && forall i :: 0 <= i < |s| ==> s[i] in "0123456789"
  }

  ghost predicate IsWhole(s: string) {
    AreDigits(s) && (s[0] == '0' ==> s == "0")
  }

  ghost predicate IsFraction(s: string) {
    s == "" || (s[0] == '.' && AreDigits(s[1..]))
  }

  ghost predicate IsExponent(s: string) {
    s == "" || (s[0] in "eE" && (AreDigits(s[1..]) || (|s| > 1 && s[1] in "+-" && AreDigits(s[2..]))))
  }

  ghost predicate AreParts(t: string, minus: string, whole: string, fraction: string, exponent: string) {
    && minus in {"", "-"} && IsWhole(whole) && IsFraction(fraction) && IsExponent(exponent)
    && t == minus + whole + fraction + exponent
  }

  /** Exactly which texts are numbers. */
  lemma NumberExactly(t: string)
    ensures IsNumber(t) <==> exists minus, whole, fraction, exponent :: AreParts(t, minus, whole, fraction, exponent)
  {
    if IsNumber(t) { NumberSplits(t); }
    if minus, whole, fraction, exponent :| AreParts(t, minus, whole, fraction, exponent) {
      PartsMakeNumber(t, minus, whole, fraction, exponent);
    }
  }

  lemma DigitExactly(ch: char)
    ensures IsDigit(ch) <==> ch in "0123456789"
  {
    var digits := "0123456789";
    if IsDigit(ch) { assert digits[ch as int - '0' as int] == ch; }
  }

  /** A run of digits from one position to another. */
  ghost predicate Run(t: string, i: nat, n: nat) {
    i < n <= |t| && forall k :: i <= k < n ==> IsDigit(t[k])
  }

  lemma RunExactly(t: string, i: nat, n: nat)
    requires i <= n <= |t|
    ensures Run(t, i, n) <==> AreDigits(t[i..n])
  {
    var s := t[i..n];
    forall k | i <= k < n ensures IsDigit(t[k]) <==> s[k - i] in "0123456789" { DigitExactly(t[k]); }
    hide IsDigit;
    if AreDigits(s) {
      forall k | i <= k < n ensures IsDigit(t[k]) { assert s[k - i] in "0123456789"; }
    }
  }

  /** The run of digits at a position ends where they do. */
  lemma {:induction false} DigitsEndAt(t: string, i: nat, n: nat)
    requires i <= n <= |t| && (forall k :: i <= k < n ==> IsDigit(t[k])) && (n < |t| ==> !IsDigit(t[n]))
    ensures DigitsEnd(t, i) == n
    decreases n - i
  {
    if i < n { DigitsEndAt(t, i + 1, n); }
  }

  lemma WholeAt(t: string, i: nat, w: nat)
    requires i <= w <= |t|
    ensures IsWhole(t[i..w]) <==> Run(t, i, w) && (t[i] == '0' ==> w == i + 1)
  {
    RunExactly(t, i, w);
    hide AreDigits;
    if i < w { assert t[i..w][0] == t[i] && (w == i + 1 ==> t[i..w] == [t[i]]); }
  }

  lemma FractionAt(t: string, w: nat, f: nat)
    requires w <= f <= |t|
    ensures IsFraction(t[w..f]) <==> w == f || (t[w] == '.' && Run(t, w + 1, f))
  {
    if w < f {
      RunExactly(t, w + 1, f);
      hide AreDigits, Run;
      assert t[w..f][0] == t[w] && t[w..f][1..] == t[w + 1..f];
    }
  }

  lemma ExponentAt(t: string, f: nat)
    requires f <= |t|
    ensures IsExponent(t[f..]) <==>
              f == |t| || (&& t[f] in "eE" && f + 1 < |t|
                           && Run(t, if t[f + 1] in "+-" then f + 2 else f + 1, |t|))
  {
    if f + 1 < |t| {
      RunExactly(t, f + 1, |t|);
      RunExactly(t, f + 2, |t|);
      assert t[f..][0] == t[f] && t[f..][1] == t[f + 1];
      assert t[f..][1..] == t[f + 1..|t|] && t[f..][2..] == t[f + 2..|t|];
      hide AreDigits;
    }
  }

  /** Where the whole number starts and ends, and where the fraction ends. */
  ghost predicate Positions(t: string, i: nat, w: nat, f: nat) {
    && i <= w <= f <= |t| && (i == 0 || (i == 1 && t[0] == '-'))
    && Run(t, i, w) && (t[i] == '0' ==> w == i + 1)
    && (w == f || (t[w] == '.' && Run(t, w + 1, f)))
    && (f == |t| || (t[f] in "eE" && f + 1 < |t| && Run(t, if t[f + 1] in "+-" then f + 2 else f + 1, |t|)))
  }

  lemma NumberSplits(t: string)
    requires IsNumber(t)
    ensures exists minus, whole, fraction, exponent :: AreParts(t, minus, whole, fraction, exponent)
  {
    hide *;
    var i, w, f := NumberPositions(t);
    var minus, whole, fraction, exponent := PositionsSplit(t, i, w, f);
  }

  lemma NumberPositions(t: string) returns (i: nat, w: nat, f: nat)
    requires IsNumber(t)
    ensures Positions(t, i, w, f)
  {
    i := if t != "" && t[0] == '-' then 1 else 0;
    w := DigitsEnd(t, i);
    f := if w < |t| && t[w] == '.' then DigitsEnd(t, w + 1) else w;
    hide IsDigit;
  }

  lemma PositionsSplit(t: string, i: nat, w: nat, f: nat)
      returns (minus: string, whole: string, fraction: string, exponent: string)
    requires Positions(t, i, w, f)
    ensures AreParts(t, minus, whole, fraction, exponent)
  {
    minus, whole, fraction, exponent := t[..i], t[i..w], t[w..f], t[f..];
    WholeAt(t, i, w);
    FractionAt(t, w, f);
    ExponentAt(t, f);
    hide IsWhole, IsFraction, IsExponent, Run;
    assert t[..i] == if i == 1 then "-" else "";
    assert t == t[..i] + t[i..w] + t[w..f] + t[f..];
  }

  lemma PartsMakeNumber(t: string, minus: string, whole: string, fraction: string, exponent: string)
    requires AreParts(t, minus, whole, fraction, exponent)
    ensures IsNumber(t)
  {
    var i, w, f := |minus|, |minus + whole|, |minus + whole + fraction|;
    assert t[..i] == minus && t[i..w] == whole && t[w..f] == fraction && t[f..] == exponent;
    WholeAt(t, i, w);
    FractionAt(t, w, f);
    ExponentAt(t, f);
    hide IsWhole, IsFraction, IsExponent, Run, IsNumber;
    PositionsMakeNumber(t, i, w, f);
  }

  lemma PositionsMakeNumber(t: string, i: nat, w: nat, f: nat)
    requires Positions(t, i, w, f)
    ensures IsNumber(t)
  {
    var sign := if f < |t| then (if t[f + 1] in "+-" then f + 2 else f + 1) else f;
    DigitsEndAt(t, i, w);
    if w < f { DigitsEndAt(t, w + 1, f); }
    if f < |t| { DigitsEndAt(t, sign, |t|); }
    hide Run, DigitsEnd, IsDigit;
  }

  /** Sections 3 and 6: a literal name or a number. */
  predicate IsBareToken(t: string) {
    t in {"true", "false", "null"} || IsNumber(t)
  }

  /** Exactly what a scalar other than a string is written as. */
  lemma BareTokenExactly(t: string)
    ensures IsBareToken(t) <==>
              || t == "true" || t == "false" || t == "null"
              || exists minus, whole, fraction, exponent :: AreParts(t, minus, whole, fraction, exponent)
  {
    NumberExactly(t);
    hide IsNumber, AreParts;
  }

  lemma BareTokenIsBare(t: string)
    requires IsBareToken(t)
    ensures t != "" && forall i :: 0 <= i < |t| ==> InBare(t[i])
  {
    hide *;
    if t in {"true", "false", "null"} {
      LiteralIsBare(t);
    } else {
      assert IsNumber(t) by { OtherTokens(t); }
      NumberCharacters(t);
      forall i | 0 <= i < |t| ensures InBare(t[i]) { NumberCharacterIsBare(t[i]); }
    }
  }

  lemma OtherTokens(t: string)
    requires IsBareToken(t) && t !in {"true", "false", "null"}
    ensures IsNumber(t)
  {
    hide IsNumber;
  }

  predicate IsNumberCharacter(ch: char) {
    IsDigit(ch) || ch == '+' || ch == '-' || ch == '.' || ch == 'e' || ch == 'E'
  }

  lemma NumberCharacters(t: string)
    requires IsNumber(t)
    ensures t != "" && forall i :: 0 <= i < |t| ==> IsNumberCharacter(t[i])
  {
  }

  lemma NumberCharacterIsBare(ch: char)
    requires IsNumberCharacter(ch)
    ensures InBare(ch)
  {
  }

  lemma LiteralIsBare(t: string)
    requires t in {"true", "false", "null"}
    ensures t != "" && forall i :: 0 <= i < |t| ==> InBare(t[i])
  {
  }

  function BareLength(s: string): (n: nat)
    ensures n <= |s|
    ensures forall i :: 0 <= i < n ==> InBare(s[i])
    ensures n < |s| ==> !InBare(s[n])
  {
    if s != "" && InBare(s[0]) then 1 + BareLength(s[1..]) else 0
  }

  function ReadScalar(s: string): (r: Option<(Node, string)>)
    ensures r.Some? ==> |r.value.1| < |s|
  {
    if s == "" then None
    else if s[0] == '"' then
      var n := QuoteEnd(s, 1);
      if 0 < n <= |s| then Some((Scalar(s[..n]), s[n..])) else None
    else
      var n := BareLength(s);
      if IsBareToken(s[..n]) then Some((Scalar(s[..n]), s[n..])) else None
  }

  function ReadValue(s: string, c: Codec): (r: Option<(Node, string)>)
    ensures r.Some? ==> |r.value.1| < |s|
    decreases |s|, 0
  {
    if s == "" then None
    else if s[0] == '{' then
      var t := Skip(s[1..]);
      if t != "" && t[0] == '}' then Some((Mapping([]), t[1..]))
      else
        var ps := ReadMembers(t, c);
        if ps.None? then None else Some((Mapping(ps.value.0), ps.value.1))
    else if s[0] == '[' then
      var t := Skip(s[1..]);
      if t != "" && t[0] == ']' then Some((Sequence([]), t[1..]))
      else
        var xs := ReadElements(t, c);
        if xs.None? then None else Some((Sequence(xs.value.0), xs.value.1))
    else ReadScalar(s)
  }

  /** One member of an object, with what follows it. */
  function ReadMember(s: string, c: Codec): (r: Option<(Pair, string)>)
    ensures r.Some? ==> |r.value.1| < |s|
    decreases |s|, 1
  {
    var n := QuoteEnd(s, 1);
    if s == "" || s[0] != '"' || n == 0 || n > |s| then None
    else
      var t := Skip(s[n..]);
      if t == "" || t[0] != ':' then None
      else
        var v := ReadValue(Skip(t[1..]), c);
        if v.None? then None else Some((Pair(c.unquote(s[..n]), v.value.0), Skip(v.value.1)))
  }

  function ReadMembers(s: string, c: Codec): (r: Option<(seq<Pair>, string)>)
    ensures r.Some? ==> |r.value.1| < |s|
    decreases |s|, 2
  {
    var m := ReadMember(s, c);
    if m.None? || m.value.1 == "" then None
    else
      var p, t := m.value.0, m.value.1;
      if t[0] == '}' then Some(([p], t[1..]))
      else if t[0] == ',' then
        var rest := ReadMembers(Skip(t[1..]), c);
        if rest.None? then None else Some(([p] + rest.value.0, rest.value.1))
      else None
  }

  function ReadElements(s: string, c: Codec): (r: Option<(seq<Node>, string)>)
    ensures r.Some? ==> |r.value.1| < |s|
    decreases |s|, 2
  {
    var v := ReadValue(s, c);
    if v.None? then None
    else
      var x, t := v.value.0, Skip(v.value.1);
      if t == "" then None
      else if t[0] == ']' then Some(([x], t[1..]))
      else if t[0] == ',' then
        var rest := ReadElements(Skip(t[1..]), c);
        if rest.None? then None else Some(([x] + rest.value.0, rest.value.1))
      else None
  }

  /** A whole JSON text: one value with space around it. */
  function Parse(s: string, c: Codec): Option<Node> {
    var v := ReadValue(Skip(s), c);
    if v.Some? && Skip(v.value.1) == "" then Some(v.value.0) else None
  }

  // ---------- documents made of JSON tokens ----------

  predicate IsScalarToken(t: string) {
    Quoted(t) || IsBareToken(t)
  }

  ghost predicate Tokens(n: Node) {
    match n
    case Scalar(token) => IsScalarToken(token)
    case Sequence(items) => forall x :: x in items ==> Tokens(x)
    case Mapping(pairs) => forall p :: p in pairs ==> Tokens(p.value)
  }

  // ---------- reading undoes writing ----------

  /** What may follow a value: nothing, or something that ends a bare token. */
  predicate Ends(s: string) {
    s == "" || !InBare(s[0])
  }

  lemma {:induction false} SkipIndent(d: nat, t: string)
    requires t != "" && !IsSpace(t[0])
    ensures Skip(Indent(d) + t) == t
  {
    if d > 0 {
      var r := Indent(d - 1) + t;
      assert Indent(d) + t == "  " + r;
      assert ("  " + r)[1..] == " " + r && (" " + r)[1..] == r;
      SkipIndent(d - 1, t);
    }
  }

  lemma SkipNewline(d: nat, t: string)
    requires t != "" && !IsSpace(t[0])
    ensures Skip("\n" + (Indent(d) + t)) == t
  {
    SkipIndent(d, t);
    assert ("\n" + (Indent(d) + t))[1..] == Indent(d) + t;
  }

  lemma {:induction false} BareLengthOf(t: string, s: string)
    requires Ends(s) && forall i :: 0 <= i < |t| ==> InBare(t[i])
    ensures BareLength(t + s) == |t|
  {
    var n := BareLength(t + s);
    assert forall i :: 0 <= i < |t| ==> (t + s)[i] == t[i];
    assert forall i :: 0 <= i < |t| ==> InBare((t + s)[i]);
    assert |t| < |t + s| ==> (t + s)[|t|] == s[0];
  }

  lemma ReadScalarBack(t: string, s: string)
    requires IsScalarToken(t) && Ends(s)
    ensures ReadScalar(t + s) == Some((Scalar(t), s))
  {
    assert (t + s)[..|t|] == t && (t + s)[|t|..] == s;
    if Quoted(t) {
      QuoteEndStays(t, s, 1);
    } else {
      BareTokenIsBare(t);
      assert (t + s)[0] == t[0];
      BareLengthOf(t, s);
    }
  }

  lemma FirstOfWrite(n: Node, d: nat, c: Codec)
    requires Tokens(n)
    ensures Write(n, d, c) != "" && !IsSpace(Write(n, d, c)[0])
    ensures Write(n, d, c)[0] !in ",:]}"
    ensures n.Mapping? <==> Write(n, d, c)[0] == '{'
    ensures n.Sequence? <==> Write(n, d, c)[0] == '['
  {
    match n {
      case Scalar(token) => if !Quoted(token) { BareTokenIsBare(token); }
      case Mapping(_) =>
      case Sequence(_) =>
    }
  }

  /** The rest of an object's text after its members. */
  function Close(d: nat, bracket: string, s: string): string {
    "\n" + (Indent(d) + (bracket + s))
  }

  lemma {:induction false} WriteReads(n: Node, d: nat, c: Codec, s: string)
    requires Faithful(c) && Tokens(n) && Ends(s)
    ensures ReadValue(Write(n, d, c) + s, c) == Some((n, s))
    decreases n, 1
  {
    match n {
      case Scalar(token) =>
        FirstOfWrite(n, d, c);
        ReadScalarBack(token, s);
      case Mapping(pairs) =>
        assert forall p :: p in pairs ==> Tokens(p.value);
        ObjectReads(pairs, d, c, s);
      case Sequence(items) =>
        assert forall x :: x in items ==> Tokens(x);
        ArrayReads(items, d, c, s);
    }
  }

  lemma {:induction false} ObjectReads(pairs: seq<Pair>, d: nat, c: Codec, s: string)
    requires Faithful(c) && forall p :: p in pairs ==> Tokens(p.value)
    ensures ReadValue(Write(Mapping(pairs), d, c) + s, c) == Some((Mapping(pairs), s))
    decreases pairs, 1
  {
    if pairs == [] {
      EmptyReads(c, s);
    } else {
      hide Write, Members, Indent, Tokens, ReadMembers, Close;
      OpenObject(pairs, d, c, s);
      MembersRead(pairs, d + 1, d, c, s);
    }
  }

  lemma {:induction false} ArrayReads(items: seq<Node>, d: nat, c: Codec, s: string)
    requires Faithful(c) && forall x :: x in items ==> Tokens(x)
    ensures ReadValue(Write(Sequence(items), d, c) + s, c) == Some((Sequence(items), s))
    decreases items, 1
  {
    if items == [] {
      EmptyReads(c, s);
    } else {
      hide Write, Elements, Indent, Tokens, ReadElements, Close;
      OpenArray(items, d, c, s);
      ElementsRead(items, d + 1, d, c, s);
    }
  }

  lemma EmptyReads(c: Codec, s: string)
    ensures ReadValue("{}" + s, c) == Some((Mapping([]), s))
    ensures ReadValue("[]" + s, c) == Some((Sequence([]), s))
  {
    assert ("{}" + s)[1..] == "}" + s && ("}" + s)[1..] == s;
    assert ("[]" + s)[1..] == "]" + s && ("]" + s)[1..] == s;
  }

  lemma OpenObject(ps: seq<Pair>, d: nat, c: Codec, s: string)
    requires ps != [] && Faithful(c)
    ensures var w := Write(Mapping(ps), d, c) + s;
            var t := Members(ps, d + 1, c) + Close(d, "}", s);
            w[0] == '{' && Skip(w[1..]) == t && t[0] == '"'
  {
    hide Write, Indent;
    var m := Members(ps, d + 1, c);
    var t := m + Close(d, "}", s);
    assert Quoted(c.quote(ps[0].key));
    assert Write(Mapping(ps), d, c) == "{\n" + (Indent(d + 1) + (m + ("\n" + (Indent(d) + "}")))) by {
      WriteObject(ps, d, c);
    }
    var w := Write(Mapping(ps), d, c) + s;
    assert w == "{\n" + (Indent(d + 1) + t);
    assert w[1..] == "\n" + (Indent(d + 1) + t);
    SkipNewline(d + 1, t);
  }

  lemma WriteObject(ps: seq<Pair>, d: nat, c: Codec)
    requires ps != []
    ensures Write(Mapping(ps), d, c) == "{\n" + (Indent(d + 1) + (Members(ps, d + 1, c) + ("\n" + (Indent(d) + "}"))))
  {
  }

  lemma WriteArray(xs: seq<Node>, d: nat, c: Codec)
    requires xs != []
    ensures Write(Sequence(xs), d, c) == "[\n" + (Indent(d + 1) + (Elements(xs, d + 1, c) + ("\n" + (Indent(d) + "]"))))
  {
  }

  lemma FirstOfElements(xs: seq<Node>, d: nat, c: Codec, s: string)
    requires xs != [] && forall x :: x in xs ==> Tokens(x)
    ensures var t := Elements(xs, d, c) + s; t != "" && t[0] != ']' && !IsSpace(t[0])
  {
    hide Write, Indent, Elements;
    FirstOfWrite(xs[0], d, c);
    ElementsText(xs, d, c, s);
  }

  lemma ArrayText(xs: seq<Node>, d: nat, c: Codec, s: string)
    requires xs != []
    ensures Write(Sequence(xs), d, c) + s == "[\n" + (Indent(d + 1) + (Elements(xs, d + 1, c) + Close(d, "]", s)))
  {
    WriteArray(xs, d, c);
    hide Write, Indent, Elements;
  }

  lemma OpenArray(xs: seq<Node>, d: nat, c: Codec, s: string)
    requires xs != [] && forall x :: x in xs ==> Tokens(x)
    ensures var w := Write(Sequence(xs), d, c) + s;
            var t := Elements(xs, d + 1, c) + Close(d, "]", s);
            w[0] == '[' && Skip(w[1..]) == t && t != "" && t[0] != ']'
  {
    FirstOfElements(xs, d + 1, c, Close(d, "]", s));
    ArrayText(xs, d, c, s);
    hide Write, Indent, Elements, Close, Skip;
    var t := Elements(xs, d + 1, c) + Close(d, "]", s);
    var rest := "\n" + (Indent(d + 1) + t);
    assert "[\n" + (Indent(d + 1) + t) == "[" + rest;
    assert ("[" + rest)[1..] == rest;
    SkipNewline(d + 1, t);
  }

  lemma MemberRead(k: string, v: Node, d: nat, c: Codec, rest: string)
    requires Faithful(c) && Tokens(v)
    requires ReadValue(Write(v, d, c) + rest, c) == Some((v, rest))
    ensures ReadMember(c.quote(k) + (": " + (Write(v, d, c) + rest)), c) == Some((Pair(k, v), Skip(rest)))
  {
    FirstOfWrite(v, d, c);
    hide ReadValue, Write;
    var q, u := c.quote(k), Write(v, d, c) + rest;
    var w := q + (": " + u);
    assert Quoted(q) && c.unquote(q) == k;
    QuoteEndStays(q, ": " + u, 1);
    assert w[..|q|] == q && w[|q|..] == ": " + u;
    assert (": " + u)[1..] == " " + u && (" " + u)[1..] == u;
    assert Skip(": " + u) == ": " + u && Skip(" " + u) == u;
  }

  lemma {:induction false} MembersRead(ps: seq<Pair>, d: nat, outer: nat, c: Codec, s: string)
    requires ps != [] && Faithful(c) && forall p :: p in ps ==> Tokens(p.value)
    ensures ReadMembers(Members(ps, d, c) + Close(outer, "}", s), c) == Some((ps, s))
    decreases ps, 0
  {
    hide Write, Indent, Tokens, ReadValue, ReadMember, Close, Quoted;
    var k, v := ps[0].key, ps[0].value;
    var close := Close(outer, "}", s);
    var rest := if |ps| == 1 then close else ",\n" + (Indent(d) + (Members(ps[1..], d, c) + close));
    MembersText(ps, d, c, close);
    RestEnds(ps, d, c, outer, s);
    WriteReads(v, d, c, rest);
    MemberRead(k, v, d, c, rest);
    if |ps| == 1 {
      SkipClose(outer, "}", s);
      assert ("}" + s)[1..] == s && ps == [Pair(k, v)];
    } else {
      hide Members;
      var more := Members(ps[1..], d, c) + close;
      SkipMore(ps[1..], d, c, close);
      assert Skip(rest) == rest && rest[1..] == "\n" + (Indent(d) + more);
      MembersRead(ps[1..], d, outer, c, s);
      assert ps == [Pair(k, v)] + ps[1..];
    }
  }

  lemma RestEnds(ps: seq<Pair>, d: nat, c: Codec, outer: nat, s: string)
    requires ps != []
    ensures Ends(Close(outer, "}", s))
    ensures |ps| > 1 ==> Ends(",\n" + (Indent(d) + (Members(ps[1..], d, c) + Close(outer, "}", s))))
  {
    hide Members, Indent;
  }

  lemma SkipClose(d: nat, bracket: string, s: string)
    requires bracket == "}" || bracket == "]"
    ensures Skip(Close(d, bracket, s)) == bracket + s
  {
    SkipNewline(d, bracket + s);
  }

  lemma SkipMore(ps: seq<Pair>, d: nat, c: Codec, s: string)
    requires ps != [] && Faithful(c)
    ensures Skip("\n" + (Indent(d) + (Members(ps, d, c) + s))) == Members(ps, d, c) + s
  {
    hide Write, Indent;
    assert Quoted(c.quote(ps[0].key));
    MembersText(ps, d, c, s);
    SkipNewline(d, Members(ps, d, c) + s);
  }

  lemma MembersText(ps: seq<Pair>, d: nat, c: Codec, s: string)
    requires ps != []
    ensures Members(ps, d, c) + s ==
            c.quote(ps[0].key) + (": " + (Write(ps[0].value, d, c) +
              (if |ps| == 1 then s else ",\n" + (Indent(d) + (Members(ps[1..], d, c) + s)))))
  {
    hide Write, Indent;
  }

  lemma ElementsText(xs: seq<Node>, d: nat, c: Codec, s: string)
    requires xs != []
    ensures Elements(xs, d, c) + s ==
            Write(xs[0], d, c) + (if |xs| == 1 then s else ",\n" + (Indent(d) + (Elements(xs[1..], d, c) + s)))
  {
    hide Write, Indent;
  }

  lemma {:induction false} ElementsRead(xs: seq<Node>, d: nat, outer: nat, c: Codec, s: string)
    requires xs != [] && Faithful(c) && forall x :: x in xs ==> Tokens(x)
    ensures ReadElements(Elements(xs, d, c) + Close(outer, "]", s), c) == Some((xs, s))
    decreases xs, 0
  {
    hide Write, Indent, Tokens, ReadValue, Close;
    var close := Close(outer, "]", s);
    var rest := if |xs| == 1 then close else ",\n" + (Indent(d) + (Elements(xs[1..], d, c) + close));
    ElementsText(xs, d, c, close);
    ArrayRestEnds(xs, d, c, outer, s);
    WriteReads(xs[0], d, c, rest);
    if |xs| == 1 {
      SkipClose(outer, "]", s);
      assert ("]" + s)[1..] == s && xs == [xs[0]];
    } else {
      hide Elements;
      var more := Elements(xs[1..], d, c) + close;
      SkipMoreElements(xs[1..], d, c, close);
      assert Skip(rest) == rest && rest[1..] == "\n" + (Indent(d) + more);
      ElementsRead(xs[1..], d, outer, c, s);
      assert xs == [xs[0]] + xs[1..];
    }
  }

  lemma ArrayRestEnds(xs: seq<Node>, d: nat, c: Codec, outer: nat, s: string)
    requires xs != []
    ensures Ends(Close(outer, "]", s))
    ensures |xs| > 1 ==> Ends(",\n" + (Indent(d) + (Elements(xs[1..], d, c) + Close(outer, "]", s))))
  {
    hide Elements, Indent;
  }

  lemma SkipMoreElements(xs: seq<Node>, d: nat, c: Codec, s: string)
    requires xs != [] && Tokens(xs[0])
    ensures Skip("\n" + (Indent(d) + (Elements(xs, d, c) + s))) == Elements(xs, d, c) + s
  {
    FirstOfWrite(xs[0], d, c);
    hide Write, Indent, Tokens;
    ElementsText(xs, d, c, s);
    SkipNewline(d, Elements(xs, d, c) + s);
  }

  /** Reading the encoded text gives the document back, with the same order of keys. */
  lemma ParseEncode(root: Node, c: Codec)
    requires Faithful(c) && Tokens(root)
    ensures Parse(Encode(root, c), c) == Some(root)
  {
    FirstOfWrite(root, 0, c);
    WriteReads(root, 0, c, "\n");
    assert "\n"[1..] == "";
  }

  // ---------- the encoder as the program runs it: appending to a buffer ----------

  class Buffer {
    var text: string

    constructor ()
      ensures text == ""
    {
      text := "";
    }

    method WriteString(s: string)
      modifies this
      ensures text == old(text) + s
    {
      text := text + s;
    }
  }

  method WriteIndent(buf: Buffer, depth: nat)
    modifies buf
    ensures buf.text == old(buf.text) + Indent(depth)
  {
    IndentSplit(0, depth);
    for i := 0 to depth
      invariant buf.text == old(buf.text) + Indent(i)
    {
      buf.WriteString("  ");
      IndentSplit(i, 1);
    }
  }

  lemma {:induction false} IndentSplit(a: nat, b: nat)
    ensures Indent(a + b) == Indent(a) + Indent(b)
  {
    if a > 0 { IndentSplit(a - 1, b); }
    assert b == 1 ==> Indent(b) == "  " + Indent(0);
  }

  method WriteJSONNode(buf: Buffer, node: Node, depth: nat, c: Codec)
    modifies buf
    ensures buf.text == old(buf.text) + Write(node, depth, c)
    decreases node, 3
  {
    match node {
      case Mapping(pairs) => WriteJSONObject(buf, pairs, depth, c);
      case Sequence(items) => WriteJSONArray(buf, items, depth, c);
      case Scalar(token) => buf.WriteString(token);
    }
  }

  method WriteJSONObject(buf: Buffer, content: seq<Pair>, depth: nat, c: Codec)
    modifies buf
    ensures buf.text == old(buf.text) + Write(Mapping(content), depth, c)
    decreases content, 1
  {
    hide Indent, Write, MembersFrom;
    buf.WriteString("{");
    if |content| == 0 {
      EmptyWrites(depth, c);
      buf.WriteString("}");
      return;
    }
    buf.WriteString("\n");
    ghost var all := buf.text + MembersFrom(content, 0, depth + 1, c);
    for i := 0 to |content|
      invariant all == buf.text + MembersFrom(content, i, depth + 1, c)
    {
      MembersStep(content, i, depth + 1, c);
      WriteMember(buf, i > 0, content[i], depth + 1, c);
    }
    NoMembers(content, depth + 1, c);
    buf.WriteString("\n");
    WriteIndent(buf, depth);
    buf.WriteString("}");
    FinishObject(old(buf.text), content, depth, c);
  }

  lemma NoMembers(ps: seq<Pair>, depth: nat, c: Codec)
    ensures MembersFrom(ps, |ps|, depth, c) == ""
  {
  }

  lemma FinishObject(start: string, ps: seq<Pair>, depth: nat, c: Codec)
    requires ps != []
    ensures start + "{" + "\n" + MembersFrom(ps, 0, depth + 1, c) + "\n" + Indent(depth) + "}"
            == start + Write(Mapping(ps), depth, c)
  {
    hide Indent, Members;
    WriteObject(ps, depth, c);
    assert ps[0..] == ps;
    hide Write;
  }

  /** The body of the loop over an object's members. */
  method WriteMember(buf: Buffer, more: bool, p: Pair, depth: nat, c: Codec)
    modifies buf
    ensures buf.text == old(buf.text) + MemberText(more, p, depth, c)
    decreases p, 2
  {
    hide Indent, Write;
    if more {
      buf.WriteString(",");
      buf.WriteString("\n");
    }
    WriteIndent(buf, depth);
    buf.WriteString(c.quote(p.key));
    buf.WriteString(": ");
    WriteJSONNode(buf, p.value, depth, c);
  }

  ghost function MemberText(more: bool, p: Pair, depth: nat, c: Codec): string {
    (if more then ",\n" else "") + (Indent(depth) + (c.quote(p.key) + (": " + Write(p.value, depth, c))))
  }

  /** What is still to be written after i members. */
  ghost function MembersFrom(ps: seq<Pair>, i: nat, depth: nat, c: Codec): string
    requires i <= |ps|
  {
    if i == |ps| then "" else (if i > 0 then ",\n" else "") + (Indent(depth) + Members(ps[i..], depth, c))
  }

  lemma MembersStep(ps: seq<Pair>, i: nat, depth: nat, c: Codec)
    requires i < |ps|
    ensures MembersFrom(ps, i, depth, c) == MemberText(i > 0, ps[i], depth, c) + MembersFrom(ps, i + 1, depth, c)
  {
    hide Indent, Write;
    assert ps[i..][1..] == ps[i + 1..];
  }

  lemma EmptyWrites(depth: nat, c: Codec)
    ensures Write(Mapping([]), depth, c) == "{}" && Write(Sequence([]), depth, c) == "[]"
  {
  }

  method WriteJSONArray(buf: Buffer, content: seq<Node>, depth: nat, c: Codec)
    modifies buf
    ensures buf.text == old(buf.text) + Write(Sequence(content), depth, c)
    decreases content, 1
  {
    hide Indent, Write, ElementsFrom;
    buf.WriteString("[");
    if |content| == 0 {
      EmptyWrites(depth, c);
      buf.WriteString("]");
      return;
    }
    buf.WriteString("\n");
    ghost var all := buf.text + ElementsFrom(content, 0, depth + 1, c);
    for i := 0 to |content|
      invariant all == buf.text + ElementsFrom(content, i, depth + 1, c)
    {
      ElementsStep(content, i, depth + 1, c);
      WriteElement(buf, i > 0, content[i], depth + 1, c);
    }
    NoElements(content, depth + 1, c);
    buf.WriteString("\n");
    WriteIndent(buf, depth);
    buf.WriteString("]");
    FinishArray(old(buf.text), content, depth, c);
  }

  lemma NoElements(xs: seq<Node>, depth: nat, c: Codec)
    ensures ElementsFrom(xs, |xs|, depth, c) == ""
  {
  }

  lemma FinishArray(start: string, xs: seq<Node>, depth: nat, c: Codec)
    requires xs != []
    ensures start + "[" + "\n" + ElementsFrom(xs, 0, depth + 1, c) + "\n" + Indent(depth) + "]"
            == start + Write(Sequence(xs), depth, c)
  {
    hide Indent, Elements;
    WriteArray(xs, depth, c);
    assert xs[0..] == xs;
    hide Write;
  }

  /** The body of the loop over an array's elements. */
  method WriteElement(buf: Buffer, more: bool, x: Node, depth: nat, c: Codec)
    modifies buf
    ensures buf.text == old(buf.text) + ElementText(more, x, depth, c)
    decreases x, 4
  {
    hide Indent, Write;
    if more {
      buf.WriteString(",");
      buf.WriteString("\n");
    }
    WriteIndent(buf, depth);
    WriteJSONNode(buf, x, depth, c);
  }

  ghost function ElementText(more: bool, x: Node, depth: nat, c: Codec): string {
    (if more then ",\n" else "") + (Indent(depth) + Write(x, depth, c))
  }

  /** What is still to be written after i elements. */
  ghost function ElementsFrom(xs: seq<Node>, i: nat, depth: nat, c: Codec): string
    requires i <= |xs|
  {
    if i == |xs| then "" else (if i > 0 then ",\n" else "") + (Indent(depth) + Elements(xs[i..], depth, c))
  }

  lemma ElementsStep(xs: seq<Node>, i: nat, depth: nat, c: Codec)
    requires i < |xs|
    ensures ElementsFrom(xs, i, depth, c) == ElementText(i > 0, xs[i], depth, c) + ElementsFrom(xs, i + 1, depth, c)
  {
    hide Indent, Write;
    assert xs[i..][1..] == xs[i + 1..];
  }

  method EncodeJSON(root: Node, c: Codec) returns (text: string)
    ensures text == Encode(root, c)
  {
    var buf := new Buffer();
    WriteJSONNode(buf, root, 0, c);
    buf.WriteString("\n");
    return buf.text;
  }

  // ---------- the formatter on text ----------

  /** The tokens of a document do not depend on the order of its parts. */
  ghost predicate ContentTokens(content: Content) {
    match content
    case Leaf(token) => IsScalarToken(token)
    case Listed(elements) => forall e :: e in elements ==> ContentTokens(e)
    case Bag(members) => forall e :: e in members ==> ContentTokens(e)
    case Record(slots) => forall t :: t in slots ==> ContentTokens(t.content)
  }

  lemma {:induction false} TokensByContent(n: Node, s: Strings)
    ensures Tokens(n) <==> ContentTokens(ContentOf(n, s))
    decreases n, 1
  {
    match n {
      case Scalar(_) =>
      case Sequence(items) => TokensByContents(items, s);
      case Mapping(pairs) =>
        var slots := Slots(pairs, s);
        forall i | 0 <= i < |pairs| ensures Tokens(pairs[i].value) <==> ContentTokens(slots[i].content) {
          TokensBySlot(pairs[i], s);
        }
        SlotsByPlace(pairs, slots);
        assert forall t :: t in multiset(slots) <==> t in slots;
    }
  }

  lemma SlotsByPlace(ps: seq<Pair>, slots: seq<Slot>)
    requires |ps| == |slots| && forall i :: 0 <= i < |ps| ==> (Tokens(ps[i].value) <==> ContentTokens(slots[i].content))
    ensures (forall p :: p in ps ==> Tokens(p.value)) <==> (forall t :: t in slots ==> ContentTokens(t.content))
  {
    hide Tokens, ContentTokens;
    if forall p :: p in ps ==> Tokens(p.value) {
      forall t | t in slots ensures ContentTokens(t.content) {
        var i :| 0 <= i < |slots| && slots[i] == t;
        assert ps[i] in ps;
      }
    }
    if forall t :: t in slots ==> ContentTokens(t.content) {
      forall p | p in ps ensures Tokens(p.value) {
        var i :| 0 <= i < |ps| && ps[i] == p;
        assert slots[i] in slots;
      }
    }
  }

  lemma {:induction false} TokensBySlot(p: Pair, s: Strings)
    ensures Tokens(p.value) <==> ContentTokens(SlotOf(p, s).content)
    decreases p, 0
  {
    if s.isItems(p.key) && p.value.Sequence? {
      TokensByContents(p.value.items, s);
    } else {
      TokensByContent(p.value, s);
    }
  }

  lemma {:induction false} TokensByContents(xs: seq<Node>, s: Strings)
    ensures Tokens(Sequence(xs)) <==> ContentTokens(Listed(ContentAll(xs, s)))
    ensures Tokens(Sequence(xs)) <==> ContentTokens(Bag(multiset(ContentAll(xs, s))))
    decreases xs, 0
  {
    hide Tokens, ContentTokens;
    var cs := ContentAll(xs, s);
    forall i | 0 <= i < |xs| ensures Tokens(xs[i]) <==> ContentTokens(cs[i]) {
      TokensByContent(xs[i], s);
    }
    SameByPlace(xs, cs);
    ListTokens(xs, cs);
  }

  lemma ListTokens(xs: seq<Node>, cs: seq<Content>)
    ensures Tokens(Sequence(xs)) <==> forall x :: x in xs ==> Tokens(x)
    ensures ContentTokens(Listed(cs)) <==> forall e :: e in cs ==> ContentTokens(e)
    ensures ContentTokens(Bag(multiset(cs))) <==> forall e :: e in cs ==> ContentTokens(e)
  {
    assert forall e :: e in multiset(cs) <==> e in cs;
  }

  lemma SameByPlace(xs: seq<Node>, cs: seq<Content>)
    requires |xs| == |cs| && forall i :: 0 <= i < |xs| ==> (Tokens(xs[i]) <==> ContentTokens(cs[i]))
    ensures (forall x :: x in xs ==> Tokens(x)) <==> (forall e :: e in cs ==> ContentTokens(e))
  {
    hide Tokens, ContentTokens;
    if forall x :: x in xs ==> Tokens(x) {
      forall e | e in cs ensures ContentTokens(e) {
        var i :| 0 <= i < |cs| && cs[i] == e;
        assert xs[i] in xs;
      }
    }
    if forall e :: e in cs ==> ContentTokens(e) {
      forall x | x in xs ensures Tokens(x) {
        var i :| 0 <= i < |xs| && xs[i] == x;
        assert cs[i] in cs;
      }
    }
  }

  /** What the formatter makes of a JSON text, or None when it cannot be decoded. */
  function FormatText(text: string, schema: Option<seq<Field>>, s: Strings, c: Codec): Option<string> {
    var root := Parse(text, c);
    if root.None? then None else Some(Encode(Format(root.value, schema, s), c))
  }

  /** Decoding yields documents made of tokens. */
  lemma {:induction false} ReadGivesTokens(t: string, c: Codec)
    ensures ReadValue(t, c).Some? ==> Tokens(ReadValue(t, c).value.0)
    decreases |t|, 0
  {
    if t != "" && t[0] == '{' {
      MembersGiveTokens(Skip(t[1..]), c);
    } else if t != "" && t[0] == '[' {
      ElementsGiveTokens(Skip(t[1..]), c);
    } else if t != "" && t[0] == '"' {
      var n := QuoteEnd(t, 1);
      if 0 < n <= |t| { QuoteEndOfPrefix(t, 1); }
    }
  }

  lemma {:induction false} QuoteEndOfPrefix(t: string, i: nat)
    requires 0 < QuoteEnd(t, i) <= |t|
    ensures i < QuoteEnd(t, i)
    ensures QuoteEnd(t[..QuoteEnd(t, i)], i) == QuoteEnd(t, i)
    decreases |t| - i
  {
    if t[i] != '"' {
      QuoteEndOfPrefix(t, if t[i] == '\\' then i + 2 else i + 1);
    }
  }

  lemma {:induction false} MembersGiveTokens(t: string, c: Codec)
    ensures ReadMembers(t, c).Some? ==> forall p :: p in ReadMembers(t, c).value.0 ==> Tokens(p.value)
    decreases |t|, 2
  {
    var m := ReadMember(t, c);
    if m.Some? {
      var n := QuoteEnd(t, 1);
      ReadGivesTokens(Skip(Skip(t[n..])[1..]), c);
      var rest := m.value.1;
      if rest != "" && rest[0] == ',' {
        MembersGiveTokens(Skip(rest[1..]), c);
      }
    }
  }

  lemma {:induction false} ElementsGiveTokens(t: string, c: Codec)
    ensures ReadElements(t, c).Some? ==> forall x :: x in ReadElements(t, c).value.0 ==> Tokens(x)
    decreases |t|, 2
  {
    var v := ReadValue(t, c);
    ReadGivesTokens(t, c);
    if v.Some? {
      var rest := Skip(v.value.1);
      if rest != "" && rest[0] == ',' {
        ElementsGiveTokens(Skip(rest[1..]), c);
      }
    }
  }

  /** A formatted text decodes to the formatted document. */
  lemma FormattedTextReads(text: string, schema: Option<seq<Field>>, s: Strings, c: Codec)
    requires Faithful(c) && Parse(text, c).Some?
    ensures Parse(FormatText(text, schema, s, c).value, c) == Some(Format(Parse(text, c).value, schema, s))
  {
    var root := Parse(text, c).value;
    ReadGivesTokens(Skip(text), c);
    TokensByContent(root, s);
    FormatKeepsContent(root, schema, s);
    TokensByContent(Format(root, schema, s), s);
    ParseEncode(Format(root, schema, s), c);
  }

  /** On text too: whatever decodes is in its final form after two runs. */
  lemma FormatTextConverges(text: string, schema: Option<seq<Field>>, s: Strings, c: Codec)
    requires Faithful(c) && Parse(text, c).Some?
    ensures var once := FormatText(text, schema, s, c);
            var twice := FormatText(once.value, schema, s, c);
            twice.Some? && FormatText(twice.value, schema, s, c) == twice
  {
    hide Parse, Encode;
    var once := FormatText(text, schema, s, c).value;
    FormattedTextReads(text, schema, s, c);
    FormattedTextReads(once, schema, s, c);
    FormatConverges(Parse(text, c).value, schema, s);
  }

  // ---------- the layout ----------

  ghost function Spaces(n: nat): string {
    seq(n, i => ' ')
  }

  /** The texts of the members, without what stands between them. */
  ghost function MemberTexts(ps: seq<Pair>, depth: nat, c: Codec): (r: seq<string>)
    ensures |r| == |ps|
  {
    seq(|ps|, i requires 0 <= i < |ps| => c.quote(ps[i].key) + ": " + Write(ps[i].value, depth, c))
  }

  ghost function ElementTexts(xs: seq<Node>, depth: nat, c: Codec): (r: seq<string>)
    ensures |r| == |xs|
  {
    seq(|xs|, i requires 0 <= i < |xs| => Write(xs[i], depth, c))
  }

  /** One member or element to a line, indented by two spaces for each level, with commas at the ends of lines. */
  lemma LayoutExactly(n: Node, depth: nat, c: Codec)
    ensures n.Scalar? ==> Write(n, depth, c) == n.token
    ensures n.Mapping? ==>
              Write(n, depth, c) ==
              if n.pairs == [] then "{}"
              else
                "{\n" + Spaces(2 * depth + 2)
                + Join(MemberTexts(n.pairs, depth + 1, c), ",\n" + Spaces(2 * depth + 2))
                + "\n" + Spaces(2 * depth) + "}"
    ensures n.Sequence? ==>
              Write(n, depth, c) ==
              if n.items == [] then "[]"
              else
                "[\n" + Spaces(2 * depth + 2)
                + Join(ElementTexts(n.items, depth + 1, c), ",\n" + Spaces(2 * depth + 2))
                + "\n" + Spaces(2 * depth) + "]"
    ensures Encode(n, c) == Write(n, 0, c) + "\n"
  {
    if n.Mapping? && n.pairs != [] { MappingLayout(n.pairs, depth, c); }
    if n.Sequence? && n.items != [] { SequenceLayout(n.items, depth, c); }
    hide Indent, Members, Elements, Spaces, Join;
  }

  lemma MappingLayout(ps: seq<Pair>, depth: nat, c: Codec)
    requires ps != []
    ensures Write(Mapping(ps), depth, c) ==
            "{\n" + Spaces(2 * depth + 2) + Join(MemberTexts(ps, depth + 1, c), ",\n" + Spaces(2 * depth + 2))
            + "\n" + Spaces(2 * depth) + "}"
  {
    hide Indent, Members, Spaces, Join, MemberTexts;
    assert Write(Mapping(ps), depth, c)
        == "{\n" + (Indent(depth + 1) + (Members(ps, depth + 1, c) + ("\n" + (Indent(depth) + "}"))));
    hide Write;
    IndentIsSpaces(depth);
    IndentIsSpaces(depth + 1);
    MembersJoined(ps, depth + 1, c);
    Grouped("{\n", Indent(depth + 1), Members(ps, depth + 1, c), Indent(depth), "}");
  }

  lemma SequenceLayout(xs: seq<Node>, depth: nat, c: Codec)
    requires xs != []
    ensures Write(Sequence(xs), depth, c) ==
            "[\n" + Spaces(2 * depth + 2) + Join(ElementTexts(xs, depth + 1, c), ",\n" + Spaces(2 * depth + 2))
            + "\n" + Spaces(2 * depth) + "]"
  {
    hide Indent, Elements, Spaces, Join, ElementTexts;
    assert Write(Sequence(xs), depth, c)
        == "[\n" + (Indent(depth + 1) + (Elements(xs, depth + 1, c) + ("\n" + (Indent(depth) + "]"))));
    hide Write;
    IndentIsSpaces(depth);
    IndentIsSpaces(depth + 1);
    ElementsJoined(xs, depth + 1, c);
    Grouped("[\n", Indent(depth + 1), Elements(xs, depth + 1, c), Indent(depth), "]");
  }

  lemma Grouped(open: string, indent: string, body: string, outer: string, close: string)
    ensures open + (indent + (body + ("\n" + (outer + close)))) == open + indent + body + "\n" + outer + close
  {
  }

  lemma {:induction false} IndentIsSpaces(depth: nat)
    ensures Indent(depth) == Spaces(2 * depth)
  {
    if depth > 0 {
      IndentIsSpaces(depth - 1);
      assert "  " + Spaces(2 * depth - 2) == Spaces(2 * depth);
    }
  }

  lemma {:induction false} MembersJoined(ps: seq<Pair>, depth: nat, c: Codec)
    requires ps != []
    ensures Members(ps, depth, c) == Join(MemberTexts(ps, depth, c), ",\n" + Indent(depth))
  {
    hide Indent, Write;
    var texts := MemberTexts(ps, depth, c);
    assert c.quote(ps[0].key) + (": " + Write(ps[0].value, depth, c)) == texts[0];
    if |ps| > 1 {
      MembersJoined(ps[1..], depth, c);
      assert texts[1..] == MemberTexts(ps[1..], depth, c);
      assert texts[0] + (",\n" + (Indent(depth) + Members(ps[1..], depth, c)))
          == texts[0] + (",\n" + Indent(depth)) + Members(ps[1..], depth, c);
    }
  }

  lemma {:induction false} ElementsJoined(xs: seq<Node>, depth: nat, c: Codec)
    requires xs != []
    ensures Elements(xs, depth, c) == Join(ElementTexts(xs, depth, c), ",\n" + Indent(depth))
  {
    hide Indent, Write;
    var texts := ElementTexts(xs, depth, c);
    if |xs| > 1 {
      ElementsJoined(xs[1..], depth, c);
      assert texts[1..] == ElementTexts(xs[1..], depth, c);
      assert texts[0] + (",\n" + (Indent(depth) + Elements(xs[1..], depth, c)))
          == texts[0] + (",\n" + Indent(depth)) + Elements(xs[1..], depth, c);
    }
  }
}
