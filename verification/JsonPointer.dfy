/**
 Resolving an in-document reference, and the pointer text that leads to a place
 (internal/config/jsonschema.go; sections 3 and 4 of RFC 6901).
*/
module JsonPointer {
  import opened Text
  import opened SchemaExport

  /** One step into a document: a key of an object, or an index of a list. */
  datatype Token = Key(key: string) | Index(index: nat)

  datatype Failure = EmptyRef | External | NoSuchKey | BadIndex | NotAContainer

  // ---------- text ----------

  function Split(s: string, sep: char): (parts: seq<string>)
    ensures parts != []
  {
    if s == "" then [""]
    else
      var rest := Split(s[1..], sep);
      if s[0] == sep then [""] + rest else [[s[0]] + rest[0]] + rest[1..]
  }

  /** Replace every occurrence of the two characters ~d, reading from the left. */
  function ReplaceTilde(s: string, d: char, c: char): string {
    if s == "" then ""
    else if |s| >= 2 && s[0] == '~' && s[1] == d then [c] + ReplaceTilde(s[2..], d, c)
    else [s[0]] + ReplaceTilde(s[1..], d, c)
  }

  /** First ~1 becomes a slash, then ~0 becomes a tilde. */
  function Unescape(s: string): string {
    ReplaceTilde(ReplaceTilde(s, '1', '/'), '0', '~')
  }

  /** Section 3 of RFC 6901: a tilde is written ~0 and a slash ~1. */
  function Escape(s: string): string {
    if s == "" then ""
    else (if s[0] == '~' then "~0" else if s[0] == '/' then "~1" else [s[0]]) + Escape(s[1..])
  }

  // ---------- numbers ----------

  predicate IsDigit(c: char) { '0' <= c <= '9' }

  predicate AllDigits(s: string) {
    forall i :: 0 <= i < |s| ==> IsDigit(s[i])
  }

  function Digit(c: char): nat
    requires IsDigit(c)
  {
    (c - '0') as nat
  }

  function Digits(n: nat): (s: string)
    ensures s != "" && AllDigits(s)
  {
    (if n < 10 then "" else Digits(n / 10)) + ['0' + (n % 10) as char]
  }

  function Magnitude(s: string): nat
    requires AllDigits(s)
  {
    if s == "" then 0 else 10 * Magnitude(s[..|s| - 1]) + Digit(s[|s| - 1])
  }

  /** A decimal number with an optional sign; leading zeros are accepted. */
  function Atoi(s: string): Option<int> {
    var digits := if s != "" && s[0] in "+-" then s[1..] else s;
    if digits == "" || !AllDigits(digits) then None
    else
      var n: int := Magnitude(digits);
      Some(if s[0] == '-' then -n else n)
  }

  // ---------- resolving ----------

  function Descend(node: Json, segment: string): Result<Json, Failure> {
    match node
    case Obj(fields) => if segment in fields then Ok(fields[segment]) else Err(NoSuchKey)
    case List(items) =>
      (match Atoi(segment)
       case None => Err(BadIndex)
       case Some(i) => if 0 <= i < |items| then Ok(items[i]) else Err(BadIndex))
    case _ => Err(NotAContainer)
  }

  /** Empty segments are skipped. */
  function Walk(node: Json, segments: seq<string>): Result<Json, Failure> {
    if segments == [] then Ok(node)
    else if segments[0] == "" then Walk(node, segments[1..])
    else match Descend(node, Unescape(segments[0]))
      case Err(e) => Err(e)
      case Ok(next) => Walk(next, segments[1..])
  }

  function Resolve(document: Json, ref: string): Result<Json, Failure> {
    if ref == "" then Err(EmptyRef)
    else if ref[0] != '#' then Err(External)
    else Walk(document, Split(ref[1..], '/'))
  }

  method ResolveJSONPointer(document: Json, ref: string) returns (r: Result<Json, Failure>)
    ensures r == Resolve(document, ref)
  {
    if ref == "" { return Err(EmptyRef); }
    if ref[0] != '#' { return Err(External); }
    if ref == "#" {
      assert Split("", '/') == [""] && Walk(document, [""]) == Walk(document, [""][1..]);
      return Ok(document);
    }
    var segments := Split(ref[1..], '/');
    var current := document;
    for i := 0 to |segments|
      invariant Walk(document, segments) == Walk(current, segments[i..])
    {
      assert segments[i..][1..] == segments[i + 1..];
      if segments[i] == "" { continue; }
      var next := Descend(current, Unescape(segments[i]));
      if next.Err? { return next; }
      current := next.value;
    }
    assert segments[|segments|..] == [];
    return Ok(current);
  }

  // ---------- paths ----------

  function Written(t: Token): string {
    match t case Key(key) => Escape(key) case Index(index) => Digits(index)
  }

  /** Section 4 of RFC 6901, as a URI fragment without percent-encoding: a slash before every token. */
  function Pointer(path: seq<Token>): string {
    if path == [] then "" else "/" + Written(path[0]) + Pointer(path[1..])
  }

  function Step(node: Json, t: Token): Option<Json> {
    match t
    case Key(key) => if node.Obj? && key in node.fields then Some(node.fields[key]) else None
    case Index(index) => if node.List? && index < |node.items| then Some(node.items[index]) else None
  }

  /** The node at a path. */
  function NodeAt(node: Json, path: seq<Token>): Option<Json> {
    if path == [] then Some(node)
    else match Step(node, path[0]) case None => None case Some(next) => NodeAt(next, path[1..])
  }

  // ---------- escaping ----------

  /** Unescaping undoes escaping, for every text. */
  lemma {:induction false} UnescapeEscape(s: string)
    ensures Unescape(Escape(s)) == s
  {
    SlashesBack(s);
    TildesBack(s);
  }

  /** The text with only its tildes escaped. */
  function TildesEscaped(s: string): string {
    if s == "" then "" else (if s[0] == '~' then "~0" else [s[0]]) + TildesEscaped(s[1..])
  }

  /** How a replacement goes on past one plain character, one match, or one other escape. */
  lemma ReplaceStep(first: char, second: char, rest: string, d: char, c: char)
    ensures first != '~' ==> ReplaceTilde([first] + rest, d, c) == [first] + ReplaceTilde(rest, d, c)
    ensures second == d ==> ReplaceTilde(['~', second] + rest, d, c) == [c] + ReplaceTilde(rest, d, c)
    ensures second != d && second != '~' ==>
            ReplaceTilde(['~', second] + rest, d, c) == ['~', second] + ReplaceTilde(rest, d, c)
  {
    assert ([first] + rest)[1..] == rest;
    var both := ['~', second] + rest;
    assert both[2..] == rest && both[1..] == [second] + rest && ([second] + rest)[1..] == rest;
    assert ['~'] + ([second] + ReplaceTilde(rest, d, c)) == ['~', second] + ReplaceTilde(rest, d, c);
  }

  lemma {:induction false} SlashesBack(s: string)
    ensures ReplaceTilde(Escape(s), '1', '/') == TildesEscaped(s)
  {
    if s != "" {
      SlashesBack(s[1..]);
      var rest := Escape(s[1..]);
      ReplaceStep(s[0], '0', rest, '1', '/');
      ReplaceStep(s[0], '1', rest, '1', '/');
      hide ReplaceTilde;
    }
  }

  lemma {:induction false} TildesBack(s: string)
    ensures ReplaceTilde(TildesEscaped(s), '0', '~') == s
  {
    if s != "" {
      TildesBack(s[1..]);
      ReplaceStep(s[0], '0', TildesEscaped(s[1..]), '0', '~');
      hide ReplaceTilde;
      assert s == [s[0]] + s[1..];
    }
  }

  lemma {:induction false} EscapeHasNoSlash(s: string)
    ensures '/' !in Escape(s) && (s != "" ==> Escape(s) != "")
  {
    if s != "" { EscapeHasNoSlash(s[1..]); }
  }

  // ---------- numbers ----------

  lemma {:induction false} DigitsBack(n: nat)
    ensures Magnitude(Digits(n)) == n
  {
    var s := Digits(n);
    var last := '0' + (n % 10) as char;
    assert s[|s| - 1] == last && Digit(last) == n % 10;
    if n < 10 {
      assert s[..|s| - 1] == "";
    } else {
      assert s[..|s| - 1] == Digits(n / 10);
      DigitsBack(n / 10);
    }
  }

  lemma AtoiDigits(n: nat)
    ensures Atoi(Digits(n)) == Some(n)
  {
    DigitsBack(n);
    hide Digits, Magnitude;
    var s := Digits(n);
    assert IsDigit(s[0]);
  }

  /** Where one segment leads, and why it may lead nowhere. */
  lemma SegmentExactly(node: Json, segment: string, rest: seq<string>)
    requires segment != ""
    ensures var r, key := Walk(node, [segment] + rest), Unescape(segment);
            && (node.Obj? ==> r == if key in node.fields then Walk(node.fields[key], rest) else Err(NoSuchKey))
            && (node.List? ==>
                  r == if Atoi(key).Some? && 0 <= Atoi(key).value < |node.items|
                       then Walk(node.items[Atoi(key).value], rest) else Err(BadIndex))
            && (!node.Obj? && !node.List? ==> r == Err(NotAContainer))
    ensures Walk(node, [""] + rest) == Walk(node, rest) && Walk(node, []) == Ok(node)
    ensures Resolve(node, "") == Err(EmptyRef) && (segment[0] != '#' ==> Resolve(node, segment) == Err(External))
  {
    hide Atoi, Unescape;
    assert ([segment] + rest)[1..] == rest && ([""] + rest)[1..] == rest;
  }

  ghost predicate AreDigits(s: string) {
    s != "" && forall c :: c in s ==> c in "0123456789"
  }

  /** An index is digits with or without a sign, and is read as their number; zeros in front do not matter. */
  lemma AtoiExactly(s: string, digits: string, n: nat)
    ensures Atoi(s).Some? <==> AreDigits(s) || (s != "" && (s[0] == '+' || s[0] == '-') && AreDigits(s[1..]))
    ensures s != "" && s[0] == '-' && Atoi(s).Some? ==> Atoi(s).value <= 0
    ensures AreDigits(digits) ==> Atoi(digits).Some? && Atoi(digits).value >= 0
    ensures AreDigits(digits) ==>
              && Atoi("+" + digits) == Atoi(digits) == Atoi("0" + digits)
              && Atoi("-" + digits) == Some(-Atoi(digits).value)
    ensures Atoi(Digits(n)) == Some(n)
  {
    AtoiDigits(n);
    IndexTexts(s);
    if AreDigits(digits) { IndexValues(digits); }
    hide *;
  }

  lemma IndexTexts(s: string)
    ensures Atoi(s).Some? <==> AreDigits(s) || (s != "" && (s[0] == '+' || s[0] == '-') && AreDigits(s[1..]))
    ensures s != "" && s[0] == '-' && Atoi(s).Some? ==> Atoi(s).value <= 0
  {
    DigitsExactly(s);
    if s != "" && (s[0] == '+' || s[0] == '-') {
      assert s[0] in "+-" && !IsDigit(s[0]);
      DigitsExactly(s[1..]);
    }
    hide AreDigits, Magnitude;
  }

  lemma IndexValues(digits: string)
    requires AreDigits(digits)
    ensures Atoi(digits).Some? && Atoi(digits).value >= 0
    ensures Atoi("+" + digits) == Atoi(digits) == Atoi("0" + digits) && Atoi("-" + digits) == Some(-Atoi(digits).value)
  {
    DigitsExactly(digits);
    ZeroInFront(digits);
    assert digits[0] !in "+-" by { assert IsDigit(digits[0]); }
    hide AreDigits, Magnitude;
    assert ("+" + digits)[1..] == digits && ("-" + digits)[1..] == digits;
    assert ("+" + digits)[0] == '+' && ("-" + digits)[0] == '-' && ("0" + digits)[0] == '0';
  }

  lemma DigitsExactly(s: string)
    ensures AreDigits(s) <==> s != "" && AllDigits(s)
  {
    forall c: char ensures IsDigit(c) <==> c in "0123456789" {
      if IsDigit(c) { assert "0123456789"[Digit(c)] == c; }
    }
    hide IsDigit;
  }

  lemma {:induction false} ZeroInFront(s: string)
    requires AllDigits(s)
    ensures AllDigits("0" + s)
    ensures Magnitude("0" + s) == Magnitude(s)
  {
    var t := "0" + s;
    if s != "" {
      ZeroInFront(s[..|s| - 1]);
      assert t[..|t| - 1] == "0" + s[..|s| - 1];
    }
  }

  lemma DigitsArePlain(n: nat)
    ensures Unescape(Digits(n)) == Digits(n) && '/' !in Digits(n)
  {
    hide Digits, ReplaceTilde;
    NoTilde(Digits(n), '1', '/');
    NoTilde(Digits(n), '0', '~');
  }

  lemma {:induction false} NoTilde(s: string, d: char, c: char)
    requires '~' !in s
    ensures ReplaceTilde(s, d, c) == s
  {
    if s != "" {
      NoTilde(s[1..], d, c);
      assert s == [s[0]] + s[1..];
    }
  }

  // ---------- splitting ----------

  lemma {:induction false} SplitFirst(part: string, rest: string)
    requires '/' !in part
    ensures Split(part + "/" + rest, '/') == [part] + Split(rest, '/')
  {
    var s := part + "/" + rest;
    if part == "" {
      assert s == "/" + rest && s[1..] == rest;
    } else {
      SplitFirst(part[1..], rest);
      assert s[1..] == part[1..] + "/" + rest;
      assert part == [part[0]] + part[1..];
    }
  }

  lemma {:induction false} SplitWhole(part: string)
    requires '/' !in part
    ensures Split(part, '/') == [part]
  {
    if part != "" {
      SplitWhole(part[1..]);
      assert part == [part[0]] + part[1..];
    }
  }

  function Segments(path: seq<Token>): seq<string> {
    if path == [] then [] else [Written(path[0])] + Segments(path[1..])
  }

  lemma WrittenHasNoSlash(t: Token)
    ensures '/' !in Written(t)
  {
    match t
    case Key(key) => EscapeHasNoSlash(key);
    case Index(index) => DigitsArePlain(index);
  }

  /** Splitting a pointer gives back its tokens, after one empty segment. */
  lemma {:induction false} SplitPointer(path: seq<Token>)
    ensures Split(Pointer(path), '/') == [""] + Segments(path)
  {
    if path != [] {
      hide Split, Written;
      WrittenHasNoSlash(path[0]);
      var first, rest := Written(path[0]), Pointer(path[1..]);
      assert Pointer(path) == "/" + (first + rest);
      SplitSlash(first + rest);
      SplitPointer(path[1..]);
      SplitNext(first, path[1..]);
    }
  }

  /** The segments of a token and of the pointer after it. */
  lemma SplitNext(first: string, path: seq<Token>)
    requires '/' !in first && Split(Pointer(path), '/') == [""] + Segments(path)
    ensures Split(first + Pointer(path), '/') == [first] + Segments(path)
  {
    hide Split, Written;
    if path == [] {
      assert first + Pointer(path) == first;
      SplitWhole(first);
    } else {
      var more := Written(path[0]) + Pointer(path[1..]);
      assert Pointer(path) == "/" + more;
      SplitSlash(more);
      assert Split(more, '/') == ([""] + Split(more, '/'))[1..];
      assert Segments(path) == ([""] + Segments(path))[1..];
      assert first + ("/" + more) == first + "/" + more;
      SplitFirst(first, more);
    }
  }

  lemma SplitSlash(s: string)
    ensures Split("/" + s, '/') == [""] + Split(s, '/')
  {
    assert ("/" + s)[1..] == s;
  }

  // ---------- the round trip ----------

  /** No key along the path is empty. */
  predicate KeysNamed(path: seq<Token>) {
    forall i :: 0 <= i < |path| ==> path[i] != Key("")
  }

  /** Each token fits the node it is applied to: a key an object, an index a list. */
  predicate Fits(node: Json, path: seq<Token>) {
    path != [] ==>
      && (if path[0].Key? then node.Obj? else node.List?)
      && (Step(node, path[0]).Some? ==> Fits(Step(node, path[0]).value, path[1..]))
  }

  /** The text by which a token is looked up. */
  function Plainly(t: Token): string {
    match t case Key(key) => key case Index(index) => Digits(index)
  }

  /** Where the tokens lead when each is looked up as a text, as the program does. */
  function Reach(node: Json, path: seq<Token>): Result<Json, Failure> {
    if path == [] then Ok(node)
    else match Descend(node, Plainly(path[0]))
      case Err(e) => Err(e)
      case Ok(next) => Reach(next, path[1..])
  }

  /** The path without its empty keys. */
  function Named(path: seq<Token>): (r: seq<Token>)
    ensures KeysNamed(r) && (KeysNamed(path) ==> r == path)
  {
    if path == [] then []
    else
      assert KeysNamed(path) ==> path[0] != Key("") && KeysNamed(path[1..]) && [path[0]] + path[1..] == path;
      (if path[0] == Key("") then [] else [path[0]]) + Named(path[1..])
  }

  lemma WrittenPlainly(t: Token)
    ensures Unescape(Written(t)) == Plainly(t) && (Written(t) == "" <==> t == Key(""))
  {
    match t
    case Key(key) =>
      UnescapeEscape(key);
      EscapeHasNoSlash(key);
    case Index(index) =>
      DigitsArePlain(index);
  }

  lemma {:induction false} WalkSegments(node: Json, path: seq<Token>)
    ensures Walk(node, Segments(path)) == Reach(node, Named(path))
  {
    if path != [] {
      var t := path[0];
      WrittenPlainly(t);
      assert Segments(path)[0] == Written(t) && Segments(path)[1..] == Segments(path[1..]);
      if t == Key("") {
        WalkSegments(node, path[1..]);
        assert Named(path) == Named(path[1..]);
      } else {
        var next := Descend(node, Plainly(t));
        assert Named(path)[0] == t && Named(path)[1..] == Named(path[1..]);
        if next.Ok? {
          WalkSegments(next.value, path[1..]);
        }
      }
    }
  }

  /** For every document and path: the pointer leads where the tokens other than empty keys do. */
  lemma PointerReaches(document: Json, path: seq<Token>)
    ensures Resolve(document, "#" + Pointer(path)) == Reach(document, Named(path))
  {
    var ref := "#" + Pointer(path);
    assert ref[1..] == Pointer(path);
    SplitPointer(path);
    WalkSegments(document, path);
    assert ([""] + Segments(path))[1..] == Segments(path);
  }

  /** Empty keys cannot be pointed at, wherever they stand: their segments are skipped. */
  lemma EmptyKeysAreSkipped(document: Json, path: seq<Token>)
    ensures Resolve(document, "#" + Pointer(path)) == Resolve(document, "#" + Pointer(Named(path)))
  {
    PointerReaches(document, path);
    PointerReaches(document, Named(path));
  }

  /** Tokens that fit lead to the node at the path, or nowhere if there is none. */
  lemma {:induction false} FittingTokensReach(node: Json, path: seq<Token>)
    requires Fits(node, path)
    ensures Reach(node, path).Ok? <==> NodeAt(node, path).Some?
    ensures NodeAt(node, path).Some? ==> Reach(node, path) == Ok(NodeAt(node, path).value)
  {
    if path != [] {
      FittingStep(node, path[0]);
      hide Descend, Step, Plainly;
      if Step(node, path[0]).Some? {
        FittingTokensReach(Step(node, path[0]).value, path[1..]);
      }
    }
  }

  lemma FittingStep(node: Json, t: Token)
    requires if t.Key? then node.Obj? else node.List?
    ensures Step(node, t).Some? ==> Descend(node, Plainly(t)) == Ok(Step(node, t).value)
    ensures Step(node, t).None? ==> Descend(node, Plainly(t)).Err?
  {
    hide Atoi, Digits;
    if t.Index? { AtoiDigits(t.index); }
  }

  /** The pointer to a path with named keys resolves to the node at that path, and fails if there is none. */
  lemma ResolvePointer(document: Json, path: seq<Token>)
    requires KeysNamed(path) && Fits(document, path)
    ensures Resolve(document, "#" + Pointer(path)).Ok? <==> NodeAt(document, path).Some?
    ensures NodeAt(document, path).Some? ==> Resolve(document, "#" + Pointer(path)) == Ok(NodeAt(document, path).value)
  {
    PointerReaches(document, path);
    FittingTokensReach(document, path);
  }
}
