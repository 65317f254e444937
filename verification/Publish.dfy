/**
 Publishing the diagnostics of a snapshot, and the book-keeping of which paths the client still
 shows something for (internal/lsp/diagnostics.go).
*/
module Publish {
  import opened Text

  type Path = string
  type Diagnostic = string

  /** One notification: the document version and the whole list of diagnostics of one path. */
  datatype Params = Params(version: nat, diagnostics: seq<Diagnostic>)

  /** A diagnostic whose path could be worked out, or one that is dropped. */
  datatype Located = Located(path: Path, diagnostic: Diagnostic) | Unlocated

  /** What one root reports: validation errors if it was validated, else the load error if any. */
  datatype RootReport = Validated(errors: seq<Located>) | Failed(loadError: Located) | Clean

  /** What became of a send: only a Lost one reached the client although the sender saw an error. */
  datatype Outcome = Accepted | Refused | Lost

  // ---------- grouping by path ----------

  function Errors(root: RootReport): seq<Located> {
    match root
    case Validated(errors) => errors
    case Failed(loadError) => [loadError]
    case Clean => []
  }

  function AllErrors(roots: seq<RootReport>): seq<Located> {
    if roots == [] then [] else AllErrors(roots[..|roots| - 1]) + Errors(roots[|roots| - 1])
  }

  /** The diagnostics located at the path, in order. */
  function At(errors: seq<Located>, path: Path): seq<Diagnostic> {
    if errors == [] then []
    else
      var last := errors[|errors| - 1];
      At(errors[..|errors| - 1], path) + (if last.Located? && last.path == path then [last.diagnostic] else [])
  }

  ghost predicate Groups(grouped: map<Path, seq<Diagnostic>>, errors: seq<Located>) {
    && (forall path :: path in grouped ==> grouped[path] != [])
    && (forall path :: At(errors, path) == if path in grouped then grouped[path] else [])
  }

  function DocumentVersion(documents: map<Path, int>, path: Path): (version: nat) {
    if path !in documents || documents[path] <= 0 then 0 else documents[path]
  }

  /** What a snapshot asks the client to show: for each path with a diagnostic, all of them. */
  ghost predicate Wanted(params: map<Path, Params>, roots: seq<RootReport>, documents: map<Path, int>) {
    forall path ::
      && (path in params <==> At(AllErrors(roots), path) != [])
      && (path in params ==> params[path] == Params(DocumentVersion(documents, path), At(AllErrors(roots), path)))
  }

  function AddTo(grouped: map<Path, seq<Diagnostic>>, error: Located): map<Path, seq<Diagnostic>> {
    match error
    case Unlocated => grouped
    case Located(path, diagnostic) =>
      grouped[path := (if path in grouped then grouped[path] else []) + [diagnostic]]
  }

  lemma AddToGroups(grouped: map<Path, seq<Diagnostic>>, errors: seq<Located>, error: Located)
    requires Groups(grouped, errors)
    ensures Groups(AddTo(grouped, error), errors + [error])
  {
    var all := errors + [error];
    assert all[..|all| - 1] == errors;
    forall path
      ensures At(all, path) == if path in AddTo(grouped, error) then AddTo(grouped, error)[path] else []
    {
      assert At(errors, path) == if path in grouped then grouped[path] else [];
    }
  }

  method CollectRootDiagnostics(grouped: map<Path, seq<Diagnostic>>, root: RootReport, ghost before: seq<Located>)
      returns (all: map<Path, seq<Diagnostic>>)
    requires Groups(grouped, before)
    ensures Groups(all, before + Errors(root))
  {
    hide Groups, AddTo;
    all := grouped;
    var errors := Errors(root);
    assert before + errors[..0] == before;
    for i := 0 to |errors|
      invariant Groups(all, before + errors[..i])
    {
      AddToGroups(all, before + errors[..i], errors[i]);
      assert before + errors[..i + 1] == before + errors[..i] + [errors[i]];
      all := AddTo(all, errors[i]);
    }
    assert errors[..|errors|] == errors;
  }

  /** Every diagnostic of every root appears once, under its path, and no path is empty. */
  method CollectSnapshotDiagnostics(roots: seq<RootReport>, documents: map<Path, int>)
      returns (result: map<Path, Params>)
    ensures Wanted(result, roots, documents)
  {
    var grouped: map<Path, seq<Diagnostic>> := map[];
    for i := 0 to |roots|
      invariant Groups(grouped, AllErrors(roots[..i]))
    {
      grouped := CollectRootDiagnostics(grouped, roots[i], AllErrors(roots[..i]));
      assert roots[..i + 1][..i] == roots[..i];
    }
    assert roots[..|roots|] == roots;
    result := map path | path in grouped :: Params(DocumentVersion(documents, path), grouped[path]);
  }

  // ---------- publishing ----------

  /** The last notification a client received for the path. */
  function Received(client: map<Path, Params>, path: Path): Option<Params> {
    if path in client then Some(client[path]) else None
  }

  /** What a client shows for the path. */
  function Shown(client: map<Path, Params>, path: Path): seq<Diagnostic> {
    match Received(client, path) case None => [] case Some(params) => params.diagnostics
  }

  /** The notification that clears a path. */
  function Clear(documents: map<Path, int>, path: Path): Params {
    Params(DocumentVersion(documents, path), [])
  }

  /**
   publishedPaths is the server's; client and lost are history: the last notification the client
   received for each path, and the paths of the nonempty notifications that arrived unacknowledged.
  */
  class Server {
    const transport: nat -> Outcome
    var publishedPaths: set<Path>
    var sends: nat
    ghost var client: map<Path, Params>
    ghost var lost: set<Path>

    /** No path the client shows something for is forgotten. */
    ghost predicate Valid()
      reads this
    {
      forall path :: Shown(client, path) != [] ==> path in publishedPaths || path in lost
    }

    constructor (transport: nat -> Outcome)
      ensures Valid() && publishedPaths == {} && client == map[] && lost == {}
    {
      this.transport := transport;
      publishedPaths, sends, client, lost := {}, 0, map[], {};
    }

    method Send(path: Path, params: Params) returns (ok: bool)
      modifies this`sends, this`client, this`lost
      ensures sends == old(sends) + 1 && ok == transport(old(sends)).Accepted?
      ensures forall other :: Received(client, other) ==
                if other == path && !transport(old(sends)).Refused? then Some(params) else old(Received(client, other))
      ensures lost == if transport(old(sends)).Lost? && params.diagnostics != [] then old(lost) + {path} else old(lost)
    {
      var outcome := transport(sends);
      sends := sends + 1;
      if !outcome.Refused? {
        client := client[path := params];
      }
      if outcome.Lost? && params.diagnostics != [] {
        lost := lost + {path};
      }
      ok := outcome.Accepted?;
    }

    /** Send every path's diagnostics; paths are visited in any order. */
    method SendAll(params: map<Path, Params>) returns (ok: bool)
      requires Valid()
      modifies this
      ensures Valid()
      ensures ok ==> publishedPaths == old(publishedPaths) + params.Keys
      ensures ok || (forall n :: !transport(n).Lost?) ==> lost == old(lost)
      ensures forall path :: Received(client, path) == old(Received(client, path))
                             || (path in params && Received(client, path) == Some(params[path]))
      ensures ok ==> forall path :: path in params ==> Received(client, path) == Some(params[path])
    {
      hide Received;
      var todo := params.Keys;
      while todo != {}
        invariant Valid() && lost == old(lost)
        invariant forall path :: path in todo ==> path in params
        invariant forall path :: path in publishedPaths <==>
                  path in old(publishedPaths) || (path in params && path !in todo)
        invariant forall path :: Received(client, path) ==
                    if path in params && path !in todo then Some(params[path]) else old(Received(client, path))
        decreases |todo|
      {
        var path :| path in todo;
        ok := Send(path, params[path]);
        if !ok { return false; }
        publishedPaths := publishedPaths + {path};
        todo := todo - {path};
      }
      ok := true;
    }

    /** Send an empty list for every published path that has no diagnostics any more. */
    method ClearOthers(params: map<Path, Params>, documents: map<Path, int>) returns (ok: bool)
      requires Valid() && params.Keys <= publishedPaths
      modifies this
      ensures Valid() && lost == old(lost)
      ensures ok ==> publishedPaths == params.Keys
      ensures forall path :: Received(client, path) == old(Received(client, path))
                             || (path !in params && Received(client, path) == Some(Clear(documents, path)))
      ensures ok ==> forall path :: path in old(publishedPaths) && path !in params ==>
                Received(client, path) == Some(Clear(documents, path))
    {
      hide Received, DocumentVersion;
      var todo := publishedPaths;
      while todo != {}
        invariant Valid() && lost == old(lost)
        invariant forall path :: path in publishedPaths <==> path in params || path in todo
        invariant forall path :: path in todo ==> path in old(publishedPaths)
        invariant forall path :: Received(client, path) ==
                    if path in old(publishedPaths) && path !in params && path !in todo
                    then Some(Clear(documents, path)) else old(Received(client, path))
        decreases |todo|
      {
        var path :| path in todo;
        todo := todo - {path};
        if path !in params {
          ok := Send(path, Clear(documents, path));
          if !ok { return false; }
          publishedPaths := publishedPaths - {path};
        }
      }
      ok := true;
    }

    /**
     A completed publish leaves the client showing exactly the snapshot's diagnostics, apart from
     notifications lost earlier; a stopped one leaves each path as it was, as wanted, or cleared.
     Either way no path that shows something is forgotten.
    */
    method PublishWorkspaceDiagnostics(roots: seq<RootReport>, documents: map<Path, int>) returns (ok: bool)
      requires Valid()
      modifies this
      ensures Valid()
      ensures ok || (forall n :: !transport(n).Lost?) ==> lost == old(lost)
      ensures ok ==> forall path :: path in publishedPaths <==> At(AllErrors(roots), path) != []
      ensures ok ==> forall path :: path !in lost || path in publishedPaths ==>
                Shown(client, path) == At(AllErrors(roots), path)
      ensures ok ==> forall path :: path in publishedPaths ==>
                Received(client, path) == Some(Params(DocumentVersion(documents, path), At(AllErrors(roots), path)))
      ensures forall path ::
                || Shown(client, path) == old(Shown(client, path))
                || Shown(client, path) == At(AllErrors(roots), path)
                || Shown(client, path) == []
    {
      var params := CollectSnapshotDiagnostics(roots, documents);
      ok := SendAll(params);
      if ok {
        ok := ClearOthers(params, documents);
      }
    }
  }

  // ---------- what a snapshot says, report by report ----------

  /** Every root shows its validation errors or, if it could not be loaded, the load error; roots follow one another. */
  lemma {:induction false} ReportsExactly(a: seq<RootReport>, b: seq<RootReport>, errors: seq<Located>,
                                          loadError: Located)
    ensures AllErrors([]) == [] && AllErrors([Clean]) == []
    ensures AllErrors([Validated(errors)]) == errors && AllErrors([Failed(loadError)]) == [loadError]
    ensures AllErrors(a + b) == AllErrors(a) + AllErrors(b)
  {
    OneReport(Clean);
    OneReport(Validated(errors));
    OneReport(Failed(loadError));
    ReportsFollow(a, b);
  }

  lemma {:induction false} ReportsFollow(a: seq<RootReport>, b: seq<RootReport>)
    ensures AllErrors(a + b) == AllErrors(a) + AllErrors(b)
    decreases |b|
  {
    if b == [] {
      assert a + b == a;
    } else {
      ReportsFollow(a, b[..|b| - 1]);
      hide Errors;
      assert (a + b)[..|a + b| - 1] == a + b[..|b| - 1];
    }
  }

  lemma OneReport(root: RootReport)
    ensures AllErrors([root]) == match root
                                 case Validated(errors) => errors
                                 case Failed(loadError) => [loadError]
                                 case Clean => []
  {
    assert [root][..0] == [] && AllErrors([]) == [];
  }

  /**
   A path shows the diagnostics located there, in order, and a document's version is its own unless it is
   negative or unknown.
  */
  lemma {:induction false} DiagnosticsExactly(x: seq<Located>, y: seq<Located>, path: Path, other: Path, d: Diagnostic)
    ensures At([], path) == [] && At([Unlocated], path) == []
    ensures At([Located(path, d)], path) == [d] && (other != path ==> At([Located(other, d)], path) == [])
    ensures At(x + y, path) == At(x, path) + At(y, path)
    decreases |y|
  {
    assert [Unlocated][..0] == [] && [Located(path, d)][..0] == [] && [Located(other, d)][..0] == [];
    if y == [] {
      assert x + y == x;
    } else {
      DiagnosticsExactly(x, y[..|y| - 1], path, other, d);
      assert (x + y)[..|x + y| - 1] == x + y[..|y| - 1];
    }
  }

  /** The version sent with a path is that of the open document, and nothing below zero. */
  lemma VersionExactly(documents: map<Path, int>, path: Path)
    ensures path !in documents ==> DocumentVersion(documents, path) == 0
    ensures path in documents && documents[path] >= 0 ==> DocumentVersion(documents, path) == documents[path]
    ensures path in documents && documents[path] < 0 ==> DocumentVersion(documents, path) == 0
    ensures Clear(documents, path) == Params(DocumentVersion(documents, path), [])
  {
  }
}
