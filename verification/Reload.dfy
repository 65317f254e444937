/**
 The debounced reload of open documents and the diagnostics that follow it, as interleaved
 steps: each step is one section of the program that runs under a lock, or one publish
 (internal/workspace/overlays.go, internal/lsp/diagnostics.go).
*/
module Reload {
  import opened Text

  type Path = string

  /** Open buffers: path to text. */
  type Docs = map<Path, string>

  /** What loading and validating one root yields. */
  datatype Report = Report(text: string)

  type Roots = map<string, Report>

  /** The nonempty diagnostics a client shows, by path. */
  type Diags = map<Path, seq<string>>

  /** What the protocol does not decide: the roots, their evaluation, and the diagnostics of a snapshot. */
  datatype World = World(
    base: set<string>,
    initial: Roots,
    eval: (string, Docs) -> Report,
    diag: (Roots, Docs) -> Diags)

  function Evaluate(w: World, docs: Docs): Roots {
    map root | root in w.base :: w.eval(root, docs)
  }

  // ---------- the state ----------

  /** Where one run of reload is: capture, compute, install, then the hook's snapshot and publish. */
  datatype Task =
    | Started
    | Computing(docs: Docs, number: nat)
    | Hooking
    | Holding(roots: Roots, docs: Docs, shot: Shot)

  /** A snapshot: how many installs it has seen, and which version of the documents. */
  datatype Shot = Shot(position: nat, version: nat)

  /**
   The first five fields are the program's; the others are history. versions lists every state
   of the documents, captures the version each capture took, installs the capture each install
   came from.
  */
  datatype State = State(
    documents: Docs, armed: bool, roots: Roots, client: Diags, tasks: map<nat, Task>,
    versions: seq<Docs>, captures: seq<nat>, installs: seq<nat>, shown: Option<Shot>)

  function Last<T>(xs: seq<T>): T
    requires xs != []
  {
    xs[|xs| - 1]
  }

  function Init(w: World): State {
    State(map[], false, w.initial, map[], map[], [map[]], [0], [], None)
  }

  // ---------- the steps ----------

  datatype Step =
    | Edit(docs: Docs)            // open, change or close, then re-arm the timer
    | Fire(id: nat)               // the timer goes off and starts a reload
    | Flush(id: nat)              // the timer is stopped and a reload is started
    | Capture(id: nat)            // copy the documents
    | Install(id: nat)            // store the computed roots
    | Snapshot(id: nat)           // the hook copies roots and documents
    | Publish(id: nat)            // the hook sends its diagnostics

  predicate Enabled(s: State, step: Step) {
    match step
    case Edit(_) => true
    case Fire(id) => s.armed && id !in s.tasks
    case Flush(id) => id !in s.tasks
    case Capture(id) => id in s.tasks && s.tasks[id].Started?
    case Install(id) => id in s.tasks && s.tasks[id].Computing?
    case Snapshot(id) => id in s.tasks && s.tasks[id].Hooking?
    case Publish(id) => id in s.tasks && s.tasks[id].Holding?
  }

  function Next(w: World, s: State, step: Step): State
    requires Enabled(s, step)
  {
    match step
    case Edit(docs) => s.(documents := docs, armed := true, versions := s.versions + [docs])
    case Fire(id) => s.(armed := false, tasks := s.tasks[id := Started])
    case Flush(id) => s.(armed := false, tasks := s.tasks[id := Started])
    case Capture(id) =>
      s.(tasks := s.tasks[id := Computing(s.documents, |s.captures|)],
         captures := s.captures + [if s.versions == [] then 0 else |s.versions| - 1])
    case Install(id) =>
      s.(roots := s.roots + Evaluate(w, s.tasks[id].docs),
         tasks := s.tasks[id := Hooking],
         installs := s.installs + [s.tasks[id].number])
    case Snapshot(id) =>
      s.(tasks := s.tasks[id := Holding(s.roots, s.documents,
                                        Shot(|s.installs|, if s.versions == [] then 0 else |s.versions| - 1))])
    case Publish(id) =>
      s.(client := w.diag(s.tasks[id].roots, s.tasks[id].docs),
         tasks := s.tasks - {id},
         shown := Some(s.tasks[id].shot))
  }

  /** A run: each state follows from the one before by an enabled step. */
  ghost predicate IsRun(w: World, states: seq<State>, steps: seq<Step>) {
    && |states| == |steps| + 1
    && states[0] == Init(w)
    && forall i :: 0 <= i < |steps| ==> Enabled(states[i], steps[i]) && states[i + 1] == Next(w, states[i], steps[i])
  }

  // ---------- what every state keeps ----------

  /** The roots after the first n installs. */
  ghost function RootsAt(w: World, s: State, n: nat): Roots
    requires n <= |s.installs| && ValidHistory(s)
  {
    if n == 0 then w.initial else Evaluate(w, s.versions[s.captures[s.installs[n - 1]]])
  }

  ghost predicate ValidHistory(s: State) {
    && s.versions != [] && s.captures != []
    && (forall n :: 0 <= n < |s.captures| ==> s.captures[n] < |s.versions|)
    && (forall k :: 0 <= k < |s.installs| ==> 0 < s.installs[k] < |s.captures|)
  }

  ghost predicate ValidShot(s: State, shot: Shot)
    requires ValidHistory(s)
  {
    && shot.position <= |s.installs| && shot.version < |s.versions|
    && (shot.position > 0 ==> s.captures[s.installs[shot.position - 1]] <= shot.version)
  }

  ghost predicate ValidTask(w: World, s: State, t: Task)
    requires ValidHistory(s)
  {
    match t
    case Started => true
    case Computing(docs, number) => 0 < number < |s.captures| && docs == s.versions[s.captures[number]]
    case Hooking => s.installs != []
    case Holding(roots, docs, shot) =>
      ValidShot(s, shot) && roots == RootsAt(w, s, shot.position) && docs == s.versions[shot.version]
  }

  /** An edit is on its way: the timer will fire, or a started reload has yet to look. */
  ghost predicate Pending(s: State) {
    s.armed || exists id :: id in s.tasks && s.tasks[id].Started?
  }

  /** No edit is lost: one is on its way, or the newest capture has seen the current documents. */
  ghost predicate NoEditLost(s: State)
    requires ValidHistory(s)
  {
    Pending(s) || Last(s.captures) == |s.versions| - 1
  }

  ghost predicate Inv(w: World, s: State) {
    && ValidHistory(s)
    && s.documents == Last(s.versions)
    && w.initial.Keys == w.base
    && s.roots == RootsAt(w, s, |s.installs|)
    && (forall id :: id in s.tasks ==> ValidTask(w, s, s.tasks[id]))
    && NoEditLost(s)
    && (s.shown.Some? ==> ValidShot(s, s.shown.value)
                          && s.client == w.diag(RootsAt(w, s, s.shown.value.position),
                                                s.versions[s.shown.value.version]))
  }

  lemma InitInv(w: World)
    requires w.initial.Keys == w.base
    ensures Inv(w, Init(w))
  {
  }

  /** History only grows, so what was valid stays valid. */
  ghost predicate Later(s: State, t: State) {
    s.versions <= t.versions && s.captures <= t.captures && s.installs <= t.installs
  }

  lemma TaskStaysValid(w: World, s: State, t: State, task: Task)
    requires ValidHistory(s) && ValidHistory(t) && Later(s, t) && ValidTask(w, s, task)
    ensures ValidTask(w, t, task)
  {
  }

  lemma RootsStay(w: World, s: State, t: State, n: nat)
    requires ValidHistory(s) && ValidHistory(t) && Later(s, t) && n <= |s.installs|
    ensures RootsAt(w, t, n) == RootsAt(w, s, n)
  {
  }

  lemma NextInv(w: World, s: State, step: Step)
    requires Inv(w, s) && Enabled(s, step)
    ensures Inv(w, Next(w, s, step))
  {
    hide NoEditLost, Pending, Evaluate;
    var t := Next(w, s, step);
    assert ValidHistory(t) && Later(s, t);
    RootsStay(w, s, t, |s.installs|);
    forall id | id in t.tasks ensures ValidTask(w, t, t.tasks[id]) {
      if id in s.tasks && t.tasks[id] == s.tasks[id] {
        TaskStaysValid(w, s, t, s.tasks[id]);
      }
    }
    NextKeepsEdits(w, s, step);
    NextRoots(w, s, step);
    NextShown(w, s, step);
  }

  lemma NextRoots(w: World, s: State, step: Step)
    requires Inv(w, s) && Enabled(s, step)
    ensures var t := Next(w, s, step); ValidHistory(t) && t.roots == RootsAt(w, t, |t.installs|)
  {
    var t := Next(w, s, step);
    if step.Install? {
      var docs := s.tasks[step.id].docs;
      assert ValidTask(w, s, s.tasks[step.id]);
      assert s.roots.Keys == w.base && Evaluate(w, docs).Keys == w.base;
      assert t.roots == Evaluate(w, docs);
    } else {
      RootsStay(w, s, t, |s.installs|);
    }
  }

  lemma NextKeepsEdits(w: World, s: State, step: Step)
    requires Inv(w, s) && Enabled(s, step)
    ensures var t := Next(w, s, step); ValidHistory(t) && NoEditLost(t)
  {
    var t := Next(w, s, step);
    if step.Fire? || step.Flush? {
      assert t.tasks[step.id].Started?;
    } else if !step.Capture? && exists id :: id in s.tasks && s.tasks[id].Started? {
      var id :| id in s.tasks && s.tasks[id].Started?;
      assert id in t.tasks && t.tasks[id].Started?;
    }
  }

  lemma NextShown(w: World, s: State, step: Step)
    requires Inv(w, s) && Enabled(s, step)
    ensures var t := Next(w, s, step);
            ValidHistory(t) &&
            (t.shown.Some? ==> ValidShot(t, t.shown.value)
                               && t.client == w.diag(RootsAt(w, t, t.shown.value.position),
                                                     t.versions[t.shown.value.version]))
  {
    hide NoEditLost, Pending, Evaluate;
    var t := Next(w, s, step);
    if step.Publish? {
      assert ValidTask(w, s, s.tasks[step.id]);
    }
    if t.shown.Some? {
      RootsStay(w, s, t, t.shown.value.position);
    }
  }

  /** Every state of every run, however edits, timers, flushes and reloads interleave. */
  lemma {:induction false} RunInv(w: World, states: seq<State>, steps: seq<Step>, i: nat)
    requires w.initial.Keys == w.base && IsRun(w, states, steps) && i <= |steps|
    ensures Inv(w, states[i])
    decreases i
  {
    if i == 0 {
      InitInv(w);
    } else {
      RunInv(w, states, steps, i - 1);
      NextInv(w, states[i - 1], steps[i - 1]);
    }
  }

  // ---------- quiet states ----------

  ghost predicate Quiescent(s: State) {
    !s.armed && s.tasks == map[]
  }

  /** In every quiet state the newest capture took the current documents, and all roots come from one capture. */
  lemma QuietStates(w: World, states: seq<State>, steps: seq<Step>, i: nat)
    requires w.initial.Keys == w.base && IsRun(w, states, steps) && i <= |steps|
    ensures ValidHistory(states[i]) && states[i].roots == RootsAt(w, states[i], |states[i].installs|)
    ensures Quiescent(states[i]) ==> states[i].versions[Last(states[i].captures)] == states[i].documents
  {
    RunInv(w, states, steps, i);
  }

  /** This install comes from a later capture than the one before. */
  ghost predicate InstallInOrder(s: State, step: Step)
    requires Enabled(s, step)
  {
    step.Install? && s.installs != [] ==> Last(s.installs) < s.tasks[step.id].number
  }

  /** This publish shows a snapshot that is no older than the one shown. */
  ghost predicate PublishInOrder(s: State, step: Step)
    requires Enabled(s, step)
  {
    step.Publish? && s.shown.Some? ==>
      s.shown.value.position <= s.tasks[step.id].shot.position && s.shown.value.version <= s.tasks[step.id].shot.version
  }

  ghost predicate InstallsInOrder(states: seq<State>, steps: seq<Step>)
    requires |states| == |steps| + 1 && forall i :: 0 <= i < |steps| ==> Enabled(states[i], steps[i])
  {
    forall i :: 0 <= i < |steps| ==> InstallInOrder(states[i], steps[i])
  }

  ghost predicate PublishesInOrder(states: seq<State>, steps: seq<Step>)
    requires |states| == |steps| + 1 && forall i :: 0 <= i < |steps| ==> Enabled(states[i], steps[i])
  {
    forall i :: 0 <= i < |steps| ==> PublishInOrder(states[i], steps[i])
  }

  /** Every capture is still being computed, or has been installed. */
  ghost predicate CapturesAccounted(s: State) {
    forall n :: 0 < n < |s.captures| ==> CaptureAccounted(s, n)
  }

  ghost predicate CaptureAccounted(s: State, n: nat) {
    n in s.installs || exists id :: ComputesCapture(s, id, n)
  }

  ghost predicate ComputesCapture(s: State, id: nat, n: nat) {
    id in s.tasks && s.tasks[id].Computing? && s.tasks[id].number == n
  }

  /** The last install has been shown, or a hook that will see it is still running. */
  ghost predicate InstallAccounted(s: State) {
    || s.installs == []
    || (s.shown.Some? && s.shown.value.position == |s.installs|)
    || exists id :: WillShowAll(s, id)
  }

  ghost predicate WillShowAll(s: State, id: nat) {
    id in s.tasks && (s.tasks[id].Hooking? || (s.tasks[id].Holding? && s.tasks[id].shot.position == |s.installs|))
  }

  lemma CapturesStayAccounted(w: World, s: State, step: Step)
    requires CapturesAccounted(s) && Enabled(s, step)
    ensures CapturesAccounted(Next(w, s, step))
  {
    var t := Next(w, s, step);
    forall n | 0 < n < |t.captures| ensures CaptureAccounted(t, n) {
      if n == |s.captures| {
        assert ComputesCapture(t, step.id, n);
      } else {
        assert CaptureAccounted(s, n);
        if n in s.installs {
          assert n in t.installs;
        } else {
          var id :| ComputesCapture(s, id, n);
          assert (step.Install? && step.id == id && t.installs[|s.installs|] == n) || ComputesCapture(t, id, n);
        }
      }
    }
  }

  ghost predicate Increasing(xs: seq<nat>) {
    forall j, k :: 0 <= j < k < |xs| ==> xs[j] < xs[k]
  }

  lemma InstallStaysAccounted(w: World, s: State, step: Step)
    requires Inv(w, s) && InstallAccounted(s) && Enabled(s, step) && PublishInOrder(s, step)
    ensures InstallAccounted(Next(w, s, step))
  {
    var t := Next(w, s, step);
    if step.Install? || step.Snapshot? {
      assert WillShowAll(t, step.id);
    } else if exists id :: WillShowAll(s, id) {
      var id :| WillShowAll(s, id);
      assert (step.Publish? && step.id == id) || WillShowAll(t, id);
    } else if step.Publish? {
      assert ValidTask(w, s, s.tasks[step.id]);
    }
  }

  /** After an install something has been shown, or its hook is on the way. */
  ghost predicate ShownOrComing(s: State) {
    s.installs == [] || s.shown.Some? || exists id :: IsHook(s, id)
  }

  ghost predicate IsHook(s: State, id: nat) {
    id in s.tasks && (s.tasks[id].Hooking? || s.tasks[id].Holding?)
  }

  lemma ShownStaysComing(w: World, s: State, step: Step)
    requires ShownOrComing(s) && Enabled(s, step)
    ensures ShownOrComing(Next(w, s, step))
  {
    var t := Next(w, s, step);
    if step.Install? || step.Snapshot? {
      assert IsHook(t, step.id);
    } else if exists id :: IsHook(s, id) {
      var id :| IsHook(s, id);
      assert step.Publish? || IsHook(t, id);
    }
  }

  lemma {:induction false} RunShown(w: World, states: seq<State>, steps: seq<Step>, i: nat)
    requires IsRun(w, states, steps) && i <= |steps|
    ensures ShownOrComing(states[i])
    decreases i
  {
    if i > 0 {
      RunShown(w, states, steps, i - 1);
      ShownStaysComing(w, states[i - 1], steps[i - 1]);
    }
  }

  lemma {:induction false} RunAccounted(w: World, states: seq<State>, steps: seq<Step>, i: nat)
    requires w.initial.Keys == w.base && IsRun(w, states, steps) && i <= |steps|
    ensures CapturesAccounted(states[i])
    ensures InstallsInOrder(states, steps) ==> Increasing(states[i].installs)
    ensures PublishesInOrder(states, steps) ==> InstallAccounted(states[i])
    decreases i
  {
    if i > 0 {
      RunInv(w, states, steps, i - 1);
      RunAccounted(w, states, steps, i - 1);
      CapturesStayAccounted(w, states[i - 1], steps[i - 1]);
      if InstallsInOrder(states, steps) {
        assert InstallInOrder(states[i - 1], steps[i - 1]);
      }
      if PublishesInOrder(states, steps) {
        InstallStaysAccounted(w, states[i - 1], steps[i - 1]);
      }
    }
  }

  /**
   In a quiet program every capture has been installed, and the roots evaluate the one installed last: they
   are current exactly when it took the last version, if captures of older versions evaluate differently.
  */
  lemma QuietRootsExactly(w: World, states: seq<State>, steps: seq<Step>, i: nat)
    requires w.initial.Keys == w.base && IsRun(w, states, steps) && i <= |steps|
    requires Quiescent(states[i]) && |states[i].captures| > 1
    ensures var s := states[i];
            && ValidHistory(s) && s.installs != []
            && s.roots == Evaluate(w, s.versions[s.captures[Last(s.installs)]])
            && s.roots.Keys == w.base
            && (forall root :: root in w.base ==>
                  s.roots[root] == w.eval(root, s.versions[s.captures[Last(s.installs)]]))
            && Last(s.captures) == |s.versions| - 1
            && (s.captures[Last(s.installs)] == |s.versions| - 1 ==> s.roots == Evaluate(w, s.documents))
            && ((forall n :: 0 < n < |s.captures| && s.captures[n] != |s.versions| - 1 ==>
                   Evaluate(w, s.versions[s.captures[n]]) != Evaluate(w, s.documents))
                ==> (s.roots == Evaluate(w, s.documents) <==> s.captures[Last(s.installs)] == |s.versions| - 1))
  {
    RunInv(w, states, steps, i);
    RunAccounted(w, states, steps, i);
    var s := states[i];
    assert CaptureAccounted(s, |s.captures| - 1);
  }

  /**
   With reloads installed in the order of their captures, a quiet program holds the evaluation of the current
   documents.
  */
  lemma QuietRootsAreCurrent(w: World, states: seq<State>, steps: seq<Step>, i: nat)
    requires w.initial.Keys == w.base && IsRun(w, states, steps) && i <= |steps|
    requires InstallsInOrder(states, steps) && Quiescent(states[i])
    ensures var s := states[i];
            && s.roots == (if |s.captures| == 1 then w.initial else Evaluate(w, s.documents))
            && s.roots.Keys == w.base
            && (|s.captures| > 1 ==> forall root :: root in w.base ==> s.roots[root] == w.eval(root, s.documents))
            && (|s.captures| > 1 ==> s.installs != [] && Last(s.installs) == |s.captures| - 1)
  {
    RunInv(w, states, steps, i);
    RunAccounted(w, states, steps, i);
    var s := states[i];
    if |s.captures| > 1 {
      assert CaptureAccounted(s, |s.captures| - 1);
    }
  }

  /** With publishes in order as well, the client shows the diagnostics of the current documents. */
  lemma QuietClientIsCurrent(w: World, states: seq<State>, steps: seq<Step>, i: nat)
    requires w.initial.Keys == w.base && IsRun(w, states, steps) && i <= |steps|
    requires InstallsInOrder(states, steps) && PublishesInOrder(states, steps) && Quiescent(states[i])
    ensures var s := states[i];
            |s.captures| > 1 ==>
              && s.client == w.diag(Evaluate(w, s.documents), s.documents) == w.diag(s.roots, s.documents)
              && s.roots.Keys == w.base && forall root :: root in w.base ==> s.roots[root] == w.eval(root, s.documents)
  {
    RunInv(w, states, steps, i);
    RunAccounted(w, states, steps, i);
    QuietRootsAreCurrent(w, states, steps, i);
    var s := states[i];
    if |s.captures| > 1 {
      var k := |s.installs| - 1;
      assert s.installs[k] == |s.captures| - 1 && s.captures[s.installs[k]] == |s.versions| - 1;
      assert s.shown.value.position == |s.installs| && s.shown.value.version == |s.versions| - 1;
    }
  }

  /**
   The snapshot comes right after the install of a capture of the last version, and has that version of the
   documents.
  */
  ghost predicate IsLatest(s: State, shot: Shot)
    requires ValidHistory(s)
  {
    && 0 < shot.position <= |s.installs| && s.captures[s.installs[shot.position - 1]] == |s.versions| - 1
    && shot.version == |s.versions| - 1
  }

  /** What a client shows after a publish of the snapshot. */
  ghost function Showing(w: World, s: State, shot: Shot): Diags
    requires ValidHistory(s) && ValidShot(s, shot)
  {
    w.diag(RootsAt(w, s, shot.position), s.versions[shot.version])
  }

  /**
   In a quiet program that has reloaded, the client shows the snapshot published last: it is current exactly
   when that snapshot has the last version throughout, if those with older versions show something else.
  */
  lemma QuietClientExactly(w: World, states: seq<State>, steps: seq<Step>, i: nat)
    requires w.initial.Keys == w.base && IsRun(w, states, steps) && i <= |steps|
    requires Quiescent(states[i]) && |states[i].captures| > 1
    ensures var s := states[i];
            var current := w.diag(Evaluate(w, s.documents), s.documents);
            && ValidHistory(s) && s.shown.Some? && ValidShot(s, s.shown.value)
            && s.client == Showing(w, s, s.shown.value)
            && (IsLatest(s, s.shown.value) ==> s.client == current)
            && ((forall shot :: ValidShot(s, shot) && !IsLatest(s, shot) ==> Showing(w, s, shot) != current)
                ==> (s.client == current <==> IsLatest(s, s.shown.value)))
  {
    RunInv(w, states, steps, i);
    RunAccounted(w, states, steps, i);
    RunShown(w, states, steps, i);
    var s := states[i];
    assert CaptureAccounted(s, |s.captures| - 1);
    LatestShowsCurrent(w, s, s.shown.value);
  }

  lemma LatestShowsCurrent(w: World, s: State, shot: Shot)
    requires ValidHistory(s) && ValidShot(s, shot) && s.documents == Last(s.versions)
    ensures IsLatest(s, shot) ==> Showing(w, s, shot) == w.diag(Evaluate(w, s.documents), s.documents)
  {
  }

  // ---------- a condition the program could enforce ----------

  /** A reload starts only when no other is on its way. */
  ghost predicate OneAtATime(states: seq<State>, steps: seq<Step>)
    requires |states| == |steps| + 1
  {
    forall i :: 0 <= i < |steps| && (steps[i].Fire? || steps[i].Flush?) ==> states[i].tasks == map[]
  }

  ghost predicate Alone(s: State) {
    && (forall id, other :: id in s.tasks && other in s.tasks ==> id == other)
    && (forall id :: id in s.tasks ==> AloneTask(s, s.tasks[id]))
    && (forall k :: 0 <= k < |s.installs| ==> s.installs[k] < |s.captures|)
    && (s.shown.Some? ==> s.shown.value.position <= |s.installs| && s.shown.value.version < |s.versions|)
  }

  ghost predicate AloneTask(s: State, t: Task) {
    match t
    case Started => true
    case Computing(_, number) => number == |s.captures| - 1
        && forall k :: 0 <= k < |s.installs| ==> s.installs[k] < number
    case Hooking => true
    case Holding(_, _, shot) =>
      s.shown.Some? ==> s.shown.value.position <= shot.position && s.shown.value.version <= shot.version
  }

  lemma AloneStays(w: World, s: State, step: Step)
    requires Inv(w, s) && Alone(s) && Enabled(s, step) && (step.Fire? || step.Flush? ==> s.tasks == map[])
    ensures Alone(Next(w, s, step)) && InstallInOrder(s, step) && PublishInOrder(s, step)
  {
    hide NoEditLost, Pending, Evaluate, RootsAt;
    var t := Next(w, s, step);
    if !step.Edit? && step.id in s.tasks {
      assert AloneTask(s, s.tasks[step.id]) && ValidTask(w, s, s.tasks[step.id]);
    }
    forall id | id in t.tasks ensures AloneTask(t, t.tasks[id]) {
      if id in s.tasks { assert AloneTask(s, s.tasks[id]); }
    }
  }

  lemma {:induction false} RunAlone(w: World, states: seq<State>, steps: seq<Step>, i: nat)
    requires w.initial.Keys == w.base && IsRun(w, states, steps) && i <= |steps| && OneAtATime(states, steps)
    ensures Alone(states[i])
    ensures forall k :: 0 <= k < i ==> InstallInOrder(states[k], steps[k]) && PublishInOrder(states[k], steps[k])
    decreases i
  {
    if i > 0 {
      RunInv(w, states, steps, i - 1);
      RunAlone(w, states, steps, i - 1);
      AloneStays(w, states[i - 1], steps[i - 1]);
    }
  }

  /** Reloads that never overlap leave nothing stale once all is quiet. */
  lemma OneAtATimeIsCurrent(w: World, states: seq<State>, steps: seq<Step>, i: nat)
    requires w.initial.Keys == w.base && IsRun(w, states, steps) && i <= |steps|
    requires OneAtATime(states, steps) && Quiescent(states[i]) && |states[i].captures| > 1
    ensures var s := states[i];
            && s.roots == Evaluate(w, s.documents) && s.client == w.diag(s.roots, s.documents)
            && s.roots.Keys == w.base && forall root :: root in w.base ==> s.roots[root] == w.eval(root, s.documents)
  {
    RunAlone(w, states, steps, |steps|);
    QuietRootsAreCurrent(w, states, steps, i);
    QuietClientIsCurrent(w, states, steps, i);
  }

  // ---------- overlapping reloads ----------

  ghost predicate Reachable(w: World, s: State) {
    exists states, steps :: IsRun(w, states, steps) && Last(states) == s
  }

  lemma Start(w: World)
    ensures Reachable(w, Init(w))
  {
    assert IsRun(w, [Init(w)], []);
  }

  /** The state after one more step. */
  lemma Then(w: World, s: State, step: Step) returns (t: State)
    requires Reachable(w, s) && Enabled(s, step)
    ensures t == Next(w, s, step) && Reachable(w, t)
  {
    t := Next(w, s, step);
    var states, steps :| IsRun(w, states, steps) && Last(states) == s;
    var longer := states + [t];
    assert IsRun(w, longer, steps + [step]);
    assert Last(longer) == t;
  }

  lemma InstallReplaces(w: World, roots: Roots, docs: Docs)
    requires roots.Keys == w.base
    ensures roots + Evaluate(w, docs) == Evaluate(w, docs) && Evaluate(w, docs).Keys == w.base
  {
    var all := Evaluate(w, docs);
    assert all.Keys == w.base;
    assert roots + all == all;
  }

  /** An edit, the timer, and the reload it starts looks at the documents. */
  lemma EditAndCapture(w: World, s: State, docs: Docs, id: nat) returns (t: State)
    requires Reachable(w, s) && id !in s.tasks && s.versions != []
    ensures Reachable(w, t)
    ensures t == s.(documents := docs, armed := false, versions := s.versions + [docs],
                    captures := s.captures + [|s.versions|],
                    tasks := s.tasks[id := Computing(docs, |s.captures|)])
  {
    hide Reachable, Evaluate;
    t := Then(w, s, Edit(docs));
    t := Then(w, t, Fire(id));
    t := Then(w, t, Capture(id));
    assert s.tasks[id := Started][id := Computing(docs, |s.captures|)] == s.tasks[id := Computing(docs, |s.captures|)];
  }

  /** A reload installs what it computed, and its hook looks. */
  lemma InstallAndLook(w: World, s: State, docs: Docs, id: nat) returns (t: State)
    requires Reachable(w, s) && id in s.tasks && s.tasks[id].Computing? && s.tasks[id].docs == docs
    requires s.roots.Keys == w.base && s.versions != []
    ensures Reachable(w, t) && Evaluate(w, docs).Keys == w.base
    ensures t == s.(roots := Evaluate(w, docs), installs := s.installs + [s.tasks[id].number],
                    tasks := s.tasks[id := Holding(Evaluate(w, docs), s.documents,
                                                   Shot(|s.installs| + 1, |s.versions| - 1))])
  {
    hide Reachable, Evaluate;
    InstallReplaces(w, s.roots, docs);
    t := Then(w, s, Install(id));
    t := Then(w, t, Snapshot(id));
    var held := Holding(Evaluate(w, docs), s.documents, Shot(|s.installs| + 1, |s.versions| - 1));
    assert s.tasks[id := Hooking][id := held] == s.tasks[id := held];
  }

  /** A reload that looked first but installs last leaves the program quiet with stale roots and diagnostics. */
  lemma LateInstallIsStale(w: World, a: Docs, b: Docs) returns (s: State)
    requires w.initial.Keys == w.base && Evaluate(w, a) != Evaluate(w, b)
    ensures Reachable(w, s) && Quiescent(s) && s.documents == b
    ensures s.roots == Evaluate(w, a) != Evaluate(w, s.documents)
    ensures s.client == w.diag(Evaluate(w, a), b)
  {
    hide Reachable, Evaluate;
    Start(w);
    s := EditAndCapture(w, Init(w), a, 0);
    s := EditAndCapture(w, s, b, 1);
    s := InstallAndLook(w, s, b, 1);
    s := Then(w, s, Publish(1));
    s := InstallAndLook(w, s, a, 0);
    s := Then(w, s, Publish(0));
  }

  /** Installs in order do not suffice for the client: an older snapshot may be published last. */
  lemma LatePublishIsStale(w: World, a: Docs, b: Docs) returns (s: State)
    requires w.initial.Keys == w.base
    ensures Reachable(w, s) && Quiescent(s) && s.documents == b && Increasing(s.installs)
    ensures s.roots == Evaluate(w, b) && s.client == w.diag(Evaluate(w, a), a)
  {
    hide Reachable, Evaluate;
    Start(w);
    s := EditAndCapture(w, Init(w), a, 0);
    s := InstallAndLook(w, s, a, 0);
    s := EditAndCapture(w, s, b, 1);
    s := InstallAndLook(w, s, b, 1);
    s := Then(w, s, Publish(1));
    s := Then(w, s, Publish(0));
  }

  // ---------- the program ----------

  /**
   The runtime's fields, with one method for each section that runs under its lock. Every method
   moves the history by steps of the protocol, so every run of them is a run of the protocol.
  */
  class Runtime {
    const world: World
    var documents: Docs
    var roots: Roots
    var timer: bool
    ghost var state: State

    ghost predicate Valid()
      reads this
    {
      Inv(world, state) && documents == state.documents && roots == state.roots && timer == state.armed
    }

    constructor (w: World)
      requires w.initial.Keys == w.base
      ensures Valid() && world == w && state == Init(w)
      ensures documents == map[] && roots == w.initial && !timer
    {
      world := w;
      documents := map[];
      roots := w.initial;
      timer := false;
      state := Init(w);
      new;
      InitInv(w);
    }

    ghost method Move(step: Step)
      requires Inv(world, state) && Enabled(state, step)
      modifies this`state
      ensures state == Next(world, old(state), step) && Inv(world, state)
    {
      NextInv(world, state, step);
      state := Next(world, state, step);
    }

    /** Stop the timer that is set, and set it anew. */
    method ScheduleReload()
      modifies this`timer
      ensures timer
    {
      timer := true;
    }

    method DidOpen(path: Path, text: string)
      requires Valid()
      modifies this
      ensures Valid() && timer && documents == old(documents)[path := text]
      ensures state == Next(world, old(state), Edit(documents))
    {
      documents := documents[path := text];
      ScheduleReload();
      Move(Edit(documents));
    }

    /** A change to a document that is not open is refused and changes nothing. */
    method DidChange(path: Path, text: string) returns (ok: bool)
      requires Valid()
      modifies this
      ensures Valid() && ok == (path in old(documents))
      ensures ok ==> timer && documents == old(documents)[path := text]
                     && state == Next(world, old(state), Edit(documents))
      ensures !ok ==> state == old(state) && timer == old(timer) && documents == old(documents) && roots == old(roots)
    {
      if path !in documents {
        return false;
      }
      documents := documents[path := text];
      ScheduleReload();
      Move(Edit(documents));
      return true;
    }

    method DidClose(path: Path)
      requires Valid()
      modifies this
      ensures Valid() && timer && documents == old(documents) - {path}
      ensures state == Next(world, old(state), Edit(documents))
    {
      documents := documents - {path};
      ScheduleReload();
      Move(Edit(documents));
    }

    /** The timer goes off: a reload is under way. */
    method TimerFires(ghost id: nat)
      requires Valid() && timer && id !in state.tasks
      modifies this
      ensures Valid() && state == Next(world, old(state), Fire(id))
    {
      timer := false;
      Move(Fire(id));
    }

    /** The first section of FlushReload. */
    method StopTimer(ghost id: nat)
      requires Valid() && id !in state.tasks
      modifies this
      ensures Valid() && state == Next(world, old(state), Flush(id))
    {
      if timer {
        timer := false;
      }
      Move(Flush(id));
    }

    /** The first section of reload. */
    method CaptureDocuments(ghost id: nat) returns (docs: Docs)
      requires Valid() && Enabled(state, Capture(id))
      modifies this`state
      ensures Valid() && docs == documents && state == Next(world, old(state), Capture(id))
    {
      docs := documents;
      Move(Capture(id));
    }

    /** The unlocked part of reload: load and validate every root against the captured documents. */
    method ComputeRoots(docs: Docs) returns (next: Roots)
      ensures next == Evaluate(world, docs)
      ensures next.Keys == world.base && forall root :: root in world.base ==> next[root] == world.eval(root, docs)
    {
      next := map[];
      var todo := world.base;
      while todo != {}
        invariant todo <= world.base && next.Keys == world.base - todo
        invariant forall root :: root in next ==> next[root] == world.eval(root, docs)
        decreases |todo|
      {
        var root :| root in todo;
        next := next[root := world.eval(root, docs)];
        todo := todo - {root};
      }
    }

    method StoreRoots(next: Roots)
      modifies this`roots
      ensures roots == old(roots) + next
    {
      var todo := next.Keys;
      while todo != {}
        invariant todo <= next.Keys
        invariant roots.Keys == old(roots).Keys + (next.Keys - todo)
        invariant forall root :: root in roots ==>
          roots[root] == if root in next && root !in todo then next[root] else old(roots)[root]
        decreases |todo|
      {
        var root :| root in todo;
        roots := roots[root := next[root]];
        todo := todo - {root};
      }
    }

    /** The last section of reload: the computed roots replace those stored under the same names. */
    method InstallRoots(ghost id: nat, next: Roots)
      requires Valid() && Enabled(state, Install(id)) && next == Evaluate(world, state.tasks[id].docs)
      modifies this
      ensures Valid() && state == Next(world, old(state), Install(id))
      ensures roots == old(roots) + next && documents == old(documents) && timer == old(timer)
    {
      StoreRoots(next);
      Move(Install(id));
    }

    /** The hook copies the roots and the documents together. */
    method TakeSnapshot(ghost id: nat) returns (seen: Roots, docs: Docs)
      requires Valid() && Enabled(state, Snapshot(id))
      modifies this`state
      ensures Valid() && seen == roots && docs == documents && state == Next(world, old(state), Snapshot(id))
      ensures state.tasks[id].roots == seen && state.tasks[id].docs == docs
    {
      seen, docs := roots, documents;
      Move(Snapshot(id));
    }

    /** With nothing in between, the timer leaves every root evaluated against the current documents. */
    method TimerReload(ghost id: nat)
      requires Valid() && timer && id !in state.tasks
      modifies this
      ensures Valid() && !timer && documents == old(documents) && roots == Evaluate(world, documents)
      ensures roots.Keys == world.base
      ensures forall root :: root in world.base ==> roots[root] == world.eval(root, documents)
      ensures state == Next(world, Next(world, Next(world, old(state), Fire(id)), Capture(id)), Install(id))
    {
      TimerFires(id);
      var docs := CaptureDocuments(id);
      var next := ComputeRoots(docs);
      assert roots.Keys == world.base;
      InstallRoots(id, next);
      InstallReplaces(world, old(roots), docs);
    }

    /** With nothing in between, a flush leaves every root evaluated against the current documents and no timer set. */
    method FlushReload(ghost id: nat)
      requires Valid() && id !in state.tasks
      modifies this
      ensures Valid() && !timer && documents == old(documents) && roots == Evaluate(world, documents)
      ensures roots.Keys == world.base
      ensures forall root :: root in world.base ==> roots[root] == world.eval(root, documents)
      ensures state == Next(world, Next(world, Next(world, old(state), Flush(id)), Capture(id)), Install(id))
    {
      StopTimer(id);
      var docs := CaptureDocuments(id);
      var next := ComputeRoots(docs);
      assert roots.Keys == world.base;
      InstallRoots(id, next);
      InstallReplaces(world, old(roots), docs);
    }
  }
}
