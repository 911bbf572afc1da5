/** The differential harness: the comparison fails only on a chain deeper than the cap. */
module Differential {
  import opened Wrappers
  import opened Core
  import opened Dag
  import opened Operations
  import opened Versions
  import opened Staging
  import opened Lineage
  import opened Runs
  import opened Changes
  import opened Theorems
  import opened Guarantees
  import opened Provenance
  import opened Probes
  import IntervalEngine
  import SnapshotRepo
  import E = IntervalMachine
  import M = SnapshotMachine

  method Issue(engine: IntervalEngine.Engine, op: Operation) returns (out: Outcome)
    requires E.Closed(engine.State()) && 0 !in engine.sessions
    modifies engine
    ensures (engine.State(), out) == E.Step(old(engine.State()), op)
  {
    match op {
      case Commit(b, cs) =>
        var r := engine.Commit(b, cs);
        out := Issued(r);
      case CreateBranch(name, from) =>
        var r := engine.CreateBranch(name, from);
        out := Done(r);
      case Merge(from, into) =>
        var r := engine.Merge(from, into);
        out := Merged(r);
      case UpdateFromParent(b) =>
        var r := engine.UpdateFromParent(b);
        out := Merged(r);
      case OpenSession(b) =>
        var r := engine.OpenSession(b);
        out := Issued(r);
      case SessionWrite(sid, cs) =>
        var r := engine.SessionWrite(sid, cs);
        out := Done(r);
      case CommitSession(sid) =>
        var r := engine.CommitSession(sid);
        out := Issued(r);
      case AbandonSession(sid) =>
        engine.AbandonSession(sid);
        out := Done(Ok(()));
    }
  }

  method IssueToModel(repo: SnapshotRepo.Repo, op: Operation) returns (out: Outcome)
    requires M.Closed(repo.State())
    modifies repo
    ensures (repo.State(), out) == M.Step(old(repo.State()), op)
  {
    match op {
      case Commit(b, cs) =>
        var r := repo.Commit(b, cs);
        out := Issued(r);
      case CreateBranch(name, from) =>
        var r := repo.CreateBranch(name, from);
        out := Done(r);
      case Merge(from, into) =>
        var r := repo.Merge(from, into);
        out := Merged(r);
      case UpdateFromParent(b) =>
        var r := repo.UpdateFromParent(b);
        out := Merged(r);
      case OpenSession(b) =>
        var r := repo.OpenSession(b);
        out := Issued(r);
      case SessionWrite(sid, cs) =>
        var r := repo.SessionWrite(sid, cs);
        out := Done(r);
      case CommitSession(sid) =>
        var r := repo.CommitSession(sid);
        out := Issued(r);
      case AbandonSession(sid) =>
        repo.AbandonSession(sid);
        out := Done(Ok(()));
    }
  }

  // ----- the check after every step -----

  const MAX_CHAIN_DEPTH: nat := 8

  /** The branch resolves alike, has the same head and fork commit, and its chain is short. */
  ghost predicate BranchPasses(e: E.State, m: M.State, b: Name)
    requires M.Closed(m)
  {
    && M.Resolve(m, b) == E.Resolve(e, b) && M.Head(m, b) == E.Head(e, b) && M.ForkCommit(m, b) == E.ForkCommit(e, b)
    && ChainDepth(e, b) <= MAX_CHAIN_DEPTH
  }

  /** Every filter answers alike on the branch. */
  ghost predicate FiltersPass(e: E.State, m: M.State, b: Name, preds: seq<Row -> bool>)
    requires M.Closed(m)
  {
    forall i :: 0 <= i < |preds| ==> Filtered(OrEmpty(M.Resolve(m, b)), preds[i]) == Filtered(OrEmpty(E.Resolve(e, b)), preds[i])
  }

  /** Nothing is staged on the default branch, and no version there is without a commit. */
  ghost predicate RootPasses(rows: seq<Version>) {
    IntervalEngine.StagedOn(rows, ROOT, |rows|) == {} && ZeroHashOn(rows, ROOT, |rows|) == {}
  }

  /** No key has two open versions on a branch, and no two versions overlap. */
  ghost predicate VersionsPass(rows: seq<Version>) {
    (forall slot :: |OpenAt(rows, slot, |rows|)| <= 1) && Disjoint(rows)
  }

  ghost predicate Passes(e: E.State, m: M.State, preds: seq<Row -> bool>)
    requires M.Closed(m)
  {
    && (forall b :: b in m.branches ==> BranchPasses(e, m, b))
    && (forall sid :: M.IsOpen(m, sid) ==> M.SessionResolve(m, sid) == E.SessionResolve(e, sid))
    && RootPasses(e.rows) && VersionsPass(e.rows)
    && (forall b :: b in m.branches ==> FiltersPass(e, m, b, preds))
  }

  method CheckBranches(engine: IntervalEngine.Engine, repo: SnapshotRepo.Repo) returns (agreed: bool)
    requires M.Closed(repo.State())
    ensures agreed <==> forall b :: b in repo.branches ==> BranchPasses(engine.State(), repo.State(), b)
  {
    agreed := true;
    var rest := repo.branches.Keys;
    while rest != {}
      invariant rest <= repo.branches.Keys
      invariant agreed <==> forall b :: b in repo.branches && b !in rest ==> BranchPasses(engine.State(), repo.State(), b)
      decreases rest
    {
      var b :| b in rest;
      var mt := repo.Resolve(b);
      var et := engine.Resolve(b);
      agreed := agreed && mt == et
        && M.Head(repo.State(), b) == E.Head(engine.State(), b)
        && M.ForkCommit(repo.State(), b) == E.ForkCommit(engine.State(), b)
        && ChainDepth(engine.State(), b) <= MAX_CHAIN_DEPTH;
      rest := rest - {b};
    }
  }

  method CheckSessions(engine: IntervalEngine.Engine, repo: SnapshotRepo.Repo) returns (agreed: bool)
    requires 0 !in engine.sessions
    ensures agreed <==> forall sid :: M.IsOpen(repo.State(), sid) ==> M.SessionResolve(repo.State(), sid) == E.SessionResolve(engine.State(), sid)
  {
    agreed := true;
    var rest := repo.sessions.Keys;
    while rest != {}
      invariant rest <= repo.sessions.Keys
      invariant agreed <==> forall sid :: M.IsOpen(repo.State(), sid) && sid !in rest ==>
        M.SessionResolve(repo.State(), sid) == E.SessionResolve(engine.State(), sid)
      decreases rest
    {
      var sid :| sid in rest;
      if M.IsOpen(repo.State(), sid) {
        var et := engine.SessionResolve(sid);
        agreed := agreed && M.SessionResolve(repo.State(), sid) == et;
      }
      rest := rest - {sid};
    }
  }

  method CheckRoot(engine: IntervalEngine.Engine) returns (clean: bool)
    ensures clean <==> RootPasses(engine.rows)
  {
    var staged := engine.StagedOnBranch(ROOT);
    var zero := ZeroHashOnBranch(engine, ROOT);
    return staged == 0 && zero == 0;
  }

  method CheckVersions(engine: IntervalEngine.Engine) returns (sane: bool)
    ensures Proper(engine.rows) ==> (sane <==> VersionsPass(engine.rows))
  {
    var counts := OpenVersionsPerKey(engine);
    var single := true;
    var rest := counts.Keys;
    while rest != {}
      invariant rest <= counts.Keys
      invariant single <==> forall slot :: slot in counts && slot !in rest ==> counts[slot] == 1
      decreases rest
    {
      var slot :| slot in rest;
      single := single && counts[slot] == 1;
      rest := rest - {slot};
    }
    SinglesAre(counts, engine.rows);
    var apart := IntervalsSane(engine);
    return single && apart;
  }

  lemma {:induction false} SinglesAre(counts: map<Slot, nat>, rows: seq<Version>)
    requires Counts(counts, rows, |rows|) && forall slot :: slot in counts ==> counts[slot] > 0
    ensures (forall slot :: slot in counts ==> counts[slot] == 1) <==> forall slot :: |OpenAt(rows, slot, |rows|)| <= 1
  {
    forall slot: Slot
      ensures |OpenAt(rows, slot, |rows|)| <= 1 <==> (slot in counts ==> counts[slot] == 1)
    {
      assert CountOf(counts, slot) == |OpenAt(rows, slot, |rows|)|;
    }
  }

  method CheckBranchFilters(engine: IntervalEngine.Engine, repo: SnapshotRepo.Repo, b: Name, preds: seq<Row -> bool>) returns (agreed: bool)
    requires M.Closed(repo.State())
    ensures agreed <==> FiltersPass(engine.State(), repo.State(), b, preds)
  {
    agreed := true;
    var i := 0;
    while i < |preds|
      invariant 0 <= i <= |preds|
      invariant agreed <==> forall k :: 0 <= k < i ==>
        Filtered(OrEmpty(M.Resolve(repo.State(), b)), preds[k]) == Filtered(OrEmpty(E.Resolve(engine.State(), b)), preds[k])
    {
      var want := repo.ResolveFiltered(b, preds[i]);
      var got := engine.ResolveFiltered(b, preds[i]);
      agreed := agreed && want == OrEmpty(got);
      i := i + 1;
    }
  }

  method CheckFilters(engine: IntervalEngine.Engine, repo: SnapshotRepo.Repo, preds: seq<Row -> bool>) returns (agreed: bool)
    requires M.Closed(repo.State())
    ensures agreed <==> forall b :: b in repo.branches ==> FiltersPass(engine.State(), repo.State(), b, preds)
  {
    agreed := true;
    var rest := repo.branches.Keys;
    while rest != {}
      invariant rest <= repo.branches.Keys
      invariant agreed <==> forall b :: b in repo.branches && b !in rest ==> FiltersPass(engine.State(), repo.State(), b, preds)
      decreases rest
    {
      var b :| b in rest;
      var ok := CheckBranchFilters(engine, repo, b, preds);
      agreed := agreed && ok;
      rest := rest - {b};
    }
  }

  /** The check passes exactly when all it reads is as it should be. */
  method Check(engine: IntervalEngine.Engine, repo: SnapshotRepo.Repo, preds: seq<Row -> bool>) returns (agreed: bool)
    requires M.Closed(repo.State()) && 0 !in engine.sessions
    ensures Proper(engine.rows) ==> (agreed <==> Passes(engine.State(), repo.State(), preds))
  {
    var branches := CheckBranches(engine, repo);
    var sessions := CheckSessions(engine, repo);
    var root := CheckRoot(engine);
    var versions := CheckVersions(engine);
    var filters := CheckFilters(engine, repo, preds);
    return branches && sessions && root && versions && filters;
  }

  // ----- after any run the check passes -----

  /** No chain is longer than the cap. */
  ghost predicate Shallow(e: E.State) {
    forall b :: b in e.branches ==> ChainDepth(e, b) <= MAX_CHAIN_DEPTH
  }

  lemma {:induction false} ReadingsPass(e: E.State, m: M.State, preds: seq<Row -> bool>)
    requires M.Closed(m) && SameBranchReadings(e, m) && SameSessionReadings(e, m)
    requires RootPasses(e.rows) && VersionsPass(e.rows)
    ensures Passes(e, m, preds) <==> Shallow(e)
  {
    forall b
      ensures M.Resolve(m, b) == E.Resolve(e, b) && M.Head(m, b) == E.Head(e, b) && M.ForkCommit(m, b) == E.ForkCommit(e, b)
    {
    }
    if Passes(e, m, preds) {
      forall b | b in e.branches
        ensures ChainDepth(e, b) <= MAX_CHAIN_DEPTH
      {
        assert BranchPasses(e, m, b);
      }
    }
  }

  lemma {:induction false} OneAtMost(s: set<nat>)
    requires forall i, j :: i in s && j in s ==> i == j
    ensures |s| <= 1
  {
    if i :| i in s {
      assert s == {i};
    }
  }

  lemma {:induction false} RunSpreads(schema: seq<ColID>, e: E.State)
    requires Reachable(schema, e)
    ensures Disjoint(e.rows) && Proper(e.rows)
  {
    var h, m := Paired(schema, e);
    StoreTiles(e, h, m);
    forall i | 0 <= i < |e.rows| && e.rows[i].session == 0
      ensures e.rows[i].from < e.rows[i].to
    {
      assert InRange(e.rows[i], Heads(h));
    }
  }

  lemma {:induction false} RunOpens(schema: seq<ColID>, e: E.State, slot: Slot)
    requires Reachable(schema, e)
    ensures |OpenAt(e.rows, slot, |e.rows|)| <= 1
  {
    forall i, j | i in OpenAt(e.rows, slot, |e.rows|) && j in OpenAt(e.rows, slot, |e.rows|)
      ensures i == j
    {
      OneOpenVersion(schema, e, i);
    }
    OneAtMost(OpenAt(e.rows, slot, |e.rows|));
  }

  lemma {:induction false} RunVersions(schema: seq<ColID>, e: E.State)
    requires Reachable(schema, e)
    ensures VersionsPass(e.rows) && Proper(e.rows)
  {
    RunSpreads(schema, e);
    forall slot: Slot
      ensures |OpenAt(e.rows, slot, |e.rows|)| <= 1
    {
      RunOpens(schema, e, slot);
    }
  }

  lemma {:induction false} RunRoot(schema: seq<ColID>, e: E.State)
    requires Reachable(schema, e)
    ensures RootPasses(e.rows)
  {
    forall i: nat | i < |e.rows| && e.rows[i].session != 0
      ensures e.rows[i].branch != ROOT
    {
      StagedRowsOwned(schema, e, i);
    }
    forall i: nat | i < |e.rows| && e.rows[i].session == 0
      ensures e.rows[i].commit != 0
    {
      VersionsSigned(schema, e, i);
    }
  }

  /** After any run the check passes exactly when no chain is deeper than the cap. */
  lemma {:induction false} RunPasses(schema: seq<ColID>, run: Run, preds: seq<Row -> bool>)
    requires Valid(run, schema)
    ensures 0 !in Engine(schema, run).sessions && Proper(Engine(schema, run).rows)
    ensures Passes(Engine(schema, run), Model(schema, run), preds) <==> Shallow(Engine(schema, run))
  {
    var e, m := Engine(schema, run), Model(schema, run);
    RunReads(schema, run);
    SessionsStayApart(schema, run);
    assert Reachable(schema, e);
    RunVersions(schema, e);
    RunRoot(schema, e);
    ReadingsPass(e, m, preds);
  }

  // ----- chains that stay short -----

  /** A branch's tail is one longer than its parent's. */
  ghost predicate Nested(e: E.State) {
    forall b :: b in e.branches && e.branches[b].parent != "" ==>
      e.branches[b].parent in e.branches && |e.branches[b].chain| == |e.branches[e.branches[b].parent].chain| + 1
  }

  /** The guard of the harness: no fork from a branch at the cap. */
  ghost predicate Guarded(e: E.State, op: Operation) {
    op.CreateBranch? && op.from in e.branches ==> ChainDepth(e, op.from) < MAX_CHAIN_DEPTH
  }

  /** The same branches, with the same parents and depths. */
  ghost predicate SameDepths(e: E.State, e': E.State) {
    && e'.branches.Keys == e.branches.Keys
    && forall b :: b in e.branches ==> e'.branches[b].parent == e.branches[b].parent && |e'.branches[b].chain| == |e.branches[b].chain|
  }

  lemma {:induction false} DepthsStay(e: E.State, e': E.State)
    requires Nested(e) && Shallow(e) && SameDepths(e, e')
    ensures Nested(e') && Shallow(e')
  {
    forall b | b in e'.branches
      ensures ChainDepth(e', b) <= MAX_CHAIN_DEPTH
    {
      assert ChainDepth(e, b) <= MAX_CHAIN_DEPTH;
    }
  }

  lemma {:induction false} RecordDepths(e: E.State, rows: seq<Version>, b: Name, n: int, id: nat, parents: seq<nat>)
    requires b in e.branches
    ensures SameDepths(e, E.RecordCommit(e, rows, b, n, id, parents))
  {
  }

  lemma {:induction false} MergeDepths(e: E.State, from: Name, into: Name)
    ensures SameDepths(e, E.Merge(e, from, into).0)
  {
    if from in e.branches && into in e.branches {
      var ours, theirs := e.branches[into].headCommit, e.branches[from].headCommit;
      var bases := MergeBases(E.Graph(e), ours, theirs);
      if |bases| == 1 {
        FinishDepths(e, e, into, Only(bases), E.MergeStates(e, into, from, Only(bases)), [ours, theirs]);
      }
    }
  }

  lemma {:induction false} FinishDepths(e: E.State, target: E.State, b: Name, base: nat, merged: (Table, seq<Conflict>), parents: seq<nat>)
    requires b in target.branches && SameDepths(e, target)
    ensures SameDepths(e, E.Finish(e, target, b, base, merged, parents).0)
  {
    RecordDepths(target, E.ResultRows(target, b, merged.0), b, target.branches[b].headSeq + 1, target.nextID + 1, parents);
  }

  lemma {:induction false} AdvanceDepths(e: E.State, b: Name)
    requires Nested(e) && b in e.branches && e.branches[b].parent != "" && e.branches[b].parent in e.branches
    ensures SameDepths(e, E.AdvanceFork(e, b))
  {
  }

  lemma {:induction false} UpdateDepths(e: E.State, b: Name)
    requires E.Closed(e) && Nested(e)
    ensures SameDepths(e, E.UpdateFromParent(e, b).0)
  {
    if b in e.branches && e.branches[b].parent != "" {
      var parent := e.branches[b].parent;
      var ours, theirs, base := e.branches[b].headCommit, e.branches[parent].headCommit, e.branches[b].forkCommit;
      AdvanceDepths(e, b);
      FinishDepths(e, E.AdvanceFork(e, b), b, base, E.MergeStates(e, b, parent, base), [ours, theirs]);
    }
  }

  lemma {:induction false} CommitDepths(e: E.State, b: Name, cs: ChangeSet)
    ensures SameDepths(e, E.Commit(e, b, cs).0)
  {
    if b in e.branches {
      RecordDepths(e, E.CommitRows(e, b, cs), b, e.branches[b].headSeq + 1, e.nextID + 1, [e.branches[b].headCommit]);
    }
  }

  lemma {:induction false} PublishDepths(e: E.State, sid: nat)
    requires E.Closed(e)
    ensures SameDepths(e, E.CommitSession(e, sid).0)
  {
    if E.IsOpen(e, sid) {
      var b := e.sessions[sid].branch;
      var n, id := e.branches[b].headSeq + 1, e.nextID + 1;
      RecordDepths(e, Publish(e.rows, b, sid, id, n), b, n, id, [e.branches[b].headCommit]);
    }
  }

  lemma {:induction false} WriteDepths(e: E.State, sid: nat, cs: ChangeSet)
    requires E.Closed(e)
    ensures SameDepths(e, E.SessionWrite(e, sid, cs).0)
  {
  }

  lemma {:induction false} SessionDepths(e: E.State, op: Operation)
    requires E.Closed(e) && (op.OpenSession? || op.AbandonSession?)
    ensures SameDepths(e, E.Step(e, op).0)
  {
  }

  lemma {:induction false} CreateShallow(e: E.State, name: Name, from: Name)
    requires E.Closed(e) && Nested(e) && Shallow(e) && Guarded(e, Operation.CreateBranch(name, from))
    ensures Nested(E.CreateBranch(e, name, from).0) && Shallow(E.CreateBranch(e, name, from).0)
  {
    var e' := E.CreateBranch(e, name, from).0;
    forall b | b in e'.branches
      ensures ChainDepth(e', b) <= MAX_CHAIN_DEPTH
    {
      assert b in e.branches ==> ChainDepth(e, b) <= MAX_CHAIN_DEPTH;
    }
  }

  lemma {:induction false} StepShallow(e: E.State, op: Operation)
    requires E.Closed(e) && Nested(e) && Shallow(e) && Guarded(e, op)
    ensures Nested(E.Step(e, op).0) && Shallow(E.Step(e, op).0)
  {
    match op {
      case CreateBranch(name, from) => CreateShallow(e, name, from);
      case Merge(from, into) => MergeDepths(e, from, into); DepthsStay(e, E.Merge(e, from, into).0);
      case UpdateFromParent(b) => UpdateDepths(e, b); DepthsStay(e, E.UpdateFromParent(e, b).0);
      case Commit(b, cs) => CommitDepths(e, b, cs); DepthsStay(e, E.Commit(e, b, cs).0);
      case CommitSession(sid) => PublishDepths(e, sid); DepthsStay(e, E.CommitSession(e, sid).0);
      case SessionWrite(sid, cs) => WriteDepths(e, sid, cs); DepthsStay(e, E.SessionWrite(e, sid, cs).0);
      case _ => SessionDepths(e, op); DepthsStay(e, E.Step(e, op).0);
    }
  }

  // ----- the loop -----

  /** No chain has been longer than the cap after any of the first n operations. */
  ghost predicate StaysShallow(schema: seq<ColID>, run: Run, n: nat)
    requires n <= |run|
  {
    n == 0 || (StaysShallow(schema, run, n - 1) && Shallow(Engine(schema, run[..n])))
  }

  method CheckAfter(schema: seq<ColID>, ghost run: Run, engine: IntervalEngine.Engine, repo: SnapshotRepo.Repo, preds: seq<Row -> bool>)
    returns (checked: bool)
    requires Valid(run, schema) && engine.State() == Engine(schema, run) && repo.State() == Model(schema, run)
    ensures checked <==> Shallow(engine.State())
  {
    RunPasses(schema, run, preds);
    checked := Check(engine, repo, preds);
  }

  lemma {:induction false} StaysNext(schema: seq<ColID>, run: Run, n: nat)
    requires n < |run|
    ensures StaysShallow(schema, run, n + 1) <==> StaysShallow(schema, run, n) && Shallow(Engine(schema, run[..n + 1]))
  {
  }

  /** The harness issues the first n operations: every fork among them is guarded. */
  ghost predicate GuardedRun(schema: seq<ColID>, run: Run, n: nat)
    requires n <= |run|
  {
    forall j :: 0 <= j < n ==> Guarded(Engine(schema, run[..j]), run[j])
  }

  /** On such runs every check passes. */
  lemma {:induction false} GuardedStaysShallow(schema: seq<ColID>, run: Run, n: nat)
    requires n <= |run| && GuardedRun(schema, run, n)
    ensures StaysShallow(schema, run, n)
    ensures Nested(Engine(schema, run[..n])) && Shallow(Engine(schema, run[..n]))
  {
    if n == 0 {
      assert run[..0] == [];
    } else {
      GuardedStaysShallow(schema, run, n - 1);
      GuardedNext(schema, run, n - 1);
      StaysNext(schema, run, n - 1);
    }
  }

  lemma {:induction false} GuardedNext(schema: seq<ColID>, run: Run, n: nat)
    requires n < |run| && Guarded(Engine(schema, run[..n]), run[n])
    requires Nested(Engine(schema, run[..n])) && Shallow(Engine(schema, run[..n]))
    ensures Nested(Engine(schema, run[..n + 1])) && Shallow(Engine(schema, run[..n + 1]))
  {
    EngineAt(schema, run, n);
    StepShallow(Engine(schema, run[..n]), run[n]);
  }

  lemma {:induction false} EngineAt(schema: seq<ColID>, run: Run, n: nat)
    requires n < |run|
    ensures Engine(schema, run[..n + 1]) == E.Step(Engine(schema, run[..n]), run[n]).0
  {
    assert run[..n] + [run[n]] == run[..n + 1];
    EngineNext(schema, run[..n], run[n]);
  }

  /** One operation on both sides, and the check after it. */
  method IssueAndCheck(schema: seq<ColID>, run: Run, i: nat, engine: IntervalEngine.Engine, repo: SnapshotRepo.Repo, preds: seq<Row -> bool>)
    returns (ok: bool)
    requires Valid(run, schema) && i < |run| && engine as object != repo as object
    requires engine.State() == Engine(schema, run[..i]) && repo.State() == Model(schema, run[..i])
    modifies engine, repo
    ensures ok <==> Shallow(Engine(schema, run[..i + 1]))
    ensures engine.State() == Engine(schema, run[..i + 1]) && repo.State() == Model(schema, run[..i + 1])
  {
    var answer, expected := Answers(schema, run, i, engine, repo);
    var checked := CheckAfter(schema, run[..i + 1], engine, repo, preds);
    return answer == expected && checked;
  }

  /** Whatever valid run is issued, the two give the same answer to every operation and
      pass the check after it, as long as no chain gets deeper than the cap; and they end
      in the states the run leads to. */
  method Compare(schema: seq<ColID>, run: Run, preds: seq<Row -> bool>)
    returns (agreed: bool, engine: IntervalEngine.Engine, repo: SnapshotRepo.Repo)
    requires Valid(run, schema)
    ensures agreed <==> StaysShallow(schema, run, |run|)
    ensures fresh(engine) && fresh(repo)
    ensures engine.State() == Engine(schema, run) && repo.State() == Model(schema, run)
  {
    engine := new IntervalEngine.Engine(schema);
    repo := new SnapshotRepo.Repo(schema);
    agreed := true;
    var i := 0;
    while i < |run|
      invariant 0 <= i <= |run| && (agreed <==> StaysShallow(schema, run, i))
      invariant fresh(engine) && fresh(repo) && engine as object != repo as object
      invariant engine.State() == Engine(schema, run[..i]) && repo.State() == Model(schema, run[..i])
    {
      var ok := IssueAndCheck(schema, run, i, engine, repo, preds);
      StaysNext(schema, run, i);
      agreed := agreed && ok;
      i := i + 1;
    }
    assert run[..i] == run;
  }

  method Answers(schema: seq<ColID>, run: Run, i: nat, engine: IntervalEngine.Engine, repo: SnapshotRepo.Repo)
    returns (answer: Outcome, expected: Outcome)
    requires Valid(run, schema) && i < |run| && engine as object != repo as object
    requires engine.State() == Engine(schema, run[..i]) && repo.State() == Model(schema, run[..i])
    modifies engine, repo
    ensures answer == expected
    ensures engine.State() == Engine(schema, run[..i + 1]) && repo.State() == Model(schema, run[..i + 1])
  {
    ghost var e, m := engine.State(), repo.State();
    SameAnswer(schema, run, i);
    answer := Issue(engine, run[i]);
    expected := IssueToModel(repo, run[i]);
  }

  /** The next answer is the same on both sides. */
  lemma {:induction false} SameAnswer(schema: seq<ColID>, run: Run, i: nat)
    requires Valid(run, schema) && i < |run|
    ensures 0 !in Engine(schema, run[..i]).sessions
    ensures E.Step(Engine(schema, run[..i]), run[i]).1 == M.Step(Model(schema, run[..i]), run[i]).1
    ensures E.Step(Engine(schema, run[..i]), run[i]).0 == Engine(schema, run[..i + 1])
    ensures M.Step(Model(schema, run[..i]), run[i]).0 == Model(schema, run[..i + 1])
  {
    assert run[..i] + [run[i]] == run[..i + 1];
    SessionsStayApart(schema, run[..i]);
    RunOutcome(schema, run[..i], run[i]);
    EngineNext(schema, run[..i], run[i]);
    ModelNext(schema, run[..i], run[i]);
  }
}
