/** What holds after every run of operations. */
module Theorems {
  import opened Wrappers
  import opened Core
  import opened Dag
  import opened Operations
  import opened Lineage
  import opened ThreeWay
  import opened Agreement
  import opened Refinement
  import opened ForkRefinement
  import opened SessionRefinement
  import opened Runs
  import opened Changes
  import Advance
  import E = IntervalMachine
  import M = SnapshotMachine

  // ----- the engine refines the model -----

  ghost predicate SameBranchReadings(e: E.State, m: M.State)
    requires M.Closed(m)
  {
    && e.branches.Keys == m.branches.Keys
    && forall b :: E.Head(e, b) == M.Head(m, b) && E.ForkCommit(e, b) == M.ForkCommit(m, b) && E.Resolve(e, b) == M.Resolve(m, b)
  }

  ghost predicate SameCommitReadings(e: E.State, m: M.State) {
    && e.commits.Keys == m.commits.Keys
    && forall id :: id in e.commits ==> e.commits[id].parents == m.commits[id].parents && E.StateAtCommit(e, id) == m.commits[id].state
  }

  ghost predicate SameSessionReadings(e: E.State, m: M.State) {
    forall sid :: E.SessionResolve(e, sid) == M.SessionResolve(m, sid)
  }

  lemma {:induction false} BranchesRead(e: E.State, h: History, m: M.State)
    requires Joint(e, h, m) in Lockstep() && M.Closed(m)
    ensures SameBranchReadings(e, m)
  {
    forall b | b in e.branches
      ensures E.Head(e, b) == M.Head(m, b) && E.ForkCommit(e, b) == M.ForkCommit(m, b) && E.Resolve(e, b) == M.Resolve(m, b)
    {
      BranchFacts(e, h, m, b);
      HeadView(e, h, m, b);
    }
  }

  lemma {:induction false} CommitsRead(e: E.State, h: History, m: M.State)
    requires Joint(e, h, m) in Lockstep()
    ensures SameCommitReadings(e, m)
  {
    forall id | id in e.commits
      ensures e.commits[id].parents == m.commits[id].parents && E.StateAtCommit(e, id) == m.commits[id].state
    {
      assert CommitAgrees(e, m, id) && SnapshotAgrees(e, m, id);
    }
  }

  lemma {:induction false} SessionsRead(e: E.State, h: History, m: M.State)
    requires Joint(e, h, m) in Lockstep()
    ensures SameSessionReadings(e, m)
  {
    forall sid: nat
      ensures E.SessionResolve(e, sid) == M.SessionResolve(m, sid)
    {
      if sid in e.sessions {
        SessionFacts(e, h, m, sid);
      }
    }
  }

  /** Whole-run refinement: after any run, every head, fork commit, parent list,
      branch, commit and open session reads the same on both sides. */
  lemma {:induction false} RunReads(schema: seq<ColID>, run: Run)
    requires Valid(run, schema)
    ensures SameBranchReadings(Engine(schema, run), Model(schema, run))
    ensures SameCommitReadings(Engine(schema, run), Model(schema, run))
    ensures SameSessionReadings(Engine(schema, run), Model(schema, run))
  {
    var h := RunAgrees(schema, run);
    BranchesRead(Engine(schema, run), h, Model(schema, run));
    CommitsRead(Engine(schema, run), h, Model(schema, run));
    SessionsRead(Engine(schema, run), h, Model(schema, run));
  }

  /** So filtered reads and planned updates agree too: the engine's two-pass read answers
      what the model's filtered snapshot does, on any branch or none. */
  lemma {:induction false} RunFilters(schema: seq<ColID>, run: Run, b: Name, pred: Row -> bool, assign: Row -> Row)
    requires Valid(run, schema)
    ensures var t, t' := OrEmpty(E.Resolve(Engine(schema, run), b)), OrEmpty(M.Resolve(Model(schema, run), b));
      Filtered(t, pred) == Filtered(t', pred) && UpdateWhere(t, pred, assign) == UpdateWhere(t', pred, assign)
  {
    RunReads(schema, run);
    assert E.Resolve(Engine(schema, run), b) == M.Resolve(Model(schema, run), b);
  }

  /** And the next operation has the same outcome. */
  lemma {:induction false} RunOutcome(schema: seq<ColID>, run: Run, op: Operation)
    requires Valid(run, schema) && ValidOp(op, ColumnSet(schema))
    ensures E.Step(Engine(schema, run), op).1 == M.Step(Model(schema, run), op).1
  {
    var h := RunAgrees(schema, run);
    var h' := StepRefines(Engine(schema, run), h, Model(schema, run), op);
  }

  // ----- what a step of the model leaves alone -----

  /** The branch an operation commits on, if any; a session commits on its own. */
  function TargetOf(op: Operation, sessionBranch: Option<Name>): Option<Name> {
    match op
    case Commit(b, _) => Some(b)
    case Merge(_, into) => Some(into)
    case UpdateFromParent(b) => Some(b)
    case CommitSession(_) => sessionBranch
    case _ => None
  }

  function Target(e: E.State, op: Operation): Option<Name> {
    TargetOf(op, if op.CommitSession? && op.sid in e.sessions then Some(e.sessions[op.sid].branch) else None)
  }

  function ModelTarget(m: M.State, op: Operation): Option<Name> {
    TargetOf(op, if op.CommitSession? && op.sid in m.sessions then Some(m.sessions[op.sid].branch) else None)
  }

  /** The operation writes, commits or abandons the session. */
  predicate UsesSession(op: Operation, sid: nat) {
    match op
    case SessionWrite(x, _) => x == sid
    case CommitSession(x) => x == sid
    case AbandonSession(x) => x == sid
    case _ => false
  }

  /** The step adds to the commits and changes at most one branch's record. */
  ghost predicate ModelFrame(m: M.State, m': M.State, op: Operation) {
    && (forall id :: id in m.commits ==> id in m'.commits && m'.commits[id] == m.commits[id])
    && (forall b :: b in m.branches && ModelTarget(m, op) != Some(b) ==> b in m'.branches && m'.branches[b] == m.branches[b])
    && (forall sid :: sid in m.sessions && !UsesSession(op, sid) ==> sid in m'.sessions && m'.sessions[sid] == m.sessions[sid])
  }

  // Facts about a step are passed around as memberships, so that a proof that uses one
  // does not look inside the step.

  ghost function ModelFrames(): iset<(M.State, Operation, M.State)> {
    iset x: (M.State, Operation, M.State) | ModelFrame(x.0, x.2, x.1)
  }

  /** A step that only records a commit on one branch, if anything. */
  datatype BranchStep = BranchStep(m: M.State, m': M.State, branch: Name)

  ghost function BranchSteps(): iset<BranchStep> {
    iset s: BranchStep |
      && s.m'.sessions == s.m.sessions
      && (forall id :: id in s.m.commits ==> id in s.m'.commits && s.m'.commits[id] == s.m.commits[id])
      && (forall a :: a in s.m.branches && a != s.branch ==> a in s.m'.branches && s.m'.branches[a] == s.m.branches[a])
  }

  lemma {:induction false} BranchFrame(m: M.State, m': M.State, b: Name, op: Operation)
    requires BranchStep(m, m', b) in BranchSteps() && ModelTarget(m, op) == Some(b)
    ensures (m, op, m') in ModelFrames()
  {
  }

  lemma {:induction false} RecordFrame(m: M.State, b: Name, fork: nat, parents: seq<nat>, t: Table)
    requires M.Closed(m) && b in m.branches && m.nextID + 1 !in m.commits
    ensures BranchStep(m, M.RecordFork(m, b, fork, parents, t), b) in BranchSteps()
  {
  }

  lemma {:induction false} FinishFrame(m: M.State, b: Name, base: nat, fork: nat, merged: (Table, seq<Conflict>), parents: seq<nat>)
    requires M.Closed(m) && b in m.branches && m.nextID + 1 !in m.commits
    ensures BranchStep(m, M.Finish(m, b, base, fork, merged, parents).0, b) in BranchSteps()
  {
    RecordFrame(m, b, fork, parents, merged.0);
  }

  lemma {:induction false} MergeFrame(m: M.State, from: Name, into: Name)
    requires M.Closed(m) && m.nextID + 1 !in m.commits
    ensures BranchStep(m, M.Merge(m, from, into).0, into) in BranchSteps()
  {
    if from in m.branches && into in m.branches {
      var ours, theirs := m.branches[into].head, m.branches[from].head;
      var bases := MergeBases(M.Graph(m), ours, theirs);
      if |bases| == 1 {
        M.BaseKnown(m, ours, theirs, Only(bases));
        FinishFrame(m, into, Only(bases), m.branches[into].forkCommit, M.MergeCommits(m, Only(bases), ours, theirs), [ours, theirs]);
      }
    }
  }

  lemma {:induction false} UpdateFrame(m: M.State, b: Name)
    requires M.Closed(m) && m.nextID + 1 !in m.commits
    ensures BranchStep(m, M.UpdateFromParent(m, b).0, b) in BranchSteps()
  {
    if b in m.branches && m.branches[b].parent != "" {
      var ours, theirs, base := m.branches[b].head, m.branches[m.branches[b].parent].head, m.branches[b].forkCommit;
      ModelUpdateUnfolds(m, b);
      FinishFrame(m, b, base, theirs, M.MergeCommits(m, base, ours, theirs), [ours, theirs]);
    }
  }

  lemma {:induction false} CommitFrame(m: M.State, b: Name, cs: ChangeSet)
    requires M.Closed(m) && m.nextID + 1 !in m.commits
    ensures BranchStep(m, M.Commit(m, b, cs).0, b) in BranchSteps()
  {
    if b in m.branches {
      var head := m.branches[b].head;
      ModelCommitUnfolds(m, b, cs);
      RecordFrame(m, b, m.branches[b].forkCommit, [head], M.Apply(m.commits[head].state, cs));
    }
  }

  /** A commit on the session's branch, and then the session's own record. */
  lemma {:induction false} PublishFrame(m: M.State, m': M.State, b: Name, sid: nat, s: M.SessionRecord)
    requires BranchStep(m, m', b) in BranchSteps() && ModelTarget(m, Operation.CommitSession(sid)) == Some(b)
    ensures (m, Operation.CommitSession(sid), m'.(sessions := m'.sessions[sid := s])) in ModelFrames()
  {
  }

  lemma {:induction false} SameFrame(m: M.State, op: Operation)
    ensures (m, op, m) in ModelFrames()
  {
  }

  lemma {:induction false} PublishUnfolds(m: M.State, sid: nat)
    requires M.Closed(m) && M.IsOpen(m, sid)
    ensures var s := m.sessions[sid];
      var m' := M.Record(m, s.branch, [m.branches[s.branch].head], s.overlay);
      M.CommitSession(m, sid).0 == m || M.CommitSession(m, sid).0 == m'.(sessions := m'.sessions[sid := s.(open := false)])
  {
  }

  lemma {:induction false} ClosedSessionStays(m: M.State, sid: nat)
    requires M.Closed(m) && !M.IsOpen(m, sid)
    ensures M.CommitSession(m, sid).0 == m
  {
  }

  lemma {:induction false} SessionFrame(m: M.State, sid: nat)
    requires M.Closed(m) && m.nextID + 1 !in m.commits
    ensures (m, Operation.CommitSession(sid), M.CommitSession(m, sid).0) in ModelFrames()
  {
    SameFrame(m, Operation.CommitSession(sid));
    if M.IsOpen(m, sid) {
      var s := m.sessions[sid];
      var b, t := s.branch, s.overlay;
      M.SameFork(m, b, [m.branches[b].head], t);
      RecordFrame(m, b, m.branches[b].forkCommit, [m.branches[b].head], t);
      PublishFrame(m, M.Record(m, b, [m.branches[b].head], t), b, sid, s.(open := false));
      PublishUnfolds(m, sid);
    } else {
      ClosedSessionStays(m, sid);
    }
  }

  lemma {:induction false} CreateFrame(m: M.State, name: Name, from: Name)
    requires M.Closed(m)
    ensures (m, Operation.CreateBranch(name, from), M.CreateBranch(m, name, from).0) in ModelFrames()
  {
  }

  /** Only one session's record changes, and it is new or the operation names it. */
  lemma {:induction false} RecordSessionFrame(m: M.State, m': M.State, op: Operation, sid: nat, s: M.SessionRecord)
    requires m'.commits == m.commits && m'.branches == m.branches && m'.sessions == m.sessions[sid := s]
    requires sid !in m.sessions || UsesSession(op, sid)
    ensures (m, op, m') in ModelFrames()
  {
  }

  lemma {:induction false} OpenFrame(m: M.State, b: Name)
    requires M.Closed(m) && m.nextSess + 1 !in m.sessions
    ensures (m, Operation.OpenSession(b), M.OpenSession(m, b).0) in ModelFrames()
  {
    SameFrame(m, Operation.OpenSession(b));
    var m', sid := M.OpenSession(m, b).0, m.nextSess + 1;
    if m' != m {
      RecordSessionFrame(m, m', Operation.OpenSession(b), sid, m'.sessions[sid]);
    }
  }

  lemma {:induction false} WriteFrame(m: M.State, sid: nat, cs: ChangeSet)
    ensures (m, Operation.SessionWrite(sid, cs), M.SessionWrite(m, sid, cs).0) in ModelFrames()
  {
    SameFrame(m, Operation.SessionWrite(sid, cs));
    var m' := M.SessionWrite(m, sid, cs).0;
    if M.IsOpen(m, sid) {
      RecordSessionFrame(m, m', Operation.SessionWrite(sid, cs), sid, m'.sessions[sid]);
    }
  }

  lemma {:induction false} AbandonFrame(m: M.State, sid: nat)
    ensures (m, Operation.AbandonSession(sid), M.AbandonSession(m, sid)) in ModelFrames()
  {
    SameFrame(m, Operation.AbandonSession(sid));
    var m' := M.AbandonSession(m, sid);
    if sid in m.sessions {
      RecordSessionFrame(m, m', Operation.AbandonSession(sid), sid, m'.sessions[sid]);
    }
  }

  lemma {:induction false} StepFrame(m: M.State, op: Operation)
    requires M.Closed(m) && m.nextID + 1 !in m.commits && m.nextSess + 1 !in m.sessions
    ensures (m, op, M.Step(m, op).0) in ModelFrames()
  {
    match op
    case Commit(b, cs) =>
      CommitFrame(m, b, cs);
      BranchFrame(m, M.Commit(m, b, cs).0, b, op);
    case Merge(from, into) =>
      MergeFrame(m, from, into);
      BranchFrame(m, M.Merge(m, from, into).0, into, op);
    case UpdateFromParent(b) =>
      UpdateFrame(m, b);
      BranchFrame(m, M.UpdateFromParent(m, b).0, b, op);
    case CommitSession(sid) => SessionFrame(m, sid);
    case CreateBranch(name, from) => CreateFrame(m, name, from);
    case OpenSession(b) => OpenFrame(m, b);
    case SessionWrite(sid, cs) => WriteFrame(m, sid, cs);
    case AbandonSession(sid) => AbandonFrame(m, sid);
  }

  // ----- history is immutable; branches and sessions are isolated -----

  /** What a step of the engine may not move: the state of any commit, ... */
  ghost predicate CommitsUnmoved(e: E.State, e': E.State) {
    forall id :: id in e.commits ==> id in e'.commits && E.StateAtCommit(e', id) == E.StateAtCommit(e, id)
  }

  /** ... the view of any branch the operation does not commit on, descendants
      included, ... */
  ghost predicate BranchesUnmoved(e: E.State, e': E.State, op: Operation) {
    forall b :: b in e.branches && Target(e, op) != Some(b) ==> E.Resolve(e', b) == E.Resolve(e, b)
  }

  /** ... and the view of any session it does not name. */
  ghost predicate SessionsUnmoved(e: E.State, e': E.State, op: Operation) {
    forall sid :: sid in e.sessions && !UsesSession(op, sid) ==> E.SessionResolve(e', sid) == E.SessionResolve(e, sid)
  }

  lemma {:induction false} CommitsStay(e: E.State, m: M.State, e': E.State, m': M.State, op: Operation)
    requires ModelFrame(m, m', op) && SameCommitReadings(e, m) && SameCommitReadings(e', m')
    ensures CommitsUnmoved(e, e')
  {
  }

  lemma {:induction false} BranchesStay(e: E.State, m: M.State, e': E.State, m': M.State, op: Operation)
    requires M.Closed(m) && M.Closed(m') && ModelFrame(m, m', op) && Target(e, op) == ModelTarget(m, op)
    requires SameBranchReadings(e, m) && SameBranchReadings(e', m')
    ensures BranchesUnmoved(e, e', op)
  {
    forall b | b in e.branches && Target(e, op) != Some(b)
      ensures E.Resolve(e', b) == E.Resolve(e, b)
    {
      assert m'.branches[b] == m.branches[b];
      assert M.Resolve(m', b) == M.Resolve(m, b);
    }
  }

  lemma {:induction false} SessionsStay(e: E.State, m: M.State, e': E.State, m': M.State, op: Operation)
    requires ModelFrame(m, m', op) && e.sessions.Keys == m.sessions.Keys
    requires SameSessionReadings(e, m) && SameSessionReadings(e', m')
    ensures SessionsUnmoved(e, e', op)
  {
    forall sid | sid in e.sessions && !UsesSession(op, sid)
      ensures E.SessionResolve(e', sid) == E.SessionResolve(e, sid)
    {
      assert sid in m.sessions && m'.sessions[sid] == m.sessions[sid];
      assert M.SessionResolve(m', sid) == M.SessionResolve(m, sid);
    }
  }

  datatype Situation = Situation(e: E.State, m: M.State, op: Operation)

  ghost function ModelSteps(): iset<(M.State, Operation, M.State)> {
    iset x: (M.State, Operation, M.State) | M.Closed(x.0) && M.Closed(x.2) && x.2 == M.Step(x.0, x.1).0
  }

  /** The two machines about to take the same step, their counters fresh. */
  ghost function Ready(): iset<Situation> {
    iset x: Situation |
      && x.m.nextID + 1 !in x.m.commits && x.m.nextSess + 1 !in x.m.sessions
      && x.e.sessions.Keys == x.m.sessions.Keys && Target(x.e, x.op) == ModelTarget(x.m, x.op)
  }

  /** States that read the same on both sides. */
  ghost function SameReadings(): iset<(E.State, M.State)> {
    iset x: (E.State, M.State) |
      M.Closed(x.1) && SameBranchReadings(x.0, x.1) && SameCommitReadings(x.0, x.1) && SameSessionReadings(x.0, x.1)
  }

  lemma {:induction false} IsReady(e: E.State, h: History, m: M.State, op: Operation)
    requires Joint(e, h, m) in Lockstep()
    ensures Situation(e, m, op) in Ready()
  {
    Advance.NewIdIsNew(e, m);
    SessionIdsBounded(e, m);
    if op.CommitSession? && op.sid in e.sessions {
      assert SessionAgrees(e, m, op.sid);
    }
  }

  lemma {:induction false} StepLands(frames: iset<(M.State, Operation, M.State)>, m: M.State, op: Operation, m': M.State)
    requires (m, op, m') in ModelSteps()
    requires M.Closed(m) ==> (m, op, M.Step(m, op).0) in frames
    ensures (m, op, m') in frames
  {
  }

  lemma {:induction false} StepIsClosed(m: M.State, op: Operation, m': M.State)
    requires (m, op, m') in ModelSteps()
    ensures M.Closed(m)
  {
  }

  lemma {:induction false} ReadyIds(e: E.State, m: M.State, op: Operation)
    requires Situation(e, m, op) in Ready()
    ensures m.nextID + 1 !in m.commits && m.nextSess + 1 !in m.sessions
  {
  }

  lemma {:induction false} ReadyFrame(e: E.State, m: M.State, op: Operation, m': M.State)
    requires Situation(e, m, op) in Ready() && (m, op, m') in ModelSteps()
    ensures (m, op, m') in ModelFrames()
  {
    StepIsClosed(m, op, m');
    ReadyIds(e, m, op);
    StepFrame(m, op);
    StepLands(ModelFrames(), m, op, m');
  }

  lemma {:induction false} SituationStays(e: E.State, m: M.State, op: Operation, e': E.State, m': M.State)
    requires Situation(e, m, op) in Ready() && (m, op, m') in ModelFrames()
    requires (e, m) in SameReadings() && (e', m') in SameReadings()
    ensures CommitsUnmoved(e, e') && BranchesUnmoved(e, e', op) && SessionsUnmoved(e, e', op)
  {
    CommitsStay(e, m, e', m', op);
    BranchesStay(e, m, e', m', op);
    SessionsStay(e, m, e', m', op);
  }

  lemma {:induction false} PrefixValid(schema: seq<ColID>, run: Run, more: Run)
    requires Valid(run + more, schema)
    ensures Valid(run, schema)
  {
    assert forall i :: 0 <= i < |run| ==> run[i] == (run + more)[i];
  }

  lemma {:induction false} RunReady(schema: seq<ColID>, run: Run, op: Operation)
    requires Valid(run, schema)
    ensures Situation(Engine(schema, run), Model(schema, run), op) in Ready()
  {
    var h := RunAgrees(schema, run);
    IsReady(Engine(schema, run), h, Model(schema, run), op);
  }

  lemma {:induction false} RunSteps(schema: seq<ColID>, run: Run, op: Operation)
    ensures (Model(schema, run), op, Model(schema, run + [op])) in ModelSteps()
  {
    assert (run + [op])[..|run|] == run;
  }

  lemma {:induction false} RunReadings(schema: seq<ColID>, run: Run)
    requires Valid(run, schema)
    ensures (Engine(schema, run), Model(schema, run)) in SameReadings()
  {
    RunReads(schema, run);
  }

  /** After any run, no operation rewrites history, moves a branch it does not commit
      on, or shows in a session it does not name. */
  lemma {:induction false} NothingElseMoves(schema: seq<ColID>, run: Run, op: Operation)
    requires Valid(run + [op], schema)
    ensures CommitsUnmoved(Engine(schema, run), Engine(schema, run + [op]))
    ensures BranchesUnmoved(Engine(schema, run), Engine(schema, run + [op]), op)
    ensures SessionsUnmoved(Engine(schema, run), Engine(schema, run + [op]), op)
  {
    PrefixValid(schema, run, [op]);
    RunReady(schema, run, op);
    RunSteps(schema, run, op);
    RunReadings(schema, run);
    RunReadings(schema, run + [op]);
    ReadyFrame(Engine(schema, run), Model(schema, run), op, Model(schema, run + [op]));
    SituationStays(Engine(schema, run), Model(schema, run), op, Engine(schema, run + [op]), Model(schema, run + [op]));
  }

  /** States between which a commit, once there, keeps its state. */
  ghost function Keeping(id: nat): iset<(E.State, E.State)> {
    iset x: (E.State, E.State) |
      id in x.0.commits ==> id in x.1.commits && E.StateAtCommit(x.1, id) == E.StateAtCommit(x.0, id)
  }

  lemma {:induction false} KeepingOn(id: nat, e: E.State, e': E.State, e'': E.State)
    requires (e, e') in Keeping(id) && CommitsUnmoved(e', e'')
    ensures (e, e'') in Keeping(id)
  {
  }

  lemma {:induction false} RunKeeps(schema: seq<ColID>, run: Run, more: Run, id: nat)
    requires Valid(run + more, schema)
    ensures (Engine(schema, run), Engine(schema, run + more)) in Keeping(id)
    decreases |more|
  {
    if more == [] {
      assert run + more == run;
    } else {
      var init, op := more[..|more| - 1], more[|more| - 1];
      assert run + more == (run + init) + [op];
      PrefixValid(schema, run + init, [op]);
      RunKeeps(schema, run, init, id);
      NothingElseMoves(schema, run + init, op);
      KeepingOn(id, Engine(schema, run), Engine(schema, run + init), Engine(schema, run + more));
    }
  }

  /** History is immutable: however a run goes on, a commit keeps its state. */
  lemma {:induction false} HistoryImmutable(schema: seq<ColID>, run: Run, more: Run, id: nat)
    requires Valid(run + more, schema) && id in Engine(schema, run).commits
    ensures id in Engine(schema, run + more).commits
    ensures E.StateAtCommit(Engine(schema, run + more), id) == E.StateAtCommit(Engine(schema, run), id)
  {
    RunKeeps(schema, run, more, id);
  }
}
