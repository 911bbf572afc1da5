/** Whole runs keep the engine and the model in agreement. */
module Runs {
  import opened Core
  import opened Dag
  import opened Operations
  import opened Versions
  import opened Staging
  import opened Lineage
  import opened ThreeWay
  import opened Agreement
  import opened Refinement
  import opened MergeRefinement
  import opened ForkRefinement
  import opened SessionRefinement
  import E = IntervalMachine
  import M = SnapshotMachine

  type Run = seq<Operation>

  /** A run the source can make: every written row carries the schema's columns, and
      there are fewer operations than seqs. */
  predicate Valid(run: Run, schema: seq<ColID>) {
    && DistinctColumns(schema)
    && |run| + 2 < MAX_SEQ
    && forall i :: 0 <= i < |run| ==> ValidOp(run[i], ColumnSet(schema))
  }

  // ----- running the two machines -----

  /** What every step of the engine keeps of the shape of its tables. */
  ghost predicate KeepsShape(e: E.State, e': E.State) {
    E.Closed(e') && (E.Headed(e) ==> E.Headed(e'))
  }

  lemma {:induction false} EngineRecordCloses(e: E.State, target: E.State, rows: seq<Version>, b: Name, n: int, id: nat, parents: seq<nat>)
    requires KeepsShape(e, target) && b in target.branches
    ensures KeepsShape(e, E.RecordCommit(target, rows, b, n, id, parents))
  {
  }

  lemma {:induction false} EngineCommitCloses(e: E.State, b: Name, cs: ChangeSet)
    requires E.Closed(e)
    ensures KeepsShape(e, E.Commit(e, b, cs).0)
  {
    if b in e.branches {
      EngineRecordCloses(e, e, E.CommitRows(e, b, cs), b, e.branches[b].headSeq + 1, e.nextID + 1, [e.branches[b].headCommit]);
    }
  }

  lemma {:induction false} EngineFinishCloses(e: E.State, target: E.State, b: Name, base: nat, merged: (Table, seq<Conflict>), parents: seq<nat>)
    requires E.Closed(e) && KeepsShape(e, target) && b in target.branches
    ensures KeepsShape(e, E.Finish(e, target, b, base, merged, parents).0)
  {
    EngineRecordCloses(e, target, E.ResultRows(target, b, merged.0), b, target.branches[b].headSeq + 1, target.nextID + 1, parents);
  }

  lemma {:induction false} EngineMergeCloses(e: E.State, from: Name, into: Name)
    requires E.Closed(e)
    ensures KeepsShape(e, E.Merge(e, from, into).0)
  {
    if from in e.branches && into in e.branches {
      var ours, theirs := e.branches[into].headCommit, e.branches[from].headCommit;
      var bases := MergeBases(E.Graph(e), ours, theirs);
      if |bases| == 1 {
        EngineFinishCloses(e, e, into, Only(bases), E.MergeStates(e, into, from, Only(bases)), [ours, theirs]);
      }
    }
  }

  lemma {:induction false} AdvanceForkCloses(e: E.State, b: Name)
    requires E.Closed(e) && b in e.branches && e.branches[b].parent in e.branches
    ensures KeepsShape(e, E.AdvanceFork(e, b)) && b in E.AdvanceFork(e, b).branches
  {
  }

  lemma {:induction false} EngineUpdateCloses(e: E.State, b: Name)
    requires E.Closed(e)
    ensures KeepsShape(e, E.UpdateFromParent(e, b).0)
  {
    if b in e.branches && e.branches[b].parent != "" {
      var parent := e.branches[b].parent;
      var ours, theirs, base := e.branches[b].headCommit, e.branches[parent].headCommit, e.branches[b].forkCommit;
      AdvanceForkCloses(e, b);
      EngineFinishCloses(e, E.AdvanceFork(e, b), b, base, E.MergeStates(e, b, parent, base), [ours, theirs]);
    }
  }

  lemma {:induction false} EngineCreateCloses(e: E.State, name: Name, from: Name)
    requires E.Closed(e)
    ensures KeepsShape(e, E.CreateBranch(e, name, from).0)
  {
  }

  lemma {:induction false} EngineSessionCloses(e: E.State, op: Operation)
    requires E.Closed(e) && (op.OpenSession? || op.SessionWrite? || op.AbandonSession?)
    ensures KeepsShape(e, E.Step(e, op).0)
  {
  }

  lemma {:induction false} EnginePublishCloses(e: E.State, sid: nat)
    requires E.Closed(e)
    ensures KeepsShape(e, E.CommitSession(e, sid).0)
  {
    if E.IsOpen(e, sid) {
      var b, n, id := e.sessions[sid].branch, e.branches[e.sessions[sid].branch].headSeq + 1, e.nextID + 1;
      EngineRecordCloses(e, e, Publish(e.rows, b, sid, id, n), b, n, id, [e.branches[b].headCommit]);
    }
  }

  lemma {:induction false} EngineStepCloses(e: E.State, op: Operation)
    requires E.Closed(e)
    ensures KeepsShape(e, E.Step(e, op).0)
  {
    match op
    case Commit(b, cs) => EngineCommitCloses(e, b, cs);
    case CreateBranch(name, from) => EngineCreateCloses(e, name, from);
    case Merge(from, into) => EngineMergeCloses(e, from, into);
    case UpdateFromParent(b) => EngineUpdateCloses(e, b);
    case CommitSession(sid) => EnginePublishCloses(e, sid);
    case _ => EngineSessionCloses(e, op);
  }

  lemma {:induction false} RecordCloses(m: M.State, b: Name, fork: nat, parents: seq<nat>, t: Table)
    requires M.Closed(m) && b in m.branches
    requires m.branches[b].parent != "" ==> fork in m.commits
    requires forall p :: p in parents ==> p in m.commits
    ensures M.Closed(M.RecordFork(m, b, fork, parents, t))
  {
  }

  lemma {:induction false} FinishCloses(m: M.State, b: Name, base: nat, fork: nat, merged: (Table, seq<Conflict>), parents: seq<nat>)
    requires M.Closed(m) && b in m.branches
    requires m.branches[b].parent != "" ==> fork in m.commits
    requires forall p :: p in parents ==> p in m.commits
    ensures M.Closed(M.Finish(m, b, base, fork, merged, parents).0)
  {
    RecordCloses(m, b, fork, parents, merged.0);
  }

  lemma {:induction false} MergeCloses(m: M.State, from: Name, into: Name)
    requires M.Closed(m)
    ensures M.Closed(M.Merge(m, from, into).0)
  {
    if from in m.branches && into in m.branches {
      var ours, theirs := m.branches[into].head, m.branches[from].head;
      var bases := MergeBases(M.Graph(m), ours, theirs);
      if |bases| == 1 {
        M.BaseKnown(m, ours, theirs, Only(bases));
        FinishCloses(m, into, Only(bases), m.branches[into].forkCommit, M.MergeCommits(m, Only(bases), ours, theirs), [ours, theirs]);
      }
    }
  }

  lemma {:induction false} UpdateCloses(m: M.State, b: Name)
    requires M.Closed(m)
    ensures M.Closed(M.UpdateFromParent(m, b).0)
  {
    if b in m.branches && m.branches[b].parent != "" {
      var ours, theirs, base := m.branches[b].head, m.branches[m.branches[b].parent].head, m.branches[b].forkCommit;
      FinishCloses(m, b, base, theirs, M.MergeCommits(m, base, ours, theirs), [ours, theirs]);
    }
  }

  lemma {:induction false} CommitCloses(m: M.State, b: Name, cs: ChangeSet)
    requires M.Closed(m)
    ensures M.Closed(M.Commit(m, b, cs).0)
  {
    if b in m.branches {
      var head := m.branches[b].head;
      M.SameFork(m, b, [head], M.Apply(m.commits[head].state, cs));
      RecordCloses(m, b, m.branches[b].forkCommit, [head], M.Apply(m.commits[head].state, cs));
    }
  }

  lemma {:induction false} SessionCloses(m: M.State, sid: nat)
    requires M.Closed(m)
    ensures M.Closed(M.CommitSession(m, sid).0)
  {
    if M.IsOpen(m, sid) {
      var b, t := m.sessions[sid].branch, m.sessions[sid].overlay;
      M.SameFork(m, b, [m.branches[b].head], t);
      RecordCloses(m, b, m.branches[b].forkCommit, [m.branches[b].head], t);
    }
  }

  lemma {:induction false} OtherCloses(m: M.State, op: Operation)
    requires M.Closed(m) && (op.CreateBranch? || op.OpenSession? || op.SessionWrite? || op.AbandonSession?)
    ensures M.Closed(M.Step(m, op).0)
  {
  }

  lemma {:induction false} ModelStepCloses(m: M.State, op: Operation)
    requires M.Closed(m)
    ensures M.Closed(M.Step(m, op).0)
  {
    match op
    case Commit(b, cs) => CommitCloses(m, b, cs);
    case Merge(from, into) => MergeCloses(m, from, into);
    case UpdateFromParent(b) => UpdateCloses(m, b);
    case CommitSession(sid) => SessionCloses(m, sid);
    case _ => OtherCloses(m, op);
  }

  /** The engine's state after a run. */
  ghost function Engine(schema: seq<ColID>, run: Run): (e: E.State)
    ensures E.Closed(e) && E.Headed(e)
    decreases |run|
  {
    if run == [] then E.Init(schema)
    else
      var n := |run| - 1;
      EngineStepCloses(Engine(schema, run[..n]), run[n]);
      E.Step(Engine(schema, run[..n]), run[n]).0
  }

  /** The model's state after a run. */
  ghost function Model(schema: seq<ColID>, run: Run): (m: M.State)
    ensures M.Closed(m)
    decreases |run|
  {
    if run == [] then M.Init(schema)
    else
      var n := |run| - 1;
      ModelStepCloses(Model(schema, run[..n]), run[n]);
      M.Step(Model(schema, run[..n]), run[n]).0
  }

  // ----- one step -----

  /** A step of both machines: what it answers, and the states it leads to. */
  datatype Stepping = Stepping(e: E.State, m: M.State, op: Operation, h': History)

  /** The steps with the same outcome on both sides that lead to good states. */
  ghost function Refined(good: iset<Joint>): iset<Stepping> {
    iset s: Stepping |
      && E.Closed(s.e) && M.Closed(s.m)
      && E.Step(s.e, s.op).1 == M.Step(s.m, s.op).1
      && Joint(E.Step(s.e, s.op).0, s.h', M.Step(s.m, s.op).0) in good
  }

  lemma {:induction false} CommitStep(good: iset<Joint>, e: E.State, m: M.State, h': History, b: Name, cs: ChangeSet)
    requires E.Closed(e) && M.Closed(m) && E.Commit(e, b, cs).1 == M.Commit(m, b, cs).1
    requires Joint(E.Commit(e, b, cs).0, h', M.Commit(m, b, cs).0) in good
    ensures Stepping(e, m, Commit(b, cs), h') in Refined(good)
  {
  }

  lemma {:induction false} CreateStep(good: iset<Joint>, e: E.State, m: M.State, h': History, name: Name, from: Name)
    requires E.Closed(e) && M.Closed(m) && E.CreateBranch(e, name, from).1 == M.CreateBranch(m, name, from).1
    requires Joint(E.CreateBranch(e, name, from).0, h', M.CreateBranch(m, name, from).0) in good
    ensures Stepping(e, m, CreateBranch(name, from), h') in Refined(good)
  {
  }

  lemma {:induction false} MergeStep(good: iset<Joint>, e: E.State, m: M.State, h': History, from: Name, into: Name)
    requires E.Closed(e) && M.Closed(m) && E.Merge(e, from, into).1 == M.Merge(m, from, into).1
    requires Joint(E.Merge(e, from, into).0, h', M.Merge(m, from, into).0) in good
    ensures Stepping(e, m, Merge(from, into), h') in Refined(good)
  {
  }

  lemma {:induction false} UpdateStep(good: iset<Joint>, e: E.State, m: M.State, h': History, b: Name)
    requires E.Closed(e) && M.Closed(m) && E.UpdateFromParent(e, b).1 == M.UpdateFromParent(m, b).1
    requires Joint(E.UpdateFromParent(e, b).0, h', M.UpdateFromParent(m, b).0) in good
    ensures Stepping(e, m, UpdateFromParent(b), h') in Refined(good)
  {
  }

  lemma {:induction false} OpenStep(good: iset<Joint>, e: E.State, m: M.State, h': History, b: Name)
    requires E.Closed(e) && M.Closed(m) && E.OpenSession(e, b).1 == M.OpenSession(m, b).1
    requires Joint(E.OpenSession(e, b).0, h', M.OpenSession(m, b).0) in good
    ensures Stepping(e, m, OpenSession(b), h') in Refined(good)
  {
  }

  lemma {:induction false} WriteStep(good: iset<Joint>, e: E.State, m: M.State, h': History, sid: nat, cs: ChangeSet)
    requires E.Closed(e) && M.Closed(m) && E.SessionWrite(e, sid, cs).1 == M.SessionWrite(m, sid, cs).1
    requires Joint(E.SessionWrite(e, sid, cs).0, h', M.SessionWrite(m, sid, cs).0) in good
    ensures Stepping(e, m, SessionWrite(sid, cs), h') in Refined(good)
  {
  }

  lemma {:induction false} PublishStep(good: iset<Joint>, e: E.State, m: M.State, h': History, sid: nat)
    requires E.Closed(e) && M.Closed(m) && E.CommitSession(e, sid).1 == M.CommitSession(m, sid).1
    requires Joint(E.CommitSession(e, sid).0, h', M.CommitSession(m, sid).0) in good
    ensures Stepping(e, m, CommitSession(sid), h') in Refined(good)
  {
  }

  lemma {:induction false} AbandonStep(good: iset<Joint>, e: E.State, m: M.State, h': History, sid: nat)
    requires E.Closed(e) && M.Closed(m)
    requires Joint(E.AbandonSession(e, sid), h', M.AbandonSession(m, sid)) in good
    ensures Stepping(e, m, AbandonSession(sid), h') in Refined(good)
  {
  }

  // Each operation, as a step that refines.

  lemma {:induction false} CommitKeeps(e: E.State, h: History, m: M.State, b: Name, cs: ChangeSet) returns (h': History)
    requires Joint(e, h, m) in Lockstep() && E.Closed(e) && M.Closed(m) && HasRoom(e) && TotalChanges(cs, ColsOf(e))
    ensures Stepping(e, m, Commit(b, cs), h') in Refined(Lockstep())
  {
    h' := CommitRefines(e, h, m, b, cs);
    CommitStep(Lockstep(), e, m, h', b, cs);
  }

  lemma {:induction false} CreateKeeps(e: E.State, h: History, m: M.State, name: Name, from: Name) returns (h': History)
    requires Joint(e, h, m) in Lockstep() && E.Closed(e) && M.Closed(m) && HasRoom(e)
    ensures Stepping(e, m, CreateBranch(name, from), h') in Refined(Lockstep())
  {
    h' := CreateRefines(e, h, m, name, from);
    CreateStep(Lockstep(), e, m, h', name, from);
  }

  lemma {:induction false} MergeKeeps(e: E.State, h: History, m: M.State, from: Name, into: Name) returns (h': History)
    requires Joint(e, h, m) in Lockstep() && E.Closed(e) && M.Closed(m) && HasRoom(e)
    ensures Stepping(e, m, Merge(from, into), h') in Refined(Lockstep())
  {
    h' := MergeRefines(e, h, m, from, into);
    MergeStep(Lockstep(), e, m, h', from, into);
  }

  lemma {:induction false} UpdateKeeps(e: E.State, h: History, m: M.State, b: Name) returns (h': History)
    requires Joint(e, h, m) in Lockstep() && E.Closed(e) && M.Closed(m) && HasRoom(e)
    ensures Stepping(e, m, UpdateFromParent(b), h') in Refined(Lockstep())
  {
    h' := UpdateRefines(e, h, m, b);
    UpdateStep(Lockstep(), e, m, h', b);
  }

  lemma {:induction false} OpenKeeps(e: E.State, h: History, m: M.State, b: Name) returns (h': History)
    requires Joint(e, h, m) in Lockstep() && E.Closed(e) && M.Closed(m) && HasRoom(e)
    ensures Stepping(e, m, OpenSession(b), h') in Refined(Lockstep())
  {
    h' := h;
    OpenRefines(e, h, m, b);
    OpenStep(Lockstep(), e, m, h', b);
  }

  lemma {:induction false} WriteKeeps(e: E.State, h: History, m: M.State, sid: nat, cs: ChangeSet) returns (h': History)
    requires Joint(e, h, m) in Lockstep() && E.Closed(e) && M.Closed(m) && HasRoom(e) && TotalChanges(cs, ColsOf(e))
    ensures Stepping(e, m, SessionWrite(sid, cs), h') in Refined(Lockstep())
  {
    h' := h;
    WriteRefines(e, h, m, sid, cs);
    WriteStep(Lockstep(), e, m, h', sid, cs);
  }

  lemma {:induction false} PublishKeeps(e: E.State, h: History, m: M.State, sid: nat) returns (h': History)
    requires Joint(e, h, m) in Lockstep() && E.Closed(e) && M.Closed(m) && HasRoom(e)
    ensures Stepping(e, m, CommitSession(sid), h') in Refined(Lockstep())
  {
    h' := PublishRefines(e, h, m, sid);
    PublishStep(Lockstep(), e, m, h', sid);
  }

  lemma {:induction false} AbandonKeeps(e: E.State, h: History, m: M.State, sid: nat) returns (h': History)
    requires Joint(e, h, m) in Lockstep() && E.Closed(e) && M.Closed(m) && HasRoom(e)
    ensures Stepping(e, m, AbandonSession(sid), h') in Refined(Lockstep())
  {
    h' := h;
    AbandonRefines(e, h, m, sid);
    AbandonStep(Lockstep(), e, m, h', sid);
  }

  lemma {:induction false} EveryStep(e: E.State, h: History, m: M.State, op: Operation) returns (h': History)
    requires Joint(e, h, m) in Lockstep() && E.Closed(e) && M.Closed(m) && HasRoom(e) && ValidOp(op, ColsOf(e))
    ensures Stepping(e, m, op, h') in Refined(Lockstep())
  {
    match op
    case Commit(b, cs) => h' := CommitKeeps(e, h, m, b, cs);
    case CreateBranch(name, from) => h' := CreateKeeps(e, h, m, name, from);
    case Merge(from, into) => h' := MergeKeeps(e, h, m, from, into);
    case UpdateFromParent(b) => h' := UpdateKeeps(e, h, m, b);
    case OpenSession(b) => h' := OpenKeeps(e, h, m, b);
    case SessionWrite(sid, cs) => h' := WriteKeeps(e, h, m, sid, cs);
    case CommitSession(sid) => h' := PublishKeeps(e, h, m, sid);
    case AbandonSession(sid) => h' := AbandonKeeps(e, h, m, sid);
  }

  /** Every operation has the same outcome on both sides and keeps them in agreement. */
  lemma {:induction false} StepRefines(e: E.State, h: History, m: M.State, op: Operation) returns (h': History)
    requires Joint(e, h, m) in Lockstep() && E.Closed(e) && M.Closed(m) && HasRoom(e) && ValidOp(op, ColsOf(e))
    ensures E.Step(e, op).1 == M.Step(m, op).1
    ensures Joint(E.Step(e, op).0, h', M.Step(m, op).0) in Lockstep()
  {
    h' := EveryStep(e, h, m, op);
  }

  /** No operation changes the schema or issues more than one commit id. */
  lemma {:induction false} StepCounts(e: E.State, op: Operation)
    requires E.Closed(e)
    ensures E.Step(e, op).0.schema == e.schema && E.Step(e, op).0.nextID <= e.nextID + 1
  {
  }

  // ----- whole runs -----

  lemma {:induction false} EngineNext(schema: seq<ColID>, run: Run, op: Operation)
    ensures Engine(schema, run + [op]) == E.Step(Engine(schema, run), op).0
  {
    assert (run + [op])[..|run|] == run;
  }

  lemma {:induction false} ModelNext(schema: seq<ColID>, run: Run, op: Operation)
    ensures Model(schema, run + [op]) == M.Step(Model(schema, run), op).0
  {
    assert (run + [op])[..|run|] == run;
  }

  lemma {:induction false} RunAgrees(schema: seq<ColID>, run: Run) returns (h: History)
    requires Valid(run, schema)
    ensures Joint(Engine(schema, run), h, Model(schema, run)) in Lockstep()
    ensures Engine(schema, run).schema == schema && Engine(schema, run).nextID <= |run| + 1
    decreases |run|
  {
    if run == [] {
      InitAgrees(schema);
      h := InitHistory();
    } else {
      var n := |run| - 1;
      var before := RunAgrees(schema, run[..n]);
      StepCounts(Engine(schema, run[..n]), run[n]);
      h := StepRefines(Engine(schema, run[..n]), before, Model(schema, run[..n]), run[n]);
    }
  }
}
