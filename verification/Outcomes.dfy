/** What every operation answers. */
module Outcomes {
  // In every reachable state: when an operation refuses and how, what a success does, and that
  // a refusal or a conflict changes nothing.

  import opened Wrappers
  import opened Core
  import opened Dag
  import opened Operations
  import opened Versions
  import opened Staging
  import opened Lineage
  import opened ThreeWay
  import opened Conflicts
  import opened Agreement
  import opened Refinement
  import opened MergeRefinement
  import opened ForkRefinement
  import opened Runs
  import opened Theorems
  import opened Guarantees
  import Advance
  import E = IntervalMachine
  import M = SnapshotMachine

  // ----- merges -----

  /** The answer to a merge of one branch's head into another: the merge of the base, the
      branch and the other, whole. It is clean exactly when there is no conflict, and then a
      new commit on both heads makes the branch read as the result; otherwise nothing is
      recorded and nothing changes. */
  ghost predicate Answered(e: E.State, e': E.State, b: Name, other: Name, r: MergeResult)
    requires b in e.branches && other in e.branches
  {
    && r.base in e.commits
    && Merges(E.StateAtCommit(e, r.base), E.Resolve(e, b).value, E.Resolve(e, other).value, ColumnSet(e.schema), r.result, r.conflicts)
    && (r.clean <==> r.conflicts == [])
    && (r.commit != 0 <==> r.conflicts == [])
    && (r.conflicts != [] ==> e' == e)
    && (r.conflicts == [] ==> CommittedOn(e, e', b, r.commit, [E.Head(e, b), E.Head(e, other)], r.result))
  }

  /** The branch has a new commit with these parents, and reads as the table. */
  ghost predicate CommittedOn(e: E.State, e': E.State, b: Name, id: nat, parents: seq<nat>, t: Table) {
    && id !in e.commits && id in e'.commits && e'.commits[id].parents == parents
    && E.StateAtCommit(e', id) == t
    && E.Head(e', b) == id && E.Resolve(e', b) == Some(t)
  }

  /** What Finish answers. */
  lemma {:induction false} FinishAnswers(e: E.State, target: E.State, b: Name, base: nat, merged: (Table, seq<Conflict>), parents: seq<nat>)
    requires b in target.branches && target.nextID == e.nextID
    ensures var (e', o) := E.Finish(e, target, b, base, merged, parents);
      && o.Ok? && o.value.base == base && o.value.result == merged.0 && o.value.conflicts == merged.1
      && (o.value.clean <==> merged.1 == []) && o.value.commit == (if merged.1 == [] then e.nextID + 1 else 0)
      && (merged.1 != [] ==> e' == e)
      && (merged.1 == [] ==> e.nextID + 1 in e'.commits && e'.commits[e.nextID + 1].parents == parents)
  {
  }

  lemma {:induction false} FreshId(e: E.State, h: History, m: M.State)
    requires Joint(e, h, m) in Lockstep()
    ensures e.nextID + 1 !in e.commits
  {
    Advance.NewIdIsNew(e, m);
  }

  /** The three tables of a merge in a reachable state, merged. */
  lemma {:induction false} StatesMerge(schema: seq<ColID>, e: E.State, into: Name, from: Name, base: nat)
    requires Reachable(schema, e) && into in e.branches && from in e.branches && base in e.commits
    ensures var merged := E.MergeStates(e, into, from, base);
      Merges(E.StateAtCommit(e, base), E.Resolve(e, into).value, E.Resolve(e, from).value, ColumnSet(e.schema), merged.0, merged.1)
  {
    var h, m := Paired(schema, e);
    MergeStatesAgree(e, h, m, into, from, base);
    TotalSchema(e, h, m);
    MergeMerges(schema, E.StateAtCommit(e, base), E.Resolve(e, into).value, E.Resolve(e, from).value);
  }

  lemma {:induction false} TotalSchema(e: E.State, h: History, m: M.State)
    requires Joint(e, h, m) in Lockstep()
    ensures DistinctColumns(e.schema) && e.schema == m.schema
  {
  }

  lemma {:induction false} LockedHeadReads(e: E.State, h: History, m: M.State, b: Name)
    requires Joint(e, h, m) in Lockstep() && b in e.branches
    ensures E.Resolve(e, b) == Some(E.StateAtCommit(e, E.Head(e, b))) && E.Head(e, b) in e.commits
  {
    HeadView(e, h, m, b);
    assert HeadResolves(e, b);
  }

  /** Merge, in full: unknown branches and an ambiguous base are refused, everything else is
      answered with the merge over the only base; the target's fork commit stays. */
  lemma {:induction false} MergeAnswers(schema: seq<ColID>, e: E.State, from: Name, into: Name)
    requires Reachable(schema, e)
    ensures from !in e.branches || into !in e.branches ==> E.Merge(e, from, into) == (e, Err(NoBranch))
    ensures from in e.branches && into in e.branches ==>
      var bases := MergeBases(E.Graph(e), E.Head(e, into), E.Head(e, from));
      if |bases| != 1 then E.Merge(e, from, into) == (e, Err(AmbiguousBase(|bases|)))
      else
        var (e', o) := E.Merge(e, from, into);
        o.Ok? && bases == {o.value.base} && Answered(e, e', into, from, o.value) && E.ForkCommit(e', into) == E.ForkCommit(e, into)
  {
    if from in e.branches && into in e.branches {
      var ours, theirs := E.Head(e, into), E.Head(e, from);
      var bases := MergeBases(E.Graph(e), ours, theirs);
      if |bases| == 1 {
        MergeAnswered(schema, e, from, into, Only(bases));
      }
    }
  }

  lemma {:induction false} MergeAnswered(schema: seq<ColID>, e: E.State, from: Name, into: Name, base: nat)
    requires Reachable(schema, e) && from in e.branches && into in e.branches
    requires MergeBases(E.Graph(e), E.Head(e, into), E.Head(e, from)) == {base}
    ensures var (e', o) := E.Merge(e, from, into);
      o.Ok? && o.value.base == base && Answered(e, e', into, from, o.value) && E.ForkCommit(e', into) == E.ForkCommit(e, into)
  {
    var h, m := Paired(schema, e);
    MergeBaseAgrees(e, h, m, into, from);
    var h' := MergeRefines(e, h, m, from, into);
    FreshId(e, h, m);
    StatesMerge(schema, e, into, from, base);
    var merged, parents := E.MergeStates(e, into, from, base), [E.Head(e, into), E.Head(e, from)];
    MergeFinishes(e, from, into, base);
    FinishAnswers(e, e, into, base, merged, parents);
    if merged.1 == [] {
      var r := E.Merge(e, from, into).1.value;
      MergeMeans(schema, e, from, into, r);
      LockedHeadReads(E.Merge(e, from, into).0, h', M.Merge(m, from, into).0, into);
    }
  }

  lemma {:induction false} MergeFinishes(e: E.State, from: Name, into: Name, base: nat)
    requires from in e.branches && into in e.branches
    requires MergeBases(E.Graph(e), E.Head(e, into), E.Head(e, from)) == {base}
    ensures E.Merge(e, from, into) == E.Finish(e, e, into, base, E.MergeStates(e, into, from, base), [E.Head(e, into), E.Head(e, from)])
  {
  }

  /** UpdateFromParent, in full: an unknown branch and one without a parent are refused. When
      the parent's head is the fork commit already, the answer is the branch as it is, clean,
      with no commit, and nothing changes. Otherwise it is the merge over the fork commit, and
      a clean one moves the fork commit to the parent's head. */
  lemma {:induction false} UpdateAnswers(schema: seq<ColID>, e: E.State, b: Name)
    requires Reachable(schema, e)
    ensures b !in e.branches ==> E.UpdateFromParent(e, b) == (e, Err(NoBranch))
    ensures b in e.branches && e.branches[b].parent == "" ==> E.UpdateFromParent(e, b) == (e, Err(BranchHasNoParent))
    ensures b in e.branches && e.branches[b].parent != "" ==> e.branches[b].parent in e.branches
    ensures b in e.branches && e.branches[b].parent != "" ==>
      var parent := e.branches[b].parent;
      if E.Head(e, parent) == E.ForkCommit(e, b)
      then E.UpdateFromParent(e, b) == (e, Ok(MergeResult(E.ForkCommit(e, b), E.Resolve(e, b).value, [], true, 0)))
      else
        var (e', o) := E.UpdateFromParent(e, b);
        && o.Ok? && o.value.base == E.ForkCommit(e, b) && Answered(e, e', b, parent, o.value)
        && (o.value.clean ==> E.ForkCommit(e', b) == E.Head(e, parent))
  {
    if b in e.branches && e.branches[b].parent != "" && E.Head(e, e.branches[b].parent) != E.ForkCommit(e, b) {
      UpdateAnswered(schema, e, b);
    }
  }

  lemma {:induction false} UpdateAnswered(schema: seq<ColID>, e: E.State, b: Name)
    requires Reachable(schema, e) && b in e.branches && e.branches[b].parent != "" && e.branches[b].parent in e.branches
    requires E.Head(e, e.branches[b].parent) != E.ForkCommit(e, b)
    ensures var (e', o) := E.UpdateFromParent(e, b);
      && o.Ok? && o.value.base == E.ForkCommit(e, b) && Answered(e, e', b, e.branches[b].parent, o.value)
      && (o.value.clean ==> E.ForkCommit(e', b) == E.Head(e, e.branches[b].parent))
  {
    var h, m := Paired(schema, e);
    var parent, base := e.branches[b].parent, E.ForkCommit(e, b);
    BranchFacts(e, h, m, b);
    var h' := UpdateRefines(e, h, m, b);
    FreshId(e, h, m);
    StatesMerge(schema, e, b, parent, base);
    var merged, parents := E.MergeStates(e, b, parent, base), [E.Head(e, b), E.Head(e, parent)];
    UpdateFinishes(e, b);
    FinishAnswers(e, E.AdvanceFork(e, b), b, base, merged, parents);
    if merged.1 == [] {
      var r := E.UpdateFromParent(e, b).1.value;
      UpdateMeans(schema, e, b, r);
      LockedHeadReads(E.UpdateFromParent(e, b).0, h', M.UpdateFromParent(m, b).0, b);
    }
  }

  lemma {:induction false} UpdateFinishes(e: E.State, b: Name)
    requires E.Closed(e) && b in e.branches && e.branches[b].parent != "" && E.Head(e, e.branches[b].parent) != E.ForkCommit(e, b)
    ensures var parent, base := e.branches[b].parent, E.ForkCommit(e, b);
      E.UpdateFromParent(e, b) ==
        E.Finish(e, E.AdvanceFork(e, b), b, base, E.MergeStates(e, b, parent, base), [E.Head(e, b), E.Head(e, parent)])
  {
  }

  // ----- commits and branches -----

  /** The change a change set makes to one key. */
  predicate Changed(before: Table, after: Table, cs: ChangeSet, pk: PK) {
    if pk !in cs then Lookup(after, pk) == Lookup(before, pk)
    else if cs[pk].op == Delete then pk !in after
    else pk in after && after[pk] == cs[pk].row
  }

  lemma {:induction false} ChangesApplied(t: Table, cs: ChangeSet)
    ensures forall pk :: Changed(t, M.Apply(t, cs), cs, pk)
  {
  }

  lemma {:induction false} ModelCommitMeans(m: M.State, b: Name, cs: ChangeSet)
    requires M.Closed(m) && b in m.branches
    ensures var m' := M.Commit(m, b, cs).0;
      && M.Closed(m') && M.Head(m', b) == m.nextID + 1
      && M.Resolve(m', b) == Some(M.Apply(m.commits[m.branches[b].head].state, cs))
  {
    CommitCloses(m, b, cs);
    ModelCommitUnfolds(m, b, cs);
  }

  /** What the model recorded, the engine reads back. */
  lemma {:induction false} ReadBack(e': E.State, h': History, m': M.State, b: Name, id: nat)
    requires Joint(e', h', m') in Lockstep() && M.Closed(m') && M.Head(m', b) == id && M.Resolve(m', b).Some?
    ensures E.Head(e', b) == id && E.Resolve(e', b) == M.Resolve(m', b) == Some(E.StateAtCommit(e', id))
  {
    BranchesRead(e', h', m');
    LockedHeadReads(e', h', m', b);
  }

  lemma {:induction false} CommitRecorded(e: E.State, h: History, m: M.State, b: Name, cs: ChangeSet)
    requires Joint(e, h, m) in Lockstep() && M.Closed(m) && HasRoom(e) && TotalChanges(cs, ColsOf(e)) && b in e.branches
    ensures var (e', o) := E.Commit(e, b, cs);
      && o == Ok(e.nextID + 1) && e.nextID + 1 !in e.commits && e.nextID + 1 in e'.commits
      && e'.commits[e.nextID + 1].parents == [E.Head(e, b)] && E.Head(e', b) == e.nextID + 1
      && E.ForkCommit(e', b) == E.ForkCommit(e, b)
  {
    FreshId(e, h, m);
  }

  lemma {:induction false} CommitReadsChanged(e: E.State, h: History, m: M.State, b: Name, cs: ChangeSet)
    requires Joint(e, h, m) in Lockstep() && M.Closed(m) && HasRoom(e) && TotalChanges(cs, ColsOf(e)) && b in e.branches
    ensures var e' := E.Commit(e, b, cs).0;
      E.Resolve(e', b) == Some(M.Apply(E.Resolve(e, b).value, cs)) == Some(E.StateAtCommit(e', E.Head(e', b)))
  {
    var h' := CommitRefines(e, h, m, b, cs);
    HeadView(e, h, m, b);
    BranchFacts(e, h, m, b);
    ModelCommitMeans(m, b, cs);
    ReadBack(E.Commit(e, b, cs).0, h', M.Commit(m, b, cs).0, b, e.nextID + 1);
  }

  lemma {:induction false} CommitAnswered(schema: seq<ColID>, e: E.State, b: Name, cs: ChangeSet)
    requires Reachable(schema, e) && TotalChanges(cs, ColumnSet(schema)) && b in e.branches
    ensures var (e', o) := E.Commit(e, b, cs);
      && o.Ok? && E.ForkCommit(e', b) == E.ForkCommit(e, b)
      && CommittedOn(e, e', b, o.value, [E.Head(e, b)], M.Apply(E.Resolve(e, b).value, cs))
  {
    var h, m := Paired(schema, e);
    CommitRecorded(e, h, m, b, cs);
    CommitReadsChanged(e, h, m, b, cs);
  }

  /** Commit, in full: only an unknown branch is refused; otherwise the branch has a new
      commit on its head, reads as before with exactly the changes made, and keeps its fork
      commit. */
  lemma {:induction false} CommitAnswers(schema: seq<ColID>, e: E.State, b: Name, cs: ChangeSet)
    requires Reachable(schema, e) && TotalChanges(cs, ColumnSet(schema))
    ensures b !in e.branches ==> E.Commit(e, b, cs) == (e, Err(NoBranch))
    ensures b in e.branches ==>
      var (e', o) := E.Commit(e, b, cs);
      && o.Ok? && E.Resolve(e', b).Some?
      && CommittedOn(e, e', b, o.value, [E.Head(e, b)], E.Resolve(e', b).value)
      && (forall pk :: Changed(E.Resolve(e, b).value, E.Resolve(e', b).value, cs, pk))
      && E.ForkCommit(e', b) == E.ForkCommit(e, b)
  {
    if b in e.branches {
      CommitAnswered(schema, e, b, cs);
      ChangesApplied(E.Resolve(e, b).value, cs);
    }
  }

  /** CreateBranch, in full: a name in use and an unknown parent are refused; otherwise the
      new branch reads as its parent does, and its head and fork commit are the parent's
      head. */
  lemma {:induction false} CreateAnswers(schema: seq<ColID>, e: E.State, name: Name, from: Name)
    requires Reachable(schema, e)
    ensures name in e.branches ==> E.CreateBranch(e, name, from) == (e, Err(BranchExists))
    ensures name !in e.branches && from !in e.branches ==> E.CreateBranch(e, name, from) == (e, Err(NoParentBranch))
    ensures name !in e.branches && from in e.branches ==>
      var (e', o) := E.CreateBranch(e, name, from);
      && o == Ok(()) && name in e'.branches && e'.branches[name].parent == from
      && E.Resolve(e', name) == E.Resolve(e, from)
      && E.Head(e', name) == E.ForkCommit(e', name) == E.Head(e, from)
      && e'.commits == e.commits
  {
    if name !in e.branches && from in e.branches {
      var h, m := Paired(schema, e);
      var h' := CreateRefines(e, h, m, name, from);
      LockedHeadReads(e, h, m, from);
      LockedHeadReads(E.CreateBranch(e, name, from).0, h', M.CreateBranch(m, name, from).0, name);
    }
  }

  // ----- sessions -----

  /** OpenSession, in full: an unknown branch and the root branch are refused; otherwise a
      session with a new id is open on the branch's head and sees what the branch reads. */
  lemma {:induction false} OpenAnswers(schema: seq<ColID>, e: E.State, b: Name)
    requires Reachable(schema, e)
    ensures b !in e.branches ==> E.OpenSession(e, b) == (e, Err(NoBranch))
    ensures b in e.branches && b == ROOT ==> E.OpenSession(e, b) == (e, Err(SessionsNotPermitted))
    ensures b in e.branches && b != ROOT ==>
      var (e', o) := E.OpenSession(e, b);
      && o.Ok? && o.value !in e.sessions && E.IsOpen(e', o.value)
      && e'.sessions[o.value].branch == b && e'.sessions[o.value].base == E.Head(e, b)
      && E.SessionResolve(e', o.value) == E.Resolve(e, b)
      && e'.branches == e.branches && e'.commits == e.commits
  {
    if b in e.branches && b != ROOT {
      OpenMeans(schema, e, b, e.nextSess + 1);
    }
  }

  /** SessionWrite, in full: only a session that is not open is refused; otherwise exactly
      the changes are made to what the session sees. */
  lemma {:induction false} WriteAnswers(schema: seq<ColID>, e: E.State, sid: nat, cs: ChangeSet)
    requires Reachable(schema, e) && TotalChanges(cs, ColumnSet(schema))
    ensures !E.IsOpen(e, sid) ==> E.SessionWrite(e, sid, cs) == (e, Err(NoOpenSession))
    ensures E.IsOpen(e, sid) ==>
      var (e', o) := E.SessionWrite(e, sid, cs);
      && o == Ok(()) && E.SessionResolve(e, sid).Some? && E.SessionResolve(e', sid).Some?
      && (forall pk :: Changed(E.SessionResolve(e, sid).value, E.SessionResolve(e', sid).value, cs, pk))
      && e'.branches == e.branches && e'.commits == e.commits && e'.sessions == e.sessions
  {
    if E.IsOpen(e, sid) {
      WriteMeans(schema, e, sid, cs);
      ChangesApplied(E.SessionResolve(e, sid).value, cs);
    }
  }

  /** CommitSession, in full: a session that is not open is refused, and so is one whose
      branch has a new head since it was opened; otherwise the branch has a new commit on its
      head that reads as the session did, and the session is closed. */
  lemma {:induction false} PublishAnswers(schema: seq<ColID>, e: E.State, sid: nat)
    requires Reachable(schema, e)
    ensures !E.IsOpen(e, sid) ==> E.CommitSession(e, sid) == (e, Err(NoOpenSession))
    ensures E.IsOpen(e, sid) && E.Head(e, e.sessions[sid].branch) != e.sessions[sid].base ==>
      E.CommitSession(e, sid) == (e, Err(BranchMoved))
    ensures E.IsOpen(e, sid) && E.Head(e, e.sessions[sid].branch) == e.sessions[sid].base ==>
      var (e', o) := E.CommitSession(e, sid);
      && o.Ok? && E.SessionResolve(e, sid).Some?
      && CommittedOn(e, e', e.sessions[sid].branch, o.value, [e.sessions[sid].base], E.SessionResolve(e, sid).value)
      && !E.IsOpen(e', sid) && E.SessionResolve(e', sid) == None
  {
    if E.IsOpen(e, sid) && E.Head(e, e.sessions[sid].branch) == e.sessions[sid].base {
      PublishAnswered(schema, e, sid);
    }
  }

  lemma {:induction false} NewIds(schema: seq<ColID>, e: E.State)
    requires Reachable(schema, e)
    ensures e.nextID + 1 !in e.commits && E.Closed(e)
  {
    var h, m := Paired(schema, e);
    FreshId(e, h, m);
  }

  lemma {:induction false} PublishAnswered(schema: seq<ColID>, e: E.State, sid: nat)
    requires Reachable(schema, e) && E.IsOpen(e, sid) && E.Head(e, e.sessions[sid].branch) == e.sessions[sid].base
    ensures var (e', o) := E.CommitSession(e, sid);
      && o.Ok? && E.SessionResolve(e, sid).Some?
      && CommittedOn(e, e', e.sessions[sid].branch, o.value, [e.sessions[sid].base], E.SessionResolve(e, sid).value)
      && !E.IsOpen(e', sid) && E.SessionResolve(e', sid) == None
  {
    NewIds(schema, e);
    PublishRecord(e, sid);
    PublishMeans(schema, e, sid, e.nextID + 1);
  }

  lemma {:induction false} PublishRecord(e: E.State, sid: nat)
    requires E.Closed(e) && E.IsOpen(e, sid) && E.Head(e, e.sessions[sid].branch) == e.sessions[sid].base
    ensures var (e', o) := E.CommitSession(e, sid);
      && o == Ok(e.nextID + 1) && e.nextID + 1 in e'.commits
      && e'.commits[e.nextID + 1].parents == [e.sessions[sid].base] && !E.IsOpen(e', sid)
  {
  }

  /** AbandonSession, in full: the session is closed, none of its staged rows is left, every
      other row is still there, and branches and commits are what they were. */
  lemma {:induction false} AbandonAnswers(schema: seq<ColID>, e: E.State, sid: nat)
    requires Reachable(schema, e)
    ensures var e' := E.AbandonSession(e, sid);
      && !E.IsOpen(e', sid) && E.SessionResolve(e', sid) == None
      && e'.branches == e.branches && e'.commits == e.commits && e'.sessions.Keys == e.sessions.Keys
      && (sid != 0 ==> forall v :: v in e'.rows <==> v in e.rows && v.session != sid)
  {
    DropMembers(e.rows, sid);
    if sid !in e.sessions && sid != 0 {
      NothingStagedBy(schema, e, sid);
    }
  }

  lemma {:induction false} NothingStagedBy(schema: seq<ColID>, e: E.State, sid: nat)
    requires Reachable(schema, e) && sid !in e.sessions && sid != 0
    ensures forall v :: v in e.rows ==> v.session != sid
  {
    forall v | v in e.rows && v.session != 0
      ensures v.session != sid
    {
      var i :| 0 <= i < |e.rows| && e.rows[i] == v;
      StagedRowsOwned(schema, e, i);
    }
  }
}
