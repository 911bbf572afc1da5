/** What every reachable engine state guarantees. */
module Guarantees {
  import opened Wrappers
  import opened Core
  import opened Dag
  import opened Operations
  import opened Versions
  import opened Tiling
  import opened Staging
  import opened Lineage
  import opened ThreeWay
  import opened Agreement
  import opened Refinement
  import opened Scans
  import opened MergeRefinement
  import opened ForkRefinement
  import opened SessionRefinement
  import opened Runs
  import opened Theorems
  import opened Changes
  import opened Query
  import E = IntervalMachine
  import M = SnapshotMachine

  /** Some run from the empty repository leads to the state. */
  ghost predicate Reachable(schema: seq<ColID>, e: E.State) {
    exists run :: Valid(run, schema) && Engine(schema, run) == e
  }

  /** A reachable state has a history and a model state it agrees with, its tables are
      closed, and every branch has room for one more seq. */
  lemma {:induction false} Paired(schema: seq<ColID>, e: E.State) returns (h: History, m: M.State)
    requires Reachable(schema, e)
    ensures Joint(e, h, m) in Lockstep() && M.Closed(m) && e.schema == schema
    ensures E.Closed(e) && E.Headed(e) && HasRoom(e)
  {
    var run :| Valid(run, schema) && Engine(schema, run) == e;
    h := RunAgrees(schema, run);
    m := Model(schema, run);
  }

  // ----- tiling -----

  lemma {:induction false} StoreTiles(e: E.State, h: History, m: M.State)
    requires Joint(e, h, m) in Lockstep() && HasRoom(e)
    ensures Tiled(e.rows, Heads(h)) && Followed(e.rows)
    ensures forall b :: b in Heads(h) ==> Heads(h)[b] < MAX_SEQ - 1
  {
    forall b | b in Heads(h)
      ensures Heads(h)[b] < MAX_SEQ - 1
    {
      assert BranchTracked(e, h, b);
    }
  }

  /** Interval tiling: in every reachable state, per branch and key, every seq from
      the first version's start on is covered by exactly one committed version. */
  lemma {:induction false} IntervalsTile(schema: seq<ColID>, e: E.State, i: int, s: int)
    requires Reachable(schema, e)
    requires 0 <= i < |e.rows| && e.rows[i].session == 0 && e.rows[i].from <= s < MAX_SEQ
    ensures CoveredOnce(e.rows, e.rows[i].branch, s, e.rows[i].pk)
  {
    var h, m := Paired(schema, e);
    StoreTiles(e, h, m);
    TilesExactly(e.rows, Heads(h), i, s);
  }

  /** And exactly one version of each key a branch ever wrote is open. */
  lemma {:induction false} OneOpenVersion(schema: seq<ColID>, e: E.State, i: int)
    requires Reachable(schema, e)
    requires 0 <= i < |e.rows| && e.rows[i].session == 0
    ensures exists j ::
      && 0 <= j < |e.rows|
      && OpenFor(e.rows[j], e.rows[i].branch, e.rows[i].pk)
      && forall k :: 0 <= k < |e.rows| && OpenFor(e.rows[k], e.rows[i].branch, e.rows[i].pk) ==> k == j
  {
    var h, m := Paired(schema, e);
    StoreTiles(e, h, m);
    OneOpen(e.rows, Heads(h), i);
  }

  /** Staged rows belong to open sessions, on the session's branch, at most one per
      key; and the root branch never holds one. */
  lemma {:induction false} StagedRowsOwned(schema: seq<ColID>, e: E.State, i: int)
    requires Reachable(schema, e)
    requires 0 <= i < |e.rows| && e.rows[i].session != 0
    ensures E.IsOpen(e, e.rows[i].session) && e.rows[i].branch == e.sessions[e.rows[i].session].branch
    ensures e.rows[i].branch != ROOT
    ensures forall j :: 0 <= j < |e.rows| && Staged(e.rows[j], e.rows[i].session, e.rows[i].pk) ==> j == i
  {
    var h, m := Paired(schema, e);
    assert e.rows[i].session in Owners(e);
    SessionFacts(e, h, m, e.rows[i].session);
    assert StagedUnique(e.rows);
  }

  // ----- masks -----

  /** Mask soundness: in every reachable state, for any branch and any commit, a cell
      on which the branch's view and the commit's state differ, an absent row read as
      all NULL, has its bit in the mask since that commit. */
  lemma {:induction false} MasksSound(schema: seq<ColID>, e: E.State, b: Name, base: nat, pk: PK, c: ColID)
    requires Reachable(schema, e) && b in e.branches && base in e.commits
    requires Cell(E.Resolve(e, b).value, pk, c) != Cell(E.StateAtCommit(e, base), pk, c)
    ensures c in E.MaskFor(e, b, base, pk)
  {
    var h, m := Paired(schema, e);
    MaskForSound(e, h, m, b, base, pk, c);
  }

  /** And no bit is there without a reason: the mask of a branch since a commit has exactly the
      columns marked by versions of the key that are in the past of one of the two and not of
      the other. */
  lemma {:induction false} MasksExact(schema: seq<ColID>, e: E.State, b: Name, base: nat, pk: PK, c: ColID)
    requires Reachable(schema, e) && b in e.branches && base in e.commits
    ensures c in E.MaskFor(e, b, base, pk) <==>
      exists i :: 0 <= i < |e.rows| && Marks(e.rows[i], E.HeadChain(e, b), e.commits[base].chain, pk, c)
  {
    var h, m := Paired(schema, e);
    ChainsApart(e, h, m, b, base);
    StoreTiles(e, h, m);
    if c in E.MaskFor(e, b, base, pk) {
      var k := MaskIsMark(e.rows, E.HeadChain(e, b), e.commits[base].chain, pk, c);
    }
    if i :| 0 <= i < |e.rows| && Marks(e.rows[i], E.HeadChain(e, b), e.commits[base].chain, pk, c) {
      assert InRange(e.rows[i], Heads(h));
      MarkIsMask(e.rows, E.HeadChain(e, b), e.commits[base].chain, pk, c, i);
      MaskIsWritten(e.rows, E.HeadChain(e, b), e.commits[base].chain, pk, c);
    }
  }

  lemma {:induction false} ChainsApart(e: E.State, h: History, m: M.State, b: Name, base: nat)
    requires Joint(e, h, m) in Lockstep() && b in e.branches && base in e.commits
    ensures forall i, j :: 0 <= i < j < |E.HeadChain(e, b)| ==> E.HeadChain(e, b)[i].branch != E.HeadChain(e, b)[j].branch
    ensures forall i, j :: 0 <= i < j < |e.commits[base].chain| ==> e.commits[base].chain[i].branch != e.commits[base].chain[j].branch
  {
    HeadView(e, h, m, b);
    assert CommitTracked(e, h, base);
    DistinctBranches(h, E.HeadChain(e, b));
    DistinctBranches(h, e.commits[base].chain);
  }

  /** So the narrowed merge of any two branches over any commit is the full one. */
  lemma {:induction false} MergesInFull(schema: seq<ColID>, e: E.State, into: Name, from: Name, base: nat)
    requires Reachable(schema, e) && into in e.branches && from in e.branches && base in e.commits
    ensures var b, a, t := E.StateAtCommit(e, base), E.Resolve(e, into).value, E.Resolve(e, from).value;
      E.MergeStates(e, into, from, base) == (MergedTable(schema, b, a, t, Everything), MergeConflicts(schema, b, a, t, Everything))
  {
    var h, m := Paired(schema, e);
    MergeStatesAgree(e, h, m, into, from, base);
  }

  // ----- the merge base -----

  lemma {:induction false} ReachesRoot(e: E.State, m: M.State, id: nat)
    requires SameGraph(e, m) && id in e.commits
    ensures Reaches(E.Graph(e), id, 1)
    decreases id
  {
    assert CommitAgrees(e, m, id);
    if id == 1 {
      ReachesSelf(E.Graph(e), 1);
    } else {
      var p := e.commits[id].parents[0];
      assert p in e.commits[id].parents;
      ReachesRoot(e, m, p);
      ReachesSelf(E.Graph(e), id);
      ReachesStep(E.Graph(e), id, id, p);
      ReachesTransitive(E.Graph(e), id, p, 1);
    }
  }

  /** The merge base of any two commits exists, and its candidates are the common
      ancestors no other common ancestor descends to: none is an ancestor of another,
      and every common ancestor is reached from one of them. */
  lemma {:induction false} MergeBaseExact(schema: seq<ColID>, e: E.State, a: nat, b: nat, x: nat)
    requires Reachable(schema, e) && a in e.commits && b in e.commits
    ensures MergeBases(E.Graph(e), a, b) != {}
    ensures forall p, q :: p in MergeBases(E.Graph(e), a, b) && q in MergeBases(E.Graph(e), a, b) && p != q ==> !Reaches(E.Graph(e), p, q)
    ensures Common(E.Graph(e), a, b, x) <==> exists base :: base in MergeBases(E.Graph(e), a, b) && Reaches(E.Graph(e), base, x)
  {
    var h, m := Paired(schema, e);
    var g := E.Graph(e);
    GraphsAgree(e, m);
    forall id | id in g
      ensures Reaches(g, id, 1)
    {
      ReachesRoot(e, m, id);
    }
    BasesExist(g, a, b, 1);
    if Common(g, a, b, x) {
      var base := BasesCover(g, a, b, x);
    }
    forall base | base in MergeBases(g, a, b) && Reaches(g, base, x)
      ensures Common(g, a, b, x)
    {
      ReachesTransitive(g, a, base, x);
      ReachesTransitive(g, b, base, x);
    }
  }

  // ----- branches read as commits -----

  /** A branch reads as its head commit, and what it inherits reads as its fork
      commit, whether or not it has commits of its own. */
  lemma {:induction false} BranchReadsCommits(schema: seq<ColID>, e: E.State, b: Name)
    requires Reachable(schema, e) && b in e.branches
    ensures E.Resolve(e, b) == Some(E.StateAtCommit(e, E.Head(e, b)))
    ensures b != ROOT ==> View(e.rows, e.branches[b].chain) == E.StateAtCommit(e, E.ForkCommit(e, b))
  {
    var h, m := Paired(schema, e);
    assert HeadResolves(e, b);
  }

  // ----- what the operations mean -----

  /** The three-way merge a clean Merge or UpdateFromParent performs. */
  ghost predicate MergedFrom(schema: seq<ColID>, base: Table, ours: Table, theirs: Table, result: Table) {
    && result == MergedTable(schema, base, ours, theirs, Everything)
    && ThreeWayTables(base, ours, theirs, result)
  }

  lemma {:induction false} CleanMeans(m: M.State, cols: set<ColID>, base: nat, ours: nat, theirs: nat)
    requires base in m.commits && ours in m.commits && theirs in m.commits && DistinctColumns(m.schema) && cols == ColumnSet(m.schema)
    requires Total(m.commits[base].state, cols) && Total(m.commits[ours].state, cols) && Total(m.commits[theirs].state, cols)
    requires M.MergeCommits(m, base, ours, theirs).1 == []
    ensures MergedFrom(m.schema, m.commits[base].state, m.commits[ours].state, m.commits[theirs].state, M.MergeCommits(m, base, ours, theirs).0)
  {
    CleanMerge(m.schema, m.commits[base].state, m.commits[ours].state, m.commits[theirs].state);
  }

  lemma {:induction false} ModelRecordReads(m: M.State, b: Name, fork: nat, parents: seq<nat>, t: Table)
    requires M.Closed(m) && b in m.branches && M.Closed(M.RecordFork(m, b, fork, parents, t))
    ensures var m' := M.RecordFork(m, b, fork, parents, t);
      && M.Resolve(m', b) == Some(t) && M.Head(m', b) == m.nextID + 1 && M.ForkCommit(m', b) == fork
      && m.nextID + 1 in m'.commits && m'.commits[m.nextID + 1].parents == parents && m'.commits[m.nextID + 1].state == t
  {
  }

  /** What an applied update did in the model. */
  lemma {:induction false} ModelUpdateMeans(m: M.State, b: Name, r: MergeResult)
    requires M.Closed(m) && M.UpdateFromParent(m, b).1 == Ok(r) && r.commit != 0
    ensures b in m.branches && m.branches[b].parent != ""
    ensures var ours, theirs, base := m.branches[b].head, m.branches[m.branches[b].parent].head, m.branches[b].forkCommit;
      && M.MergeCommits(m, base, ours, theirs) == (r.result, [])
      && M.UpdateFromParent(m, b).0 == M.RecordFork(m, b, theirs, [ours, theirs], r.result)
      && r.commit == m.nextID + 1 && r.base == base
  {
    assert b in m.branches && m.branches[b].parent != "";
    ModelUpdateUnfolds(m, b);
  }

  /** The sides of an update, read from the engine and from the model. */
  lemma {:induction false} UpdateSides(e: E.State, h: History, m: M.State, b: Name)
    requires Joint(e, h, m) in Lockstep() && M.Closed(m) && b in e.branches && b != ROOT
    ensures b in m.branches && e.branches[b].parent in e.branches && e.branches[b].parent == m.branches[b].parent
    ensures e.branches[b].parent in m.branches
    ensures m.branches[b].forkCommit in m.commits && E.StateAtCommit(e, E.ForkCommit(e, b)) == m.commits[m.branches[b].forkCommit].state
    ensures E.Resolve(e, b) == Some(m.commits[m.branches[b].head].state)
    ensures m.branches[m.branches[b].parent].head in m.commits
    ensures E.Resolve(e, e.branches[b].parent) == Some(m.commits[m.branches[m.branches[b].parent].head].state)
    ensures E.Head(e, e.branches[b].parent) == m.branches[m.branches[b].parent].head && E.Head(e, b) == m.branches[b].head
    ensures Total(m.commits[m.branches[b].forkCommit].state, ColsOf(e)) && Total(m.commits[m.branches[b].head].state, ColsOf(e))
    ensures Total(m.commits[m.branches[m.branches[b].parent].head].state, ColsOf(e)) && DistinctColumns(m.schema) && m.schema == e.schema
  {
    BranchFacts(e, h, m, b);
    HeadView(e, h, m, b);
    BranchFacts(e, h, m, e.branches[b].parent);
    HeadView(e, h, m, e.branches[b].parent);
    assert SnapshotAgrees(e, m, e.branches[b].forkCommit);
  }

  lemma {:induction false} ParentIsNotRoot(e: E.State, h: History, m: M.State, b: Name)
    requires Joint(e, h, m) in Lockstep() && b in m.branches && m.branches[b].parent != ""
    ensures b in e.branches && b != ROOT
  {
    BranchFacts(e, h, m, b);
  }

  /** UpdateFromParent keeps its meaning: after a clean update the branch reads as the
      three-way merge of what it forked from, itself and its parent, though only rows
      that differ from the newly inherited view were written; its fork commit is the
      parent's head, and what it inherits reads as that commit. */
  lemma {:induction false} UpdateMeans(schema: seq<ColID>, e: E.State, b: Name, r: MergeResult)
    requires Reachable(schema, e)
    requires E.UpdateFromParent(e, b).1 == Ok(r) && r.commit != 0
    ensures b in e.branches && e.branches[b].parent in e.branches
    ensures MergedFrom(schema, E.StateAtCommit(e, E.ForkCommit(e, b)), E.Resolve(e, b).value, E.Resolve(e, e.branches[b].parent).value, r.result)
    ensures var e' := E.UpdateFromParent(e, b).0;
      && E.Resolve(e', b) == Some(r.result) && E.Head(e', b) == r.commit
      && E.ForkCommit(e', b) == E.Head(e, e.branches[b].parent)
      && b in e'.branches && View(e'.rows, e'.branches[b].chain) == E.StateAtCommit(e', E.ForkCommit(e', b))
  {
    var h, m := Paired(schema, e);
    var h' := UpdateRefines(e, h, m, b);
    UpdateCloses(m, b);
    ModelUpdateMeans(m, b, r);
    ParentIsNotRoot(e, h, m, b);
    UpdateSides(e, h, m, b);
    var ours, theirs, base := m.branches[b].head, m.branches[m.branches[b].parent].head, m.branches[b].forkCommit;
    CleanMeans(m, ColsOf(e), base, ours, theirs);
    ModelRecordReads(m, b, theirs, [ours, theirs], r.result);
    UpdatedReads(E.UpdateFromParent(e, b).0, h', M.UpdateFromParent(m, b).0, b);
  }

  lemma {:induction false} UpdatedReads(e: E.State, h: History, m: M.State, b: Name)
    requires Joint(e, h, m) in Lockstep() && M.Closed(m) && b in m.branches && b != ROOT
    ensures b in e.branches && E.Resolve(e, b) == M.Resolve(m, b) && E.Head(e, b) == M.Head(m, b) && E.ForkCommit(e, b) == M.ForkCommit(m, b)
    ensures View(e.rows, e.branches[b].chain) == E.StateAtCommit(e, E.ForkCommit(e, b))
  {
    BranchesRead(e, h, m);
    assert HeadResolves(e, b);
  }

  // ----- Merge -----

  /** What an applied merge did in the model. */
  lemma {:induction false} ModelMergeMeans(m: M.State, from: Name, into: Name, r: MergeResult)
    requires M.Closed(m) && M.Merge(m, from, into).1 == Ok(r) && r.commit != 0
    ensures from in m.branches && into in m.branches && r.base in m.commits
    ensures var ours, theirs := m.branches[into].head, m.branches[from].head;
      && MergeBases(M.Graph(m), ours, theirs) == {r.base}
      && M.MergeCommits(m, r.base, ours, theirs) == (r.result, [])
      && M.Merge(m, from, into).0 == M.RecordFork(m, into, m.branches[into].forkCommit, [ours, theirs], r.result)
      && r.commit == m.nextID + 1
  {
    var ours, theirs := m.branches[into].head, m.branches[from].head;
    var bases := MergeBases(M.Graph(m), ours, theirs);
    assert |bases| == 1;
    M.BaseKnown(m, ours, theirs, Only(bases));
  }

  lemma {:induction false} MergeSides(e: E.State, h: History, m: M.State, base: nat, into: Name, from: Name)
    requires Joint(e, h, m) in Lockstep() && M.Closed(m) && into in e.branches && from in e.branches && base in e.commits
    ensures into in m.branches && from in m.branches && base in m.commits && E.StateAtCommit(e, base) == m.commits[base].state
    ensures E.Resolve(e, into) == Some(m.commits[m.branches[into].head].state)
    ensures E.Resolve(e, from) == Some(m.commits[m.branches[from].head].state)
    ensures Total(m.commits[base].state, ColsOf(e)) && Total(m.commits[m.branches[into].head].state, ColsOf(e))
    ensures Total(m.commits[m.branches[from].head].state, ColsOf(e)) && DistinctColumns(m.schema) && m.schema == e.schema
  {
    HeadView(e, h, m, into);
    HeadView(e, h, m, from);
    assert SnapshotAgrees(e, m, base);
    BranchFacts(e, h, m, into);
    BranchFacts(e, h, m, from);
  }

  lemma {:induction false} SameBranchSet(e: E.State, h: History, m: M.State)
    requires Joint(e, h, m) in Lockstep()
    ensures e.branches.Keys == m.branches.Keys && e.commits.Keys == m.commits.Keys && E.Graph(e) == M.Graph(m)
  {
    GraphsAgree(e, m);
  }

  /** Merge keeps its meaning: after a clean merge the target reads as the three-way
      merge of the only merge base, itself and the source, and its fork commit is
      where it was. */
  lemma {:induction false} MergeMeans(schema: seq<ColID>, e: E.State, from: Name, into: Name, r: MergeResult)
    requires Reachable(schema, e)
    requires E.Merge(e, from, into).1 == Ok(r) && r.commit != 0
    ensures from in e.branches && into in e.branches
    ensures MergeBases(E.Graph(e), E.Head(e, into), E.Head(e, from)) == {r.base}
    ensures MergedFrom(schema, E.StateAtCommit(e, r.base), E.Resolve(e, into).value, E.Resolve(e, from).value, r.result)
    ensures var e' := E.Merge(e, from, into).0;
      E.Resolve(e', into) == Some(r.result) && E.Head(e', into) == r.commit && E.ForkCommit(e', into) == E.ForkCommit(e, into)
  {
    var h, m := Paired(schema, e);
    var h' := MergeRefines(e, h, m, from, into);
    MergeCloses(m, from, into);
    ModelMergeMeans(m, from, into, r);
    SameBranchSet(e, h, m);
    MergeSides(e, h, m, r.base, into, from);
    var ours, theirs := m.branches[into].head, m.branches[from].head;
    CleanMeans(m, ColsOf(e), r.base, ours, theirs);
    ModelRecordReads(m, into, m.branches[into].forkCommit, [ours, theirs], r.result);
    BranchesRead(e, h, m);
    BranchesRead(E.Merge(e, from, into).0, h', M.Merge(m, from, into).0);
  }

  // ----- sessions -----

  lemma {:induction false} ModelOpenMeans(m: M.State, b: Name, sid: nat)
    requires M.Closed(m) && M.OpenSession(m, b).1 == Ok(sid)
    ensures sid == m.nextSess + 1 && M.SessionResolve(M.OpenSession(m, b).0, sid) == M.Resolve(m, b)
  {
  }

  /** A new session sees the branch as it is. */
  lemma {:induction false} OpenMeans(schema: seq<ColID>, e: E.State, b: Name, sid: nat)
    requires Reachable(schema, e) && E.OpenSession(e, b).1 == Ok(sid)
    ensures sid !in e.sessions && E.SessionResolve(E.OpenSession(e, b).0, sid) == E.Resolve(e, b)
  {
    var h, m := Paired(schema, e);
    OpenRefines(e, h, m, b);
    SessionIdsBounded(e, m);
    ModelOpenMeans(m, b, sid);
    BranchesRead(e, h, m);
    SameResolve(e, m, b);
    var e', m' := E.OpenSession(e, b).0, M.OpenSession(m, b).0;
    SessionsRead(e', h, m');
    SameSessionResolve(e', m', sid);
  }

  lemma {:induction false} SameResolve(e: E.State, m: M.State, b: Name)
    requires M.Closed(m) && SameBranchReadings(e, m)
    ensures E.Resolve(e, b) == M.Resolve(m, b)
  {
  }

  lemma {:induction false} SameSessionResolve(e: E.State, m: M.State, sid: nat)
    requires SameSessionReadings(e, m)
    ensures E.SessionResolve(e, sid) == M.SessionResolve(m, sid)
  {
  }

  /** Writing in a session changes what it sees by exactly the change set. */
  lemma {:induction false} WriteMeans(schema: seq<ColID>, e: E.State, sid: nat, cs: ChangeSet)
    requires Reachable(schema, e) && E.IsOpen(e, sid) && TotalChanges(cs, ColumnSet(schema))
    ensures E.SessionResolve(e, sid).Some?
    ensures E.SessionResolve(E.SessionWrite(e, sid, cs).0, sid) == Some(M.Apply(E.SessionResolve(e, sid).value, cs))
  {
    var h, m := Paired(schema, e);
    WriteRefines(e, h, m, sid, cs);
    SessionFacts(e, h, m, sid);
    SessionsRead(e, h, m);
    assert E.SessionResolve(e, sid) == M.SessionResolve(m, sid);
    SessionsRead(E.SessionWrite(e, sid, cs).0, h, M.SessionWrite(m, sid, cs).0);
    assert E.SessionResolve(E.SessionWrite(e, sid, cs).0, sid) == M.SessionResolve(M.SessionWrite(m, sid, cs).0, sid);
  }

  lemma {:induction false} ModelPublishMeans(m: M.State, sid: nat, id: nat)
    requires M.Closed(m) && M.CommitSession(m, sid).1 == Ok(id)
    ensures M.IsOpen(m, sid) && m.sessions[sid].branch in m.branches
    ensures var m', b := M.CommitSession(m, sid).0, m.sessions[sid].branch;
      && M.Closed(m') && id in m'.commits && m'.commits[id].state == m.sessions[sid].overlay
      && M.Resolve(m', b) == Some(m.sessions[sid].overlay) && M.Head(m', b) == id
      && M.SessionResolve(m', sid) == None
  {
    SessionCloses(m, sid);
  }

  /** Sessions publish what was seen: a successful commit records exactly the
      session's view, the branch then reads as it, and the session is closed. */
  lemma {:induction false} PublishMeans(schema: seq<ColID>, e: E.State, sid: nat, id: nat)
    requires Reachable(schema, e) && E.CommitSession(e, sid).1 == Ok(id)
    ensures E.IsOpen(e, sid) && E.SessionResolve(e, sid).Some?
    ensures var e', b := E.CommitSession(e, sid).0, e.sessions[sid].branch;
      && id in e'.commits && Some(E.StateAtCommit(e', id)) == E.SessionResolve(e, sid)
      && E.Resolve(e', b) == E.SessionResolve(e, sid) && E.Head(e', b) == id
      && E.SessionResolve(e', sid) == None
  {
    var h, m := Paired(schema, e);
    var h' := PublishRefines(e, h, m, sid);
    ModelPublishMeans(m, sid, id);
    SessionsRead(e, h, m);
    assert E.SessionResolve(e, sid) == M.SessionResolve(m, sid);
    SessionFacts(e, h, m, sid);
    var e', m' := E.CommitSession(e, sid).0, M.CommitSession(m, sid).0;
    BranchesRead(e', h', m');
    CommitsRead(e', h', m');
    SessionsRead(e', h', m');
    assert E.SessionResolve(e', sid) == M.SessionResolve(m', sid);
  }

  // ----- filtered reads and diffs -----

  /** On a reachable store the resolution query denotes what it should, for any chain,
      session, key filter and row filter. */
  lemma {:induction false} QueriesDenote(schema: seq<ColID>, e: E.State, spec: Spec, t: Table)
    requires Reachable(schema, e)
    ensures Answer(e.rows, spec, t) <==> forall pk :: Lookup(t, pk) == Wanted(spec, pk, Resolution(e.rows, spec, pk))
  {
    var h, m := Paired(schema, e);
    QueryDenotes(e.rows, spec, t);
  }

  /** The query for a branch's head chain and no filter has one answer: the branch. */
  lemma {:induction false} BranchQuery(schema: seq<ColID>, e: E.State, b: Name, t: Table)
    requires Reachable(schema, e) && b in e.branches
    ensures Answer(e.rows, Spec(E.HeadChain(e, b), 0, _ => true, None), t) <==> Some(t) == E.Resolve(e, b)
  {
    var spec := Spec(E.HeadChain(e, b), 0, _ => true, None);
    QueriesDenote(schema, e, spec, t);
    forall pk
      ensures Wanted(spec, pk, Resolution(e.rows, spec, pk)) == Lookup(View(e.rows, E.HeadChain(e, b)), pk)
    {
      ViewAt(e.rows, E.HeadChain(e, b), pk);
    }
    if Answer(e.rows, spec, t) {
      forall pk
        ensures Lookup(t, pk) == Lookup(View(e.rows, E.HeadChain(e, b)), pk)
      {
        assert Lookup(t, pk) == Wanted(spec, pk, Resolution(e.rows, spec, pk));
      }
      SameLookups(t, View(e.rows, E.HeadChain(e, b)));
    }
  }

  /** A commit of a branch was read as the branch at its seq over some tail. */
  lemma {:induction false} CommitOverTail(e: E.State, h: History, m: M.State, b: Name, id: nat)
    requires Joint(e, h, m) in Lockstep() && HasRoom(e) && E.Headed(e)
    requires b in e.branches && id in e.commits && e.commits[id].branch == b
    ensures 0 <= e.commits[id].at <= e.branches[b].headSeq < MAX_SEQ && e.commits[id].chain != []
    ensures e.commits[id].chain == [Segment(b, e.commits[id].at)] + TailOf(e, id)
  {
    assert CommitTracked(e, h, id);
    assert BranchTracked(e, h, b);
  }

  /** The tail a commit was read over. */
  function TailOf(e: E.State, id: nat): Chain
    requires id in e.commits
  {
    if e.commits[id].chain == [] then [] else e.commits[id].chain[1..]
  }

  lemma {:induction false} SeqsBounded(e: E.State, h: History, m: M.State, b: Name, id: nat)
    requires Joint(e, h, m) in Lockstep() && HasRoom(e) && b in e.branches && id in e.commits
    requires e.commits[id].chain == E.ChainFor(e, b, e.commits[id].at)
    ensures 0 <= e.commits[id].at < MAX_SEQ
  {
    assert CommitTracked(e, h, id);
    assert BranchTracked(e, h, b);
  }

  /** The engine's diff of a branch between two seqs. */
  ghost function BranchDiff(e: E.State, b: Name, lo: int, hi: int): Diff {
    DiffAt(View(e.rows, E.ChainFor(e, b, lo)), View(e.rows, E.ChainFor(e, b, hi)), ColumnSet(e.schema), WrittenKeys(e.rows, b, lo, hi))
  }

  /** The model's diff of two commits. */
  ghost function SnapshotDiff(e: E.State, c1: nat, c2: nat): Diff {
    FullDiff(E.StateAtCommit(e, c1), E.StateAtCommit(e, c2), ColumnSet(e.schema))
  }

  /** The store's diff of a branch between two seqs, images before included, ... */
  ghost function BranchEntries(e: E.State, b: Name, lo: int, hi: int): Entries {
    EntriesAt(View(e.rows, E.ChainFor(e, b, lo)), View(e.rows, E.ChainFor(e, b, hi)), ColumnSet(e.schema), WrittenKeys(e.rows, b, lo, hi))
  }

  /** ... and the changed rows between two commits, which it stands for. */
  ghost function SnapshotEntries(e: E.State, c1: nat, c2: nat): Entries {
    FullEntries(E.StateAtCommit(e, c1), E.StateAtCommit(e, c2), ColumnSet(e.schema))
  }

  /** The tails in play between two commits of a branch. */
  function TailsOf(e: E.State, b: Name, c1: nat, c2: nat): Tails
    requires b in e.branches && c1 in e.commits && c2 in e.commits
  {
    Tails(e.branches[b].chain, TailOf(e, c1), TailOf(e, c2))
  }

  /** The engine's diff between two commits of a branch, wherever updates from the parent
      lie, is the model's diff of the two snapshots exactly when the tails allow it: on
      each key the branch says nothing about at the first commit, if it says nothing at
      the second either, the two commits' tails agree; otherwise the first commit's tail
      and the tail of today become what it says by one and the same change. */
  lemma {:induction false} DiffIsSnapshotDiff(schema: seq<ColID>, e: E.State, b: Name, c1: nat, c2: nat)
    requires Reachable(schema, e) && b in e.branches && c1 in e.commits && c2 in e.commits
    requires e.commits[c1].branch == b && e.commits[c2].branch == b && e.commits[c1].at <= e.commits[c2].at
    ensures BranchDiff(e, b, e.commits[c1].at, e.commits[c2].at) == SnapshotDiff(e, c1, c2) <==>
      DiffAllowed(e.rows, b, e.commits[c1].at, e.commits[c2].at, TailsOf(e, b, c1, c2), ColumnSet(schema))
  {
    var h, m := Paired(schema, e);
    StoreTiles(e, h, m);
    CommitOverTail(e, h, m, b, c1);
    CommitOverTail(e, h, m, b, c2);
    DiffAcrossTails(e.rows, Heads(h), b, e.commits[c1].at, e.commits[c2].at, TailsOf(e, b, c1, c2), ColumnSet(schema));
  }

  /** With images before, the store's diff is what changed between the two commits exactly
      when the tails agree outright. */
  lemma {:induction false} EntriesAreSnapshotEntries(schema: seq<ColID>, e: E.State, b: Name, c1: nat, c2: nat)
    requires Reachable(schema, e) && b in e.branches && c1 in e.commits && c2 in e.commits
    requires e.commits[c1].branch == b && e.commits[c2].branch == b && e.commits[c1].at <= e.commits[c2].at
    ensures BranchEntries(e, b, e.commits[c1].at, e.commits[c2].at) == SnapshotEntries(e, c1, c2) <==>
      EntriesAllowed(e.rows, b, e.commits[c1].at, e.commits[c2].at, TailsOf(e, b, c1, c2))
  {
    var h, m := Paired(schema, e);
    StoreTiles(e, h, m);
    CommitOverTail(e, h, m, b, c1);
    CommitOverTail(e, h, m, b, c2);
    ScanAcrossTails(e.rows, Heads(h), b, e.commits[c1].at, e.commits[c2].at, TailsOf(e, b, c1, c2), ColumnSet(schema));
  }

  /** When the second commit was read over the tail the branch has now, that comes down to
      the first commit's state being what the branch reads at its seq over this tail. */
  lemma {:induction false} EntriesToPresent(schema: seq<ColID>, e: E.State, b: Name, c1: nat, c2: nat)
    requires Reachable(schema, e) && b in e.branches && c1 in e.commits && c2 in e.commits
    requires e.commits[c2].chain == E.ChainFor(e, b, e.commits[c2].at) && e.commits[c1].at <= e.commits[c2].at
    ensures BranchEntries(e, b, e.commits[c1].at, e.commits[c2].at) == SnapshotEntries(e, c1, c2) <==>
      View(e.rows, E.ChainFor(e, b, e.commits[c1].at)) == E.StateAtCommit(e, c1)
    ensures e.commits[c1].branch == b ==>
      (EntriesAllowed(e.rows, b, e.commits[c1].at, e.commits[c2].at, TailsOf(e, b, c1, c2)) <==>
       View(e.rows, E.ChainFor(e, b, e.commits[c1].at)) == E.StateAtCommit(e, c1))
  {
    var h, m := Paired(schema, e);
    StoreTiles(e, h, m);
    SeqsBounded(e, h, m, b, c2);
    ScanIsFull(e.rows, b, e.commits[c1].at, e.commits[c2].at, e.branches[b].chain, ColumnSet(schema));
    EntriesDetermine(View(e.rows, E.ChainFor(e, b, e.commits[c1].at)), E.StateAtCommit(e, c1), E.StateAtCommit(e, c2), ColumnSet(schema));
    if e.commits[c1].branch == b {
      CommitOverTail(e, h, m, b, c1);
      assert TailOf(e, c2) == e.branches[b].chain;
      AllowedToPresent(e.rows, b, e.commits[c1].at, e.commits[c2].at, e.branches[b].chain, TailOf(e, c1));
    }
  }

  /** In particular both diffs are exact when no update from the parent lies after the
      first commit: it was read over the tail the branch still has. */
  lemma {:induction false} DiffSinceUpdate(schema: seq<ColID>, e: E.State, b: Name, c1: nat, c2: nat)
    requires Reachable(schema, e) && b in e.branches && c1 in e.commits && c2 in e.commits
    requires e.commits[c1].chain == E.ChainFor(e, b, e.commits[c1].at) && e.commits[c2].chain == E.ChainFor(e, b, e.commits[c2].at)
    requires e.commits[c1].at <= e.commits[c2].at
    ensures BranchDiff(e, b, e.commits[c1].at, e.commits[c2].at) == SnapshotDiff(e, c1, c2)
    ensures BranchEntries(e, b, e.commits[c1].at, e.commits[c2].at) == SnapshotEntries(e, c1, c2)
  {
    var h, m := Paired(schema, e);
    StoreTiles(e, h, m);
    SeqsBounded(e, h, m, b, c2);
    ScanIsFull(e.rows, b, e.commits[c1].at, e.commits[c2].at, e.branches[b].chain, ColumnSet(schema));
  }
}
