/** UpdateFromParent and CreateBranch refine the model: the two operations that choose
    what a branch inherits, and keep the masks sound. */
module ForkRefinement {
  import opened Wrappers
  import opened Core
  import opened Operations
  import opened Versions
  import opened Staging
  import opened Lineage
  import opened Growth
  import opened ThreeWay
  import opened Writing
  import opened Agreement
  import opened Advance
  import opened Refinement
  import opened MergeRefinement
  import E = IntervalMachine
  import M = SnapshotMachine

  // ----- what a branch inherits, now and next -----

  /** A branch's tail is an earlier chain of its parent, so the parent's chain of
      today is a tail it may carry next, and masks cover the difference. */
  lemma {:induction false} ParentAdvances(e: E.State, h: History, b: Name)
    requires Tracked(e, h) && Masked(e.rows, h) && b in e.branches && b != ROOT && e.branches[b].parent in e.branches
    ensures b in h && h[b] != [] && e.branches[b].parent in h && h[e.branches[b].parent] != []
    ensures TopTail(h, b) == e.branches[b].chain
    ensures Top(h, e.branches[b].parent) == E.Inherited(e, e.branches[b].parent)
    ensures NextTail(h, b, Top(h, e.branches[b].parent))
    ensures ChangeMasked(e.rows, TopTail(h, b), Top(h, e.branches[b].parent))
  {
    var p := e.branches[b].parent;
    assert BranchTracked(e, h, b) && BranchTracked(e, h, p);
    TopRecorded(h, b);
    TopRecorded(h, p);
    RecordedTail(h, Top(h, b));
    var tail := TopTail(h, b);
    assert tail[0].branch == p && Known(h, p, tail[0].upto) && h[p][tail[0].upto] == tail;
    assert Known(h, p, |h[p]| - 1);
    assert Below(h[p][tail[0].upto], h[p][|h[p]| - 1]);
    assert ChangeMasked(e.rows, h[p][tail[0].upto], h[p][|h[p]| - 1]);
  }

  lemma {:induction false} BetweenLifted(rows: seq<Version>, x: Chain, y: Chain, s: Segment, t: Segment, pk: PK, c: ColID)
    requires Between(rows, x, y, pk, c)
    ensures Between(rows, [s] + x, [t] + y, pk, c)
  {
    var k :| 0 <= k < |x| && k < |y| && Touched(rows, x[k].branch, Min(x[k].upto, y[k].upto), Max(x[k].upto, y[k].upto), pk, c);
    var x', y' := [s] + x, [t] + y;
    assert x'[k + 1] == x[k] && y'[k + 1] == y[k];
    assert Touched(rows, x'[k + 1].branch, Min(x'[k + 1].upto, y'[k + 1].upto), Max(x'[k + 1].upto, y'[k + 1].upto), pk, c);
  }

  /** The tables of an update: every cell of the result obeys the three-way law
      between what the branch inherited, what it read and what it inherits next. */
  ghost predicate ThreeWayTables(base: Table, ours: Table, theirs: Table, result: Table) {
    forall pk, c :: ThreeWayCell(Cell(base, pk, c), Cell(ours, pk, c), Cell(theirs, pk, c), Cell(result, pk, c))
  }

  /** The overlay-mask invariant survives the update: a cell of the result differs
      from the new tail only where it kept a cell the branch had changed. */
  lemma {:induction false} UpdateOverlay(rows: seq<Version>, rows': seq<Version>, h: History, b: Name, tail: Chain, t: Table)
    requires WellFormed(h) && Masked(rows, h) && b in h && h[b] != [] && NextTail(h, b, tail)
    requires SameBelow(rows, rows', b, |h[b]|) && View(rows', NewChain(h, b, tail)) == t
    requires ThreeWayTables(View(rows, TopTail(h, b)), View(rows, Top(h, b)), View(rows, tail), t)
    ensures OverlayMasked(rows', NewChain(h, b, tail))
  {
    TailViewUnmoved(rows, rows', h, b, tail);
    forall pk, c | Cell(t, pk, c) != Cell(View(rows, tail), pk, c)
      ensures Touched(rows', b, 0, |h[b]|, pk, c)
    {
      OverlayKept(rows, rows', h, b, pk, c);
    }
    OverlayIs(rows', b, |h[b]|, tail, t, View(rows, tail));
  }

  /** And a cell of the result differs from what the branch read before only where
      the parent had changed it. */
  lemma {:induction false} UpdateChange(rows: seq<Version>, rows': seq<Version>, h: History, b: Name, tail: Chain, t: Table)
    requires WellFormed(h) && Masked(rows, h) && b in h && h[b] != [] && NextTail(h, b, tail)
    requires SameBelow(rows, rows', b, |h[b]|) && View(rows', NewChain(h, b, tail)) == t
    requires ThreeWayTables(View(rows, TopTail(h, b)), View(rows, Top(h, b)), View(rows, tail), t)
    requires ChangeMasked(rows, TopTail(h, b), tail)
    ensures ChangeMasked(rows', Top(h, b), NewChain(h, b, tail))
  {
    var n, top := |h[b]|, Top(h, b);
    TopRecorded(h, b);
    ViewUnmoved(rows, rows', h, top, b, n);
    forall pk, c | Cell(View(rows', top), pk, c) != Cell(t, pk, c)
      ensures Between(rows', top, NewChain(h, b, tail), pk, c)
    {
      assert Between(rows, TopTail(h, b), tail, pk, c);
      TailChangeLifted(rows, rows', h, b, tail, pk, c);
    }
  }

  lemma {:induction false} TailChangeLifted(rows: seq<Version>, rows': seq<Version>, h: History, b: Name, tail: Chain, pk: PK, c: ColID)
    requires WellFormed(h) && b in h && h[b] != [] && SameBelow(rows, rows', b, |h[b]|)
    requires Between(rows, TopTail(h, b), tail, pk, c)
    ensures Between(rows', Top(h, b), NewChain(h, b, tail), pk, c)
  {
    TopRecorded(h, b);
    assert Top(h, b) == [Top(h, b)[0]] + TopTail(h, b);
    BetweenKept(rows, rows', b, |h[b]|, TopTail(h, b), tail, pk, c);
    BetweenLifted(rows', TopTail(h, b), tail, Top(h, b)[0], Segment(b, |h[b]|), pk, c);
  }

  // ----- UpdateFromParent -----

  lemma {:induction false} AdvanceRetargets(e: E.State, b: Name)
    requires b in e.branches && e.branches[b].parent in e.branches
    ensures var p := e.branches[b].parent;
      Retargeted(e, E.AdvanceFork(e, b), b, E.Inherited(e, p), e.branches[p].headCommit)
    ensures E.AdvanceFork(e, b).rows == e.rows && E.AdvanceFork(e, b).schema == e.schema && E.AdvanceFork(e, b).nextID == e.nextID
    ensures b in E.AdvanceFork(e, b).branches && E.AdvanceFork(e, b).branches[b].headSeq == e.branches[b].headSeq
    ensures E.HeadChain(E.AdvanceFork(e, b), b) == [Segment(b, e.branches[b].headSeq)] + E.Inherited(e, e.branches[b].parent)
  {
  }

  /** The rows an update writes, against the newly inherited view, move the store
      soundly, and the branch then reads as the three-way merge. */
  lemma {:induction false} UpdateMoves(e: E.State, h: History, m: M.State, b: Name, t: Table)
    requires Joint(e, h, m) in Lockstep() && HasRoom(e) && b in e.branches && b != ROOT && e.branches[b].parent in e.branches
    requires ThreeWayTables(View(e.rows, e.branches[b].chain), View(e.rows, E.HeadChain(e, b)), View(e.rows, E.Inherited(e, e.branches[b].parent)), t)
    ensures b in h
    ensures var tail, rows' := E.Inherited(e, e.branches[b].parent), E.ResultRows(E.AdvanceFork(e, b), b, t);
      && Move(e.rows, h, b, tail, rows', ColsOf(e)) in SoundMoves()
      && View(rows', NewChain(h, b, tail)) == t
      && CommittedOnly(e.rows, rows')
  {
    var tail, target := E.Inherited(e, e.branches[b].parent), E.AdvanceFork(e, b);
    var plan, rows' := ResultPlan(target, b, t), E.ResultRows(target, b, t);
    ParentAdvances(e, h, b);
    BranchFacts(e, h, m, b);
    AdvanceRetargets(e, b);
    ResultPlanSound(target, b, t);
    ResultRowsPlanned(target, b, t);
    PlanStore(e, h, tail, plan);
    PlanView(e, h, tail, plan);
    UpdateOverlay(e.rows, rows', h, b, tail, t);
    UpdateChange(e.rows, rows', h, b, tail, t);
  }

  /** The engine's merge for an update is the model's, and when it is clean it obeys
      the three-way law between the old tail, the branch and the new tail. */
  lemma {:induction false} UpdateMerge(e: E.State, h: History, m: M.State, b: Name)
    requires Joint(e, h, m) in Lockstep() && b in e.branches && b != ROOT
    ensures b in m.branches && e.branches[b].parent in e.branches && e.branches[b].parent in m.branches
    ensures m.branches[b].forkCommit in m.commits && m.branches[b].head in m.commits && m.branches[e.branches[b].parent].head in m.commits
    ensures var p := e.branches[b].parent;
      && E.MergeStates(e, b, p, e.branches[b].forkCommit) == M.MergeCommits(m, m.branches[b].forkCommit, m.branches[b].head, m.branches[p].head)
      && Total(E.MergeStates(e, b, p, e.branches[b].forkCommit).0, ColsOf(e))
      && (E.MergeStates(e, b, p, e.branches[b].forkCommit).1 == [] ==>
           ThreeWayTables(View(e.rows, e.branches[b].chain), View(e.rows, E.HeadChain(e, b)), View(e.rows, E.Inherited(e, p)),
             E.MergeStates(e, b, p, e.branches[b].forkCommit).0))
  {
    BranchFacts(e, h, m, b);
    var p, base := e.branches[b].parent, e.branches[b].forkCommit;
    MergeStatesAgree(e, h, m, b, p, base);
    MergedTotal(e, h, m, b, p, base);
    assert E.HeadChain(e, p) == E.Inherited(e, p);
    if E.MergeStates(e, b, p, base).1 == [] {
      CleanMerge(m.schema, m.commits[base].state, m.commits[m.branches[b].head].state, m.commits[m.branches[p].head].state);
    }
  }

  /** A clean update, recorded on both sides. */
  lemma {:induction false} UpdateClean(e: E.State, h: History, m: M.State, b: Name, t: Table, parents: seq<nat>)
    requires Joint(e, h, m) in Lockstep() && M.Closed(m) && HasRoom(e) && b in e.branches && b != ROOT
    requires e.branches[b].parent in e.branches && Total(t, ColsOf(e))
    requires ThreeWayTables(View(e.rows, e.branches[b].chain), View(e.rows, E.HeadChain(e, b)), View(e.rows, E.Inherited(e, e.branches[b].parent)), t)
    requires parents == [e.branches[b].headCommit, e.branches[e.branches[b].parent].headCommit]
    ensures b in h && b in m.branches
    ensures Joint(E.ApplyMergeResult(E.AdvanceFork(e, b), b, t, parents), Extend(h, b, E.Inherited(e, e.branches[b].parent)),
      M.RecordFork(m, b, e.branches[e.branches[b].parent].headCommit, parents, t)) in Lockstep()
  {
    var p, target := e.branches[b].parent, E.AdvanceFork(e, b);
    UpdateMoves(e, h, m, b, t);
    AdvanceRetargets(e, b);
    UpdateParents(e, h, m, b, p, parents);
    RecordAgrees(e, h, m, target, b, E.Inherited(e, p), e.branches[p].headCommit, E.ResultRows(target, b, t), t, parents);
    AppliedRecords(target, b, t, parents);
  }

  lemma {:induction false} UpdateParents(e: E.State, h: History, m: M.State, b: Name, p: Name, parents: seq<nat>)
    requires Joint(e, h, m) in Lockstep() && b in e.branches && p in e.branches
    requires parents == [e.branches[b].headCommit, e.branches[p].headCommit]
    ensures b in m.branches && b in h && forall id :: id in parents ==> id in e.commits
    ensures e.branches[p].headCommit in e.commits
    ensures View(e.rows, E.Inherited(e, p)) == View(e.rows, e.commits[e.branches[p].headCommit].chain)
  {
    BranchFacts(e, h, m, b);
    BranchFacts(e, h, m, p);
    HeadReads(e, h, m, p);
  }

  lemma {:induction false} HeadReads(e: E.State, h: History, m: M.State, p: Name)
    requires Joint(e, h, m) in Lockstep() && p in e.branches
    ensures e.branches[p].headCommit in e.commits
    ensures View(e.rows, E.Inherited(e, p)) == View(e.rows, e.commits[e.branches[p].headCommit].chain)
  {
    assert HeadResolves(e, p) && E.HeadChain(e, p) == E.Inherited(e, p);
  }

  lemma {:induction false} UpdateUnfolds(e: E.State, b: Name)
    requires E.Closed(e) && b in e.branches && e.branches[b].parent != ""
    ensures var p := e.branches[b].parent;
      var ours, theirs, base := e.branches[b].headCommit, e.branches[p].headCommit, e.branches[b].forkCommit;
      E.UpdateFromParent(e, b) ==
        if theirs == base then (e, Ok(MergeResult(base, View(e.rows, E.HeadChain(e, b)), [], true, 0)))
        else E.Finish(e, E.AdvanceFork(e, b), b, base, E.MergeStates(e, b, p, base), [ours, theirs])
  {
  }

  lemma {:induction false} ModelUpdateUnfolds(m: M.State, b: Name)
    requires M.Closed(m) && b in m.branches && m.branches[b].parent != ""
    ensures var ours, theirs, base := m.branches[b].head, m.branches[m.branches[b].parent].head, m.branches[b].forkCommit;
      M.UpdateFromParent(m, b) ==
        if theirs == base then (m, Ok(MergeResult(base, m.commits[ours].state, [], true, 0)))
        else M.Finish(m, b, base, theirs, M.MergeCommits(m, base, ours, theirs), [ours, theirs])
  {
  }

  /** UpdateFromParent: same outcome, and agreement is kept. The branch then reads as
      the three-way merge of its fork point, itself and its parent, and its new tail
      reads as its new fork commit. */
  lemma {:induction false} UpdateRefines(e: E.State, h: History, m: M.State, b: Name) returns (h': History)
    requires Joint(e, h, m) in Lockstep() && E.Closed(e) && M.Closed(m) && HasRoom(e)
    ensures E.UpdateFromParent(e, b).1 == M.UpdateFromParent(m, b).1
    ensures Joint(E.UpdateFromParent(e, b).0, h', M.UpdateFromParent(m, b).0) in Lockstep()
  {
    h' := h;
    if b in e.branches && e.branches[b].parent != "" {
      h' := UpdateWithParent(e, h, m, b);
    } else if b in e.branches {
      BranchFacts(e, h, m, b);
    }
  }

  lemma {:induction false} UpdateWithParent(e: E.State, h: History, m: M.State, b: Name) returns (h': History)
    requires Joint(e, h, m) in Lockstep() && E.Closed(e) && M.Closed(m) && HasRoom(e)
    requires b in e.branches && e.branches[b].parent != ""
    ensures E.UpdateFromParent(e, b).1 == M.UpdateFromParent(m, b).1
    ensures Joint(E.UpdateFromParent(e, b).0, h', M.UpdateFromParent(m, b).0) in Lockstep()
  {
    h' := h;
    BranchFacts(e, h, m, b);
    var p := e.branches[b].parent;
    BranchFacts(e, h, m, p);
    UpdateMerge(e, h, m, b);
    UpdateUnfolds(e, b);
    ModelUpdateUnfolds(m, b);
    var base, fork := e.branches[b].forkCommit, e.branches[p].headCommit;
    if fork == base {
      HeadView(e, h, m, b);
    } else {
      var merged, parents := E.MergeStates(e, b, p, base), [e.branches[b].headCommit, fork];
      var done := Extend(h, b, E.Inherited(e, p));
      if merged.1 == [] {
        UpdateClean(e, h, m, b, merged.0, parents);
      }
      FinishAgrees(Lockstep(), e, h, m, E.AdvanceFork(e, b), b, base, fork, merged.0, merged.1, parents, done);
      h' := if merged.1 == [] then done else h;
    }
  }

  // ----- CreateBranch -----

  lemma {:induction false} ForkedTracked(e: E.State, h: History, name: Name, from: Name)
    requires Tracked(e, h) && name !in e.branches && from in e.branches && 0 < e.nextID
    ensures from in h && h[from] != []
    ensures Tracked(E.CreateBranch(e, name, from).0, Fork(h, name, from))
  {
    var e', h' := E.CreateBranch(e, name, from).0, Fork(h, name, from);
    assert BranchTracked(e, h, from);
    ForkWellFormed(h, name, from);
    ForkRecords(h, name, from);
    forall a | a in e'.branches
      ensures BranchTracked(e', h', a)
    {
      if a != name {
        assert BranchTracked(e, h, a);
      }
    }
    forall id | id in e'.commits
      ensures CommitTracked(e', h', id)
    {
      assert CommitTracked(e, h, id);
    }
  }

  lemma {:induction false} ForkedStore(e: E.State, h: History, name: Name, from: Name)
    requires Tracked(e, h) && SoundStore(e, h) && name !in e.branches && from in e.branches
    requires WellFormed(Fork(h, name, from))
    ensures SoundStore(E.CreateBranch(e, name, from).0, Fork(h, name, from))
  {
    NothingWritten(e.rows, Heads(h), name);
    ForkMasked(e.rows, h, name, from);
    TiledHigher(e.rows, Heads(h), Heads(Fork(h, name, from)));
  }

  lemma {:induction false} NothingWritten(rows: seq<Version>, heads: map<Name, int>, name: Name)
    requires Tiled(rows, heads) && name !in heads
    ensures forall i :: 0 <= i < |rows| && rows[i].session == 0 ==> rows[i].branch != name
  {
    forall i | 0 <= i < |rows| && rows[i].session == 0
      ensures rows[i].branch != name
    {
      assert InRange(rows[i], heads);
    }
  }

  /** A new branch reads as its parent's head, which is also its fork commit. */
  lemma {:induction false} ForkedReads(e: E.State, h: History, name: Name, from: Name)
    requires Tracked(e, h) && SoundStore(e, h) && HeadsResolve(e) && name !in e.branches && from in e.branches && name != ROOT
    ensures HeadsResolve(E.CreateBranch(e, name, from).0)
  {
    var e' := E.CreateBranch(e, name, from).0;
    assert HeadResolves(e, from);
    NothingWritten(e.rows, Heads(h), name);
    ForkView(e.rows, name, E.Inherited(e, from));
    assert E.HeadChain(e, from) == E.Inherited(e, from);
    forall a | a in e'.branches
      ensures HeadResolves(e', a)
    {
      if a != name {
        assert HeadResolves(e, a);
        assert E.HeadChain(e', a) == E.HeadChain(e, a);
      }
    }
  }

  lemma {:induction false} ForkedBranches(e: E.State, m: M.State, name: Name, from: Name)
    requires SameBranches(e, m) && name !in e.branches && from in e.branches
    ensures SameBranches(E.CreateBranch(e, name, from).0, M.CreateBranch(m, name, from).0)
  {
    var e', m' := E.CreateBranch(e, name, from).0, M.CreateBranch(m, name, from).0;
    assert BranchAgrees(e, m, from);
    forall a | a in e'.branches
      ensures BranchAgrees(e', m', a)
    {
      if a != name {
        assert BranchAgrees(e, m, a);
      }
    }
  }

  /** Everything but the branches is the same state. */
  lemma {:induction false} ForkedRest(e: E.State, h: History, m: M.State, name: Name, from: Name)
    requires SameGraph(e, m) && SameSnapshots(e, m) && SameSessions(e, m) && SameSessionViews(e, m)
    requires SameBranches(e, m)
    ensures var e', m' := E.CreateBranch(e, name, from).0, M.CreateBranch(m, name, from).0;
      SameGraph(e', m') && SameSnapshots(e', m') && SameSessions(e', m') && SameSessionViews(e', m')
  {
    var e', m' := E.CreateBranch(e, name, from).0, M.CreateBranch(m, name, from).0;
    forall id | id in e'.commits
      ensures CommitAgrees(e', m', id) && SnapshotAgrees(e', m', id)
    {
      assert CommitAgrees(e, m, id) && SnapshotAgrees(e, m, id);
    }
    assert Owners(e') == Owners(e);
    forall sid | sid in e'.sessions
      ensures SessionAgrees(e', m', sid) && SessionViewAgrees(e', m', sid)
    {
      assert SessionAgrees(e, m, sid) && SessionViewAgrees(e, m, sid);
    }
  }

  /** CreateBranch: same outcome, and agreement is kept. */
  lemma {:induction false} CreateRefines(e: E.State, h: History, m: M.State, name: Name, from: Name) returns (h': History)
    requires Joint(e, h, m) in Lockstep()
    ensures E.CreateBranch(e, name, from).1 == M.CreateBranch(m, name, from).1
    ensures Joint(E.CreateBranch(e, name, from).0, h', M.CreateBranch(m, name, from).0) in Lockstep()
  {
    h' := h;
    if name !in e.branches && from in e.branches {
      BranchFacts(e, h, m, from);
      ForkedTracked(e, h, name, from);
      ForkedStore(e, h, name, from);
      ForkedReads(e, h, name, from);
      ForkedBranches(e, m, name, from);
      ForkedRest(e, h, m, name, from);
      h' := Fork(h, name, from);
    }
  }
}
