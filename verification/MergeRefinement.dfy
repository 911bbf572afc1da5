/** Merge refines the model: with sound masks the narrowed merge is the full one, and
    what it writes reads as the merged table. */
module MergeRefinement {
  import opened Wrappers
  import opened Core
  import opened Dag
  import opened Operations
  import opened Versions
  import opened Staging
  import opened Lineage
  import opened Growth
  import opened ThreeWay
  import opened Writing
  import opened Batches
  import opened Agreement
  import opened Advance
  import opened Refinement
  import opened Scans
  import E = IntervalMachine
  import M = SnapshotMachine

  // ----- the engine's masks are sound for the merge they narrow -----

  lemma {:induction false} WrittenWithin(rows: seq<Version>, cols: set<ColID>)
    requires MasksWithin(rows, cols)
    ensures E.ChangedColumns(rows) <= cols
  {
  }

  /** For every branch and every commit: a cell on which the branch's view and the
      commit's state differ has its bit in the mask since that commit. */
  lemma {:induction false} MaskForSound(e: E.State, h: History, m: M.State, b: Name, base: nat, pk: PK, c: ColID)
    requires SameGraph(e, m) && Tracked(e, h) && SoundStore(e, h) && b in e.branches && base in e.commits
    requires Cell(View(e.rows, E.HeadChain(e, b)), pk, c) != Cell(E.StateAtCommit(e, base), pk, c)
    ensures c in E.MaskFor(e, b, base, pk)
  {
    assert BranchTracked(e, h, b) && CommitTracked(e, h, base);
    TopRecorded(h, b);
    MaskSound(e.rows, h, E.HeadChain(e, b), e.commits[base].chain, pk, c);
    MaskIsWritten(e.rows, E.HeadChain(e, b), e.commits[base].chain, pk, c);
  }

  lemma {:induction false} MergeMaskSound(e: E.State, h: History, m: M.State, into: Name, from: Name, base: nat)
    requires SameGraph(e, m) && Tracked(e, h) && SoundStore(e, h)
    requires into in e.branches && from in e.branches && base in e.commits
    ensures var b, a, t := E.StateAtCommit(e, base), View(e.rows, E.HeadChain(e, into)), View(e.rows, E.HeadChain(e, from));
      SoundMask(e.schema, b, a, t, E.MergeMask(e, into, from, base, MergeKeys(b, a, t)))
  {
    var b, a, t := E.StateAtCommit(e, base), View(e.rows, E.HeadChain(e, into)), View(e.rows, E.HeadChain(e, from));
    var mask := E.MergeMask(e, into, from, base, MergeKeys(b, a, t));
    WrittenWithin(e.rows, ColsOf(e));
    forall pk, c
      ensures c in MaskAt(mask, pk) ==> c in e.schema
      ensures c !in MaskAt(mask, pk) ==> Cell(a, pk, c) == Cell(b, pk, c) && Cell(t, pk, c) == Cell(b, pk, c)
    {
      if Cell(a, pk, c) != Cell(b, pk, c) {
        MaskForSound(e, h, m, into, base, pk, c);
      }
      if Cell(t, pk, c) != Cell(b, pk, c) {
        MaskForSound(e, h, m, from, base, pk, c);
      }
    }
  }

  /** The engine's narrowed merge is the model's full merge of the snapshots. */
  lemma {:induction false} MergeStatesAgree(e: E.State, h: History, m: M.State, into: Name, from: Name, base: nat)
    requires Joint(e, h, m) in Lockstep() && into in e.branches && from in e.branches && base in e.commits
    ensures into in m.branches && from in m.branches && base in m.commits
    ensures m.branches[into].head in m.commits && m.branches[from].head in m.commits
    ensures var b, a, t := m.commits[base].state, m.commits[m.branches[into].head].state, m.commits[m.branches[from].head].state;
      && E.MergeStates(e, into, from, base) == (MergedTable(m.schema, b, a, t, Everything), MergeConflicts(m.schema, b, a, t, Everything))
      && Total(b, ColsOf(e)) && Total(a, ColsOf(e)) && Total(t, ColsOf(e))
      && E.StateAtCommit(e, base) == b && View(e.rows, E.HeadChain(e, into)) == a && View(e.rows, E.HeadChain(e, from)) == t
  {
    HeadView(e, h, m, into);
    HeadView(e, h, m, from);
    assert SnapshotAgrees(e, m, base);
    MergeMaskSound(e, h, m, into, from, base);
    var b, a, t := E.StateAtCommit(e, base), View(e.rows, E.HeadChain(e, into)), View(e.rows, E.HeadChain(e, from));
    NarrowedIsFull(e.schema, b, a, t, E.MergeMask(e, into, from, base, MergeKeys(b, a, t)));
  }

  // ----- finishing a clean merge, over the same tail or a newer one -----

  /** The plan that turns what the branch reads into the result. */
  ghost function ResultPlan(target: E.State, b: Name, t: Table): Plan
    requires b in target.branches
  {
    var n := target.branches[b].headSeq + 1;
    var current := View(target.rows, E.HeadChain(target, b));
    Plan(b, n, E.ResultVersions(b, n, target.nextID + 1, ColsOf(target), current, t), current, t, ColsOf(target))
  }

  lemma {:induction false} ResultRowsPlanned(target: E.State, b: Name, t: Table)
    requires b in target.branches
    ensures E.ResultRows(target, b, t) == WriteAll(target.rows, ResultPlan(target, b, t).versions)
  {
  }

  lemma {:induction false} ResultPlanSound(target: E.State, b: Name, t: Table)
    requires b in target.branches
    ensures ResultPlan(target, b, t) in SoundPlans()
  {
    var plan := ResultPlan(target, b, t);
    ResultWrites(b, plan.n, target.nextID + 1, ColsOf(target), plan.before, t);
  }

  // ----- Merge -----

  lemma {:induction false} MergeBaseAgrees(e: E.State, h: History, m: M.State, into: Name, from: Name)
    requires Joint(e, h, m) in Lockstep() && M.Closed(m) && into in e.branches && from in e.branches
    ensures into in m.branches && from in m.branches
    ensures MergeBases(E.Graph(e), e.branches[into].headCommit, e.branches[from].headCommit)
      == MergeBases(M.Graph(m), m.branches[into].head, m.branches[from].head)
    ensures forall base :: base in MergeBases(M.Graph(m), m.branches[into].head, m.branches[from].head) ==> base in e.commits
  {
    GraphsAgree(e, m);
    BranchFacts(e, h, m, into);
    BranchFacts(e, h, m, from);
    forall base | base in MergeBases(M.Graph(m), m.branches[into].head, m.branches[from].head) {
      M.BaseKnown(m, m.branches[into].head, m.branches[from].head, base);
    }
  }

  lemma {:induction false} AppliedRecords(target: E.State, b: Name, t: Table, parents: seq<nat>)
    requires b in target.branches
    ensures E.ApplyMergeResult(target, b, t, parents) == EngineRecord(target, b, E.ResultRows(target, b, t), parents)
  {
  }

  /** A clean merge over the branch's own tail. */
  lemma {:induction false} FinishClean(e: E.State, h: History, m: M.State, into: Name, t: Table, parents: seq<nat>)
    requires Joint(e, h, m) in Lockstep() && M.Closed(m) && HasRoom(e) && into in e.branches && Total(t, ColsOf(e))
    requires parents != [] && forall p :: p in parents ==> p in e.commits
    ensures into in h && into in m.branches
    ensures Joint(E.ApplyMergeResult(e, into, t, parents), Extend(h, into, e.branches[into].chain),
      M.RecordFork(m, into, m.branches[into].forkCommit, parents, t)) in Lockstep()
  {
    BranchFacts(e, h, m, into);
    AppliedRecords(e, into, t, parents);
    ResultRowsPlanned(e, into, t);
    ResultPlanSound(e, into, t);
    PlanAgrees(e, h, m, ResultPlan(e, into, t), parents);
  }

  /** Finishing a merge, clean or not, lands in a set of good states when writing
      the clean one does, and reports the same on both sides. */
  lemma {:induction false} FinishAgrees(good: iset<Joint>, e: E.State, h: History, m: M.State, target: E.State, b: Name, base: nat, fork: nat,
      t: Table, conflicts: seq<Conflict>, parents: seq<nat>, done: History)
    requires M.Closed(m) && b in target.branches && b in m.branches && e.nextID == m.nextID
    requires Joint(e, h, m) in good
    requires conflicts == [] ==>
      Joint(E.ApplyMergeResult(target, b, t, parents), done, M.RecordFork(m, b, fork, parents, t)) in good
    ensures E.Finish(e, target, b, base, (t, conflicts), parents).1 == M.Finish(m, b, base, fork, (t, conflicts), parents).1
    ensures Joint(E.Finish(e, target, b, base, (t, conflicts), parents).0, if conflicts == [] then done else h,
      M.Finish(m, b, base, fork, (t, conflicts), parents).0) in good
  {
  }

  lemma {:induction false} MergedTotal(e: E.State, h: History, m: M.State, into: Name, from: Name, base: nat)
    requires Joint(e, h, m) in Lockstep() && into in e.branches && from in e.branches && base in e.commits
    ensures into in m.branches && from in m.branches && base in m.commits
    ensures m.branches[into].head in m.commits && m.branches[from].head in m.commits
    ensures E.MergeStates(e, into, from, base) == M.MergeCommits(m, base, m.branches[into].head, m.branches[from].head)
    ensures Total(E.MergeStates(e, into, from, base).0, ColsOf(e))
  {
    MergeStatesAgree(e, h, m, into, from, base);
    MergeTotal(m.schema, m.commits[base].state, m.commits[m.branches[into].head].state, m.commits[m.branches[from].head].state);
  }

  /** What Merge does on both sides, once the branches exist. */
  lemma {:induction false} MergeUnfolds(e: E.State, m: M.State, from: Name, into: Name)
    requires M.Closed(m) && from in e.branches && into in e.branches && from in m.branches && into in m.branches
    requires e.branches[into].headCommit == m.branches[into].head && e.branches[from].headCommit == m.branches[from].head
    requires MergeBases(E.Graph(e), e.branches[into].headCommit, e.branches[from].headCommit)
      == MergeBases(M.Graph(m), m.branches[into].head, m.branches[from].head)
    ensures var bases := MergeBases(M.Graph(m), m.branches[into].head, m.branches[from].head);
      var parents := [e.branches[into].headCommit, e.branches[from].headCommit];
      if |bases| == 1 && Only(bases) in m.commits then
        && E.Merge(e, from, into) == E.Finish(e, e, into, Only(bases), E.MergeStates(e, into, from, Only(bases)), parents)
        && M.Merge(m, from, into) == M.Finish(m, into, Only(bases), m.branches[into].forkCommit,
             M.MergeCommits(m, Only(bases), m.branches[into].head, m.branches[from].head), parents)
      else if |bases| != 1 then
        E.Merge(e, from, into) == (e, Err(AmbiguousBase(|bases|))) && M.Merge(m, from, into) == (m, Err(AmbiguousBase(|bases|)))
      else true
  {
  }

  /** A merge with a single base, finished. */
  lemma {:induction false} MergeOver(e: E.State, h: History, m: M.State, from: Name, into: Name, base: nat) returns (h': History)
    requires Joint(e, h, m) in Lockstep() && M.Closed(m) && HasRoom(e)
    requires from in e.branches && into in e.branches && from in m.branches && into in m.branches && base in e.commits && base in m.commits
    ensures m.branches[into].head in m.commits && m.branches[from].head in m.commits
    ensures var parents := [e.branches[into].headCommit, e.branches[from].headCommit];
      var ours, theirs := m.branches[into].head, m.branches[from].head;
      && E.Finish(e, e, into, base, E.MergeStates(e, into, from, base), parents).1
        == M.Finish(m, into, base, m.branches[into].forkCommit, M.MergeCommits(m, base, ours, theirs), parents).1
      && Joint(E.Finish(e, e, into, base, E.MergeStates(e, into, from, base), parents).0, h',
           M.Finish(m, into, base, m.branches[into].forkCommit, M.MergeCommits(m, base, ours, theirs), parents).0) in Lockstep()
  {
    BranchFacts(e, h, m, into);
    BranchFacts(e, h, m, from);
    MergedTotal(e, h, m, into, from, base);
    var merged, parents := E.MergeStates(e, into, from, base), [e.branches[into].headCommit, e.branches[from].headCommit];
    FinishClean(e, h, m, into, merged.0, parents);
    var done := Extend(h, into, e.branches[into].chain);
    FinishAgrees(Lockstep(), e, h, m, e, into, base, m.branches[into].forkCommit, merged.0, merged.1, parents, done);
    h' := if merged.1 == [] then done else h;
  }

  /** Merge: same base, same merged table, same sorted conflicts, same commit. */
  lemma {:induction false} MergeRefines(e: E.State, h: History, m: M.State, from: Name, into: Name) returns (h': History)
    requires Joint(e, h, m) in Lockstep() && M.Closed(m) && HasRoom(e)
    ensures E.Merge(e, from, into).1 == M.Merge(m, from, into).1
    ensures Joint(E.Merge(e, from, into).0, h', M.Merge(m, from, into).0) in Lockstep()
  {
    h' := h;
    if from in e.branches && into in e.branches {
      MergeBaseAgrees(e, h, m, into, from);
      BranchFacts(e, h, m, into);
      BranchFacts(e, h, m, from);
      MergeUnfolds(e, m, from, into);
      var bases := MergeBases(M.Graph(m), m.branches[into].head, m.branches[from].head);
      if |bases| == 1 {
        h' := MergeOver(e, h, m, from, into, Only(bases));
      }
    }
  }
}
