/** The engine refines the snapshot model, operation by operation: how a recorded
    commit is shown to agree, and Commit itself. */
module Refinement {
  import opened Wrappers
  import opened Core
  import opened Orders
  import opened Versions
  import opened Tiling
  import opened Staging
  import opened Lineage
  import opened Growth
  import opened Writing
  import opened Batches
  import opened Agreement
  import opened Advance
  import E = IntervalMachine
  import M = SnapshotMachine

  /** Room for one more seq on every branch: HeadSeq + 1 < MaxSeq. */
  ghost predicate HasRoom(e: E.State) {
    e.nextID < MAX_SEQ - 1
  }

  // ----- what a batch of versions does to the store -----

  lemma {:induction false} TailUnmoved(rows: seq<Version>, rows': seq<Version>, h: History, b: Name, tail: Chain, pk: PK)
    requires WellFormed(h) && b in h && h[b] != [] && NextTail(h, b, tail) && SameBelow(rows, rows', b, |h[b]|)
    ensures Live(rows', tail, pk) == Live(rows, tail, pk)
  {
    if b != ROOT {
      LiveUnmoved(rows, rows', h, tail, b, |h[b]|, pk);
    }
  }

  lemma {:induction false} TailViewUnmoved(rows: seq<Version>, rows': seq<Version>, h: History, b: Name, tail: Chain)
    requires WellFormed(h) && b in h && h[b] != [] && NextTail(h, b, tail) && SameBelow(rows, rows', b, |h[b]|)
    ensures View(rows', tail) == View(rows, tail)
  {
    forall pk {
      TailUnmoved(rows, rows', h, b, tail, pk);
    }
    SameView(rows, tail, rows', tail);
  }

  lemma {:induction false} PlanStore(e: E.State, h: History, tail: Chain, plan: Plan)
    requires WellFormed(h) && SoundStore(e, h) && plan.branch in h && h[plan.branch] != []
    requires plan in SoundPlans() && plan.n == |h[plan.branch]| < MAX_SEQ && plan.cols == ColsOf(e)
    ensures var rows' := WriteAll(e.rows, plan.versions);
      && SameBelow(e.rows, rows', plan.branch, plan.n)
      && Tiled(rows', Heads(Extend(h, plan.branch, tail)))
      && Followed(rows') && MasksWithin(rows', ColsOf(e)) && CommittedOnly(e.rows, rows')
  {
    var b, n, vs := plan.branch, plan.n, plan.versions;
    var heads, heads' := Heads(h), Heads(Extend(h, b, tail));
    TiledHigher(e.rows, heads, heads');
    UntouchedAbove(e.rows, heads, b, n);
    WriteAllSame(e.rows, vs, b, n, heads');
    WriteAllFollowed(e.rows, vs, b, n);
    WriteAllCommittedOnly(e.rows, vs, b, n, ColsOf(e));
  }

  lemma {:induction false} PlanView(e: E.State, h: History, tail: Chain, plan: Plan)
    requires WellFormed(h) && SoundStore(e, h) && plan.branch in h && h[plan.branch] != []
    requires plan in SoundPlans() && plan.n == |h[plan.branch]| < MAX_SEQ && plan.cols == ColsOf(e)
    requires NextTail(h, plan.branch, tail) && SameBelow(e.rows, WriteAll(e.rows, plan.versions), plan.branch, plan.n)
    requires plan.before == View(e.rows, [Segment(plan.branch, plan.n - 1)] + tail)
    ensures View(WriteAll(e.rows, plan.versions), NewChain(h, plan.branch, tail)) == plan.after
  {
    forall pk {
      TailUnmoved(e.rows, WriteAll(e.rows, plan.versions), h, plan.branch, tail, pk);
    }
    WrittenView(e.rows, plan.versions, plan.branch, plan.n, tail, Heads(h), plan.before, plan.after, ColsOf(e));
  }

  lemma {:induction false} OverlayIs(rows: seq<Version>, b: Name, n: int, tail: Chain, t: Table, inherited: Table)
    requires View(rows, [Segment(b, n)] + tail) == t && View(rows, tail) == inherited
    requires forall pk, c :: Cell(t, pk, c) != Cell(inherited, pk, c) ==> Touched(rows, b, 0, n, pk, c)
    ensures OverlayMasked(rows, [Segment(b, n)] + tail)
  {
    assert ([Segment(b, n)] + tail)[1..] == tail;
  }

  /** What the branch's masks said about its old view, they still say. */
  lemma {:induction false} OverlayKept(rows: seq<Version>, rows': seq<Version>, h: History, b: Name, pk: PK, c: ColID)
    requires WellFormed(h) && Masked(rows, h) && b in h && h[b] != [] && SameBelow(rows, rows', b, |h[b]|)
    requires Cell(View(rows, Top(h, b)), pk, c) != Cell(View(rows, TopTail(h, b)), pk, c)
    ensures Touched(rows', b, 0, |h[b]|, pk, c)
  {
    TopRecorded(h, b);
    assert OverlayMasked(rows, h[b][|h[b]| - 1]);
    assert Touched(rows, b, 0, |h[b]| - 1, pk, c);
    TouchedWider(rows', b, 0, |h[b]| - 1, 0, |h[b]|, pk, c);
  }

  /** Masks covering the change at the head also cover it against the tail. */
  lemma {:induction false} SameTailOverlay(rows: seq<Version>, h: History, b: Name, rows': seq<Version>, t: Table)
    requires WellFormed(h) && Masked(rows, h) && b in h && h[b] != []
    requires SameBelow(rows, rows', b, |h[b]|)
    requires View(rows', [Segment(b, |h[b]|)] + TopTail(h, b)) == t
    requires forall pk, c :: Cell(View(rows, Top(h, b)), pk, c) != Cell(t, pk, c) ==> Touched(rows', b, |h[b]| - 1, |h[b]|, pk, c)
    ensures OverlayMasked(rows', [Segment(b, |h[b]|)] + TopTail(h, b))
  {
    var n, tail := |h[b]|, TopTail(h, b);
    SameTailIsNext(h, b);
    TailViewUnmoved(rows, rows', h, b, tail);
    forall pk, c | Cell(t, pk, c) != Cell(View(rows, tail), pk, c)
      ensures Touched(rows', b, 0, n, pk, c)
    {
      if Cell(View(rows, Top(h, b)), pk, c) != Cell(t, pk, c) {
        TouchedWider(rows', b, n - 1, n, 0, n, pk, c);
      } else {
        OverlayKept(rows, rows', h, b, pk, c);
      }
    }
    OverlayIs(rows', b, n, tail, t, View(rows, tail));
  }

  lemma {:induction false} SameTailChange(rows: seq<Version>, h: History, b: Name, rows': seq<Version>, t: Table)
    requires WellFormed(h) && b in h && h[b] != []
    requires SameBelow(rows, rows', b, |h[b]|)
    requires View(rows', [Segment(b, |h[b]|)] + TopTail(h, b)) == t
    requires forall pk, c :: Cell(View(rows, Top(h, b)), pk, c) != Cell(t, pk, c) ==> Touched(rows', b, |h[b]| - 1, |h[b]|, pk, c)
    ensures ChangeMasked(rows', Top(h, b), [Segment(b, |h[b]|)] + TopTail(h, b))
  {
    var n, top := |h[b]|, Top(h, b);
    var new' := [Segment(b, n)] + TopTail(h, b);
    TopRecorded(h, b);
    ViewUnmoved(rows, rows', h, top, b, n);
    forall pk, c | Cell(View(rows', top), pk, c) != Cell(t, pk, c)
      ensures Between(rows', top, new', pk, c)
    {
      assert Touched(rows', top[0].branch, Min(top[0].upto, new'[0].upto), Max(top[0].upto, new'[0].upto), pk, c);
    }
  }

  /** A sound plan against the branch's view is a sound move over the same tail. */
  lemma {:induction false} PlanMoves(e: E.State, h: History, plan: Plan)
    requires WellFormed(h) && SoundStore(e, h) && plan.branch in h && h[plan.branch] != []
    requires plan in SoundPlans() && plan.n == |h[plan.branch]| < MAX_SEQ && plan.cols == ColsOf(e)
    requires plan.before == View(e.rows, Top(h, plan.branch)) && Total(plan.before, ColsOf(e)) && Total(plan.after, ColsOf(e))
    ensures var tail := TopTail(h, plan.branch);
      && Move(e.rows, h, plan.branch, tail, WriteAll(e.rows, plan.versions), ColsOf(e)) in SoundMoves()
      && View(WriteAll(e.rows, plan.versions), NewChain(h, plan.branch, tail)) == plan.after
      && CommittedOnly(e.rows, WriteAll(e.rows, plan.versions))
  {
    var b, n, tail, rows' := plan.branch, plan.n, TopTail(h, plan.branch), WriteAll(e.rows, plan.versions);
    TopRecorded(h, b);
    SameTailIsNext(h, b);
    PlanStore(e, h, tail, plan);
    assert [Segment(b, n - 1)] + tail == Top(h, b);
    PlanView(e, h, tail, plan);
    forall pk, c | Cell(plan.before, pk, c) != Cell(plan.after, pk, c)
      ensures Touched(rows', b, n - 1, n, pk, c)
    {
      WrittenMask(e.rows, plan.versions, b, n, plan.before, plan.after, ColsOf(e), pk, c);
    }
    SameTailOverlay(e.rows, h, b, rows', plan.after);
    SameTailChange(e.rows, h, b, rows', plan.after);
  }

  // ----- commits over the same tail -----

  lemma {:induction false} BranchFacts(e: E.State, h: History, m: M.State, b: Name)
    requires Joint(e, h, m) in Lockstep() && b in e.branches
    ensures e.schema == m.schema && e.nextID == m.nextID
    ensures b in m.branches && b in h && h[b] != [] && |h[b]| == e.branches[b].headSeq + 1
    ensures 0 <= e.branches[b].headSeq < e.nextID
    ensures Top(h, b) == E.HeadChain(e, b) && TopTail(h, b) == e.branches[b].chain
    ensures e.branches[b].headCommit == m.branches[b].head && e.branches[b].headCommit in e.commits
    ensures e.branches[b].forkCommit == m.branches[b].forkCommit && e.branches[b].parent == m.branches[b].parent
    ensures b != ROOT ==> e.branches[b].forkCommit in e.commits && e.branches[b].parent in e.branches
    ensures b != ROOT ==> View(e.rows, e.branches[b].chain) == View(e.rows, e.commits[e.branches[b].forkCommit].chain)
    ensures b == ROOT ==> e.branches[b].parent == ""
  {
    assert BranchTracked(e, h, b) && BranchAgrees(e, m, b) && HeadResolves(e, b);
  }

  /** A commit whose rows move the store soundly, recorded on both sides, keeps them
      in agreement. The target is the engine's state with the branch already reading
      over its new tail. */
  lemma {:induction false} RecordAgrees(e: E.State, h: History, m: M.State, target: E.State, b: Name, tail: Chain, fork: nat,
      rows': seq<Version>, t: Table, parents: seq<nat>)
    requires Joint(e, h, m) in Lockstep() && M.Closed(m) && b in e.branches && b in m.branches && b in h
    requires Retargeted(e, target, b, tail, fork) && Total(t, ColsOf(e))
    requires Move(e.rows, h, b, tail, rows', ColsOf(e)) in SoundMoves()
    requires View(rows', NewChain(h, b, tail)) == t && CommittedOnly(e.rows, rows')
    requires parents != [] && forall p :: p in parents ==> p in e.commits
    requires b != ROOT ==> fork in e.commits && View(e.rows, tail) == View(e.rows, e.commits[fork].chain)
    ensures Joint(EngineRecord(target, b, rows', parents), Extend(h, b, tail), M.RecordFork(m, b, fork, parents, t)) in Lockstep()
  {
    var e', m' := EngineRecord(target, b, rows', parents), M.RecordFork(m, b, fork, parents, t);
    RecordingIs(e, m, target, e', m', b, tail, fork, rows', parents, t);
    QuietSessions(e, m, e', m');
    AdvanceAgrees(Recording(e, m, e', m', b, tail, fork, rows', parents, t), h, 0);
  }

  /** A sound plan over the branch's own tail, recorded on both sides. */
  lemma {:induction false} PlanAgrees(e: E.State, h: History, m: M.State, plan: Plan, parents: seq<nat>)
    requires Joint(e, h, m) in Lockstep() && M.Closed(m) && HasRoom(e) && plan.branch in e.branches
    requires plan in SoundPlans() && plan.n == e.branches[plan.branch].headSeq + 1 && plan.cols == ColsOf(e)
    requires plan.before == View(e.rows, E.HeadChain(e, plan.branch)) && Total(plan.after, ColsOf(e))
    requires parents != [] && forall p :: p in parents ==> p in e.commits
    ensures plan.branch in m.branches && plan.branch in h
    ensures Joint(EngineRecord(e, plan.branch, WriteAll(e.rows, plan.versions), parents), Extend(h, plan.branch, e.branches[plan.branch].chain),
      M.RecordFork(m, plan.branch, m.branches[plan.branch].forkCommit, parents, plan.after)) in Lockstep()
  {
    var b := plan.branch;
    BranchFacts(e, h, m, b);
    HeadView(e, h, m, b);
    PlanMoves(e, h, plan);
    NotRetargeted(e, b);
    RecordAgrees(e, h, m, e, b, e.branches[b].chain, e.branches[b].forkCommit, WriteAll(e.rows, plan.versions), plan.after, parents);
  }

  ghost function CommitPlan(e: E.State, b: Name, cs: ChangeSet): Plan
    requires b in e.branches
  {
    var current, n := View(e.rows, E.HeadChain(e, b)), e.branches[b].headSeq + 1;
    Plan(b, n, E.ChangeVersions(b, n, e.nextID + 1, ColsOf(e), current, cs, SortedKeys(cs.Keys)), current, M.Apply(current, cs), ColsOf(e))
  }

  lemma {:induction false} CommitPlanSound(e: E.State, b: Name, cs: ChangeSet)
    requires b in e.branches && TotalChanges(cs, ColsOf(e)) && Total(View(e.rows, E.HeadChain(e, b)), ColsOf(e))
    ensures CommitPlan(e, b, cs) in SoundPlans() && Total(CommitPlan(e, b, cs).after, ColsOf(e))
  {
    var plan := CommitPlan(e, b, cs);
    ApplyTotal(plan.before, cs, ColsOf(e));
    ChangeWrites(b, plan.n, e.nextID + 1, ColsOf(e), plan.before, cs);
  }

  lemma {:induction false} CommitPlanned(e: E.State, h: History, m: M.State, b: Name, cs: ChangeSet)
    requires Joint(e, h, m) in Lockstep() && M.Closed(m) && HasRoom(e) && TotalChanges(cs, ColsOf(e)) && b in e.branches
    ensures b in h && b in m.branches && e.branches[b].headCommit == m.branches[b].head && e.nextID == m.nextID
    ensures CommitPlan(e, b, cs).after == M.Apply(m.commits[m.branches[b].head].state, cs)
    ensures var plan := CommitPlan(e, b, cs);
      Joint(EngineRecord(e, b, WriteAll(e.rows, plan.versions), [m.branches[b].head]), Extend(h, b, e.branches[b].chain),
        M.RecordFork(m, b, m.branches[b].forkCommit, [m.branches[b].head], plan.after)) in Lockstep()
  {
    BranchFacts(e, h, m, b);
    HeadView(e, h, m, b);
    CommitPlanSound(e, b, cs);
    PlanAgrees(e, h, m, CommitPlan(e, b, cs), [e.branches[b].headCommit]);
  }

  /** The model's Commit records the next table over the same fork point. */
  lemma {:induction false} ModelCommitUnfolds(m: M.State, b: Name, cs: ChangeSet)
    requires M.Closed(m) && b in m.branches
    ensures var head := m.branches[b].head;
      M.Commit(m, b, cs) == (M.RecordFork(m, b, m.branches[b].forkCommit, [head], M.Apply(m.commits[head].state, cs)), Ok(m.nextID + 1))
  {
    M.SameFork(m, b, [m.branches[b].head], M.Apply(m.commits[m.branches[b].head].state, cs));
  }

  /** The engine's Commit records its plan. */
  lemma {:induction false} EngineCommitUnfolds(e: E.State, b: Name, cs: ChangeSet)
    requires b in e.branches
    ensures E.Commit(e, b, cs) ==
            (EngineRecord(e, b, WriteAll(e.rows, CommitPlan(e, b, cs).versions), [e.branches[b].headCommit]), Ok(e.nextID + 1))
  {
  }

  /** Commit, on both sides, is the plan of the change set recorded: it lands in a
      set of good states when recording the plan does. */
  lemma {:induction false} CommitLands(good: iset<Joint>, e: E.State, m: M.State, b: Name, cs: ChangeSet, done: History)
    requires M.Closed(m) && b in e.branches && b in m.branches
    requires e.branches[b].headCommit == m.branches[b].head && e.nextID == m.nextID
    requires CommitPlan(e, b, cs).after == M.Apply(m.commits[m.branches[b].head].state, cs)
    requires Joint(EngineRecord(e, b, WriteAll(e.rows, CommitPlan(e, b, cs).versions), [m.branches[b].head]), done,
      M.RecordFork(m, b, m.branches[b].forkCommit, [m.branches[b].head], CommitPlan(e, b, cs).after)) in good
    ensures E.Commit(e, b, cs).1 == M.Commit(m, b, cs).1
    ensures Joint(E.Commit(e, b, cs).0, done, M.Commit(m, b, cs).0) in good
  {
    ModelCommitUnfolds(m, b, cs);
    EngineCommitUnfolds(e, b, cs);
  }

  /** Commit: same id, and agreement is kept. */
  lemma {:induction false} CommitRefines(e: E.State, h: History, m: M.State, b: Name, cs: ChangeSet) returns (h': History)
    requires Joint(e, h, m) in Lockstep() && M.Closed(m) && HasRoom(e) && TotalChanges(cs, ColsOf(e))
    ensures E.Commit(e, b, cs).1 == M.Commit(m, b, cs).1
    ensures Joint(E.Commit(e, b, cs).0, h', M.Commit(m, b, cs).0) in Lockstep()
  {
    h' := h;
    if b in e.branches {
      CommitPlanned(e, h, m, b, cs);
      h' := Extend(h, b, e.branches[b].chain);
      CommitLands(Lockstep(), e, m, b, cs, h');
    }
  }
}
