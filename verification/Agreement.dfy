/** What holds between the engine and the model after every step: the same graph, the
    same branches and snapshots, a tiled store, a well-formed history with sound masks,
    and sessions that see their overlays. */
module Agreement {
  import opened Wrappers
  import opened Core
  import opened Dag
  import opened Versions
  import opened Staging
  import opened Lineage
  import opened Growth
  import opened ThreeWay
  import E = IntervalMachine
  import M = SnapshotMachine

  ghost function ColsOf(e: E.State): set<ColID> {
    ColumnSet(e.schema)
  }

  // Each quantified fact is stated through a named predicate of one branch, commit
  // or session, which is also its trigger: a proof names the instances it uses.

  ghost predicate CommitAgrees(e: E.State, m: M.State, id: nat)
    requires id in e.commits && id in m.commits
  {
    && 1 <= id <= e.nextID
    && e.commits[id].parents == m.commits[id].parents
    && (forall p :: p in e.commits[id].parents ==> p in e.commits && p < id)
    && (id != 1 ==> e.commits[id].parents != [])
  }

  /** Same schema, counters, commit ids and parents; parents are older commits. */
  ghost predicate SameGraph(e: E.State, m: M.State) {
    && e.schema == m.schema && DistinctColumns(e.schema)
    && e.nextID == m.nextID
    && e.commits.Keys == m.commits.Keys && 1 in e.commits
    && (forall id {:trigger CommitAgrees(e, m, id)} :: id in e.commits ==> CommitAgrees(e, m, id))
  }

  ghost predicate BranchAgrees(e: E.State, m: M.State, b: Name)
    requires b in e.branches && b in m.branches
  {
    && e.branches[b].headCommit == m.branches[b].head
    && e.branches[b].headCommit in e.commits
    && e.branches[b].parent == m.branches[b].parent
    && e.branches[b].forkCommit == m.branches[b].forkCommit
    && (if b == ROOT then e.branches[b].parent == ""
        else e.branches[b].parent in e.branches && e.branches[b].forkCommit in e.commits)
  }

  /** Same branches with the same heads, parents and fork commits. */
  ghost predicate SameBranches(e: E.State, m: M.State) {
    && e.branches.Keys == m.branches.Keys && ROOT in e.branches
    && (forall b {:trigger BranchAgrees(e, m, b)} :: b in e.branches ==> BranchAgrees(e, m, b))
  }

  ghost predicate BranchTracked(e: E.State, h: History, b: Name)
    requires b in e.branches
  {
    && b in h && h[b] != []
    && 0 <= e.branches[b].headSeq < e.nextID
    && |h[b]| == e.branches[b].headSeq + 1
    && Top(h, b) == E.HeadChain(e, b)
    && (if b == ROOT then e.branches[b].chain == []
        else e.branches[b].chain != [] && e.branches[b].chain[0].branch == e.branches[b].parent)
  }

  ghost predicate CommitTracked(e: E.State, h: History, id: nat)
    requires id in e.commits
  {
    Recorded(h, e.commits[id].chain)
  }

  /** The history records every branch up to its head and the chain of every commit. */
  ghost predicate Tracked(e: E.State, h: History) {
    && WellFormed(h)
    && h.Keys == e.branches.Keys
    && (forall b {:trigger BranchTracked(e, h, b)} :: b in e.branches ==> BranchTracked(e, h, b))
    && (forall id {:trigger CommitTracked(e, h, id)} :: id in e.commits ==> CommitTracked(e, h, id))
  }

  /** The store tiles, and its masks are sound and stay inside the schema. */
  ghost predicate SoundStore(e: E.State, h: History)
    requires WellFormed(h)
  {
    && Tiled(e.rows, Heads(h))
    && Followed(e.rows)
    && Masked(e.rows, h)
    && MasksWithin(e.rows, ColsOf(e))
  }

  ghost predicate SnapshotAgrees(e: E.State, m: M.State, id: nat)
    requires id in e.commits && id in m.commits
  {
    View(e.rows, e.commits[id].chain) == m.commits[id].state && Total(m.commits[id].state, ColsOf(e))
  }

  /** Every commit resolves to the model's snapshot. */
  ghost predicate SameSnapshots(e: E.State, m: M.State)
    requires e.commits.Keys == m.commits.Keys
  {
    forall id {:trigger SnapshotAgrees(e, m, id)} :: id in e.commits ==> SnapshotAgrees(e, m, id)
  }

  /** A branch reads as its head commit, and its tail as its fork commit. */
  ghost predicate HeadResolves(e: E.State, b: Name)
    requires b in e.branches
  {
    && e.branches[b].headCommit in e.commits
    && View(e.rows, E.HeadChain(e, b)) == View(e.rows, e.commits[e.branches[b].headCommit].chain)
    && (b != ROOT ==>
          && e.branches[b].forkCommit in e.commits
          && View(e.rows, e.branches[b].chain) == View(e.rows, e.commits[e.branches[b].forkCommit].chain))
  }

  ghost predicate HeadsResolve(e: E.State) {
    forall b {:trigger HeadResolves(e, b)} :: b in e.branches ==> HeadResolves(e, b)
  }

  // ----- sessions -----

  /** The branch of every open session. */
  ghost function Owners(e: E.State): map<nat, Name> {
    map sid | sid in e.sessions && e.sessions[sid].open :: e.sessions[sid].branch
  }

  /** The session's staged masks cover every cell it changed against its base. */
  ghost predicate StagedMasked(rows: seq<Version>, chain: Chain, sid: nat) {
    forall pk, c :: StagedAt(rows, sid, pk).Some?
      && Get(StagedAt(rows, sid, pk).value.0, c) != Cell(View(rows, chain), pk, c)
      ==> c in StagedAt(rows, sid, pk).value.1
  }

  ghost predicate SessionAgrees(e: E.State, m: M.State, sid: nat)
    requires sid in e.sessions && sid in m.sessions
  {
    var s, t := e.sessions[sid], m.sessions[sid];
    && 1 <= sid <= e.nextSess
    && s.branch == t.branch && s.base == t.base && s.open == t.open
    && s.branch in e.branches && s.branch != ROOT && s.base in e.commits
  }

  ghost predicate SessionViewAgrees(e: E.State, m: M.State, sid: nat)
    requires sid in e.sessions && sid in m.sessions && e.sessions[sid].base in e.commits
  {
    var chain, t := e.commits[e.sessions[sid].base].chain, m.sessions[sid];
    e.sessions[sid].open ==>
      && SessionView(e.rows, chain, sid) == t.overlay
      && Total(t.overlay, ColsOf(e))
      && StagedMasked(e.rows, chain, sid)
  }

  /** Same sessions on the same branches and bases. */
  ghost predicate SameSessions(e: E.State, m: M.State) {
    && e.nextSess == m.nextSess
    && e.sessions.Keys == m.sessions.Keys
    && (forall sid {:trigger SessionAgrees(e, m, sid)} :: sid in e.sessions ==> SessionAgrees(e, m, sid))
  }

  /** Every open session sees the model's overlay, and its masks cover its changes. */
  ghost predicate SameSessionViews(e: E.State, m: M.State) {
    && StagedUnique(e.rows)
    && StagedOwned(e.rows, Owners(e))
    && e.sessions.Keys == m.sessions.Keys
    && (forall sid {:trigger SessionViewAgrees(e, m, sid)} :: sid in e.sessions ==>
          e.sessions[sid].base in e.commits && SessionViewAgrees(e, m, sid))
  }

  /** The engine's state, the history of its chains, and the model's state. */
  datatype Joint = Joint(e: E.State, h: History, m: M.State)

  /** The whole invariant. */
  ghost predicate Agree(joint: Joint) {
    match joint
    case Joint(e, h, m) =>
    && SameGraph(e, m)
    && SameBranches(e, m)
    && Tracked(e, h)
    && SoundStore(e, h)
    && SameSnapshots(e, m)
    && HeadsResolve(e)
    && SameSessions(e, m)
    && SameSessionViews(e, m)
  }

  /** The pairs of states that are in agreement. */
  ghost function Lockstep(): iset<Joint> {
    iset joint: Joint | Agree(joint)
  }

  // ----- consequences -----

  lemma {:induction false} GraphsAgree(e: E.State, m: M.State)
    requires SameGraph(e, m)
    ensures E.Graph(e) == M.Graph(m) && Downward(E.Graph(e))
  {
    forall id | id in e.commits
      ensures e.commits[id].parents == m.commits[id].parents
      ensures forall p :: p in e.commits[id].parents ==> p < id
    {
      assert CommitAgrees(e, m, id);
    }
  }

  /** The view of a branch, on both sides. */
  lemma {:induction false} HeadView(e: E.State, h: History, m: M.State, b: Name)
    requires SameGraph(e, m) && SameBranches(e, m) && Tracked(e, h) && SameSnapshots(e, m) && HeadsResolve(e)
    requires b in e.branches
    ensures m.branches[b].head in m.commits
    ensures View(e.rows, E.HeadChain(e, b)) == m.commits[m.branches[b].head].state
    ensures Total(View(e.rows, E.HeadChain(e, b)), ColsOf(e))
    ensures Recorded(h, E.HeadChain(e, b)) && Top(h, b) == E.HeadChain(e, b)
  {
    assert BranchTracked(e, h, b) && BranchAgrees(e, m, b) && HeadResolves(e, b);
    assert SnapshotAgrees(e, m, e.branches[b].headCommit);
    TopRecorded(h, b);
  }

  // ----- the empty repository -----

  lemma {:induction false} EmptyView(chain: Chain)
    ensures View([], chain) == map[]
  {
    forall pk
      ensures Live([], chain, pk) == None
    {
      if Live([], chain, pk).Some? {
        LiveIsStored([], chain, pk);
      }
    }
    ViewIs([], chain, map[]);
  }

  ghost function InitHistory(): History {
    map[ROOT := [[Segment(ROOT, 0)]]]
  }

  lemma {:induction false} InitWellFormed()
    ensures WellFormed(InitHistory()) && Recorded(InitHistory(), [Segment(ROOT, 0)])
  {
    var h := InitHistory();
    assert Known(h, ROOT, 0);
    forall b, s | Known(h, b, s)
      ensures b == ROOT && s == 0 && h[b][s] == [Segment(ROOT, 0)] && Linked(h, b, s)
    {
    }
  }

  lemma {:induction false} InitMasked()
    requires WellFormed(InitHistory())
    ensures Masked([], InitHistory())
  {
    var h := InitHistory();
    var chain := [Segment(ROOT, 0)];
    EmptyView(chain);
    EmptyView(chain[1..]);
    NoChange([], chain);
    forall b, s | Known(h, b, s)
      ensures h[b][s] == chain
    {
    }
  }

  lemma {:induction false} InitAgrees(schema: seq<ColID>)
    requires DistinctColumns(schema)
    ensures Joint(E.Init(schema), InitHistory(), M.Init(schema)) in Lockstep()
  {
    var e, m, h := E.Init(schema), M.Init(schema), InitHistory();
    InitWellFormed();
    InitMasked();
    EmptyView([Segment(ROOT, 0)]);
    assert E.HeadChain(e, ROOT) == [Segment(ROOT, 0)];
    assert Tracked(e, h) by {
      assert BranchTracked(e, h, ROOT);
    }
    assert SameGraph(e, m);
    assert SameSnapshots(e, m);
    assert HeadsResolve(e);
  }
}
