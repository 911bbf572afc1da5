/** One commit on a branch keeps the engine and the model in agreement: what the four
    committing operations share, from the commit graph and the branch records to the
    snapshots and the open sessions. */
module Advance {
  import opened Core
  import opened Versions
  import opened Staging
  import opened Lineage
  import opened Growth
  import opened Agreement
  import E = IntervalMachine
  import M = SnapshotMachine

  // ----- the move of the store -----

  /** The store moves to rows' for a commit on a branch that now reads over the tail. */
  datatype Move = Move(rows: seq<Version>, h: History, branch: Name, tail: Chain, rows': seq<Version>, cols: set<ColID>)

  ghost function NewChain(h: History, b: Name, tail: Chain): Chain
    requires b in h
  {
    [Segment(b, |h[b]|)] + tail
  }

  /** The move keeps the tiling, disturbs nothing below the new seq, and its masks
      cover what it changed against the old view and against the tail. */
  ghost predicate SoundMove(move: Move) {
    match move
    case Move(rows, h, b, tail, rows', cols) =>
      && b in h && h[b] != []
      && NextTail(h, b, tail)
      && SameBelow(rows, rows', b, |h[b]|)
      && Tiled(rows', Heads(Extend(h, b, tail)))
      && Followed(rows')
      && MasksWithin(rows', cols)
      && OverlayMasked(rows', NewChain(h, b, tail))
      && ChangeMasked(rows', Top(h, b), NewChain(h, b, tail))
  }

  ghost function SoundMoves(): iset<Move> {
    iset move: Move | SoundMove(move)
  }

  // ----- one commit, recorded on both sides -----

  /** The engine and the model each record a commit on the branch: the engine moves
      its store and reads the branch over the tail, the model stores the table. */
  datatype Recording = Recording(
    e: E.State, m: M.State, e': E.State, m': M.State,
    branch: Name, tail: Chain, fork: nat, rows': seq<Version>, parents: seq<nat>, table: Table)

  ghost predicate EngineCommits(e: E.State, e': E.State, b: Name, tail: Chain, fork: nat, rows': seq<Version>, parents: seq<nat>)
    requires b in e.branches
  {
    var id, n, r := e.nextID + 1, e.branches[b].headSeq + 1, e.branches[b];
    && e'.schema == e.schema && e'.nextSess == e.nextSess && e'.nextID == id && e'.rows == rows'
    && b in e'.branches
    && e'.branches == e.branches[b := e'.branches[b]]
    && e'.branches[b].headSeq == n && e'.branches[b].headCommit == id
    && e'.branches[b].parent == r.parent && e'.branches[b].forkCommit == fork && e'.branches[b].chain == tail
    && e'.commits == e.commits[id := E.CommitMeta(id, parents, b, n, [Segment(b, n)] + tail)]
  }

  ghost predicate ModelCommits(m: M.State, m': M.State, b: Name, fork: nat, parents: seq<nat>, t: Table)
    requires b in m.branches
  {
    var id, r := m.nextID + 1, m.branches[b];
    && m'.schema == m.schema && m'.nextSess == m.nextSess && m'.nextID == id
    && b in m'.branches
    && m'.branches == m.branches[b := m'.branches[b]]
    && m'.branches[b].head == id && m'.branches[b].parent == r.parent && m'.branches[b].forkCommit == fork
    && id in m'.commits
    && m'.commits == m.commits[id := m'.commits[id]]
    && m'.commits[id].parents == parents && m'.commits[id].state == t
  }

  ghost predicate RecordsBoth(r: Recording) {
    match r
    case Recording(e, m, e', m', b, tail, fork, rows', parents, t) =>
      && b in e.branches && b in m.branches
      && EngineCommits(e, e', b, tail, fork, rows', parents)
      && ModelCommits(m, m', b, fork, parents, t)
      && (b != ROOT ==> fork in e.commits)
      && parents != [] && (forall p :: p in parents ==> p in e.commits)
  }

  ghost function Recordings(): iset<Recording> {
    iset r: Recording | RecordsBoth(r)
  }

  /** The move of the store that a recording makes. */
  ghost function MoveOf(r: Recording, h: History): Move {
    Move(r.e.rows, h, r.branch, r.tail, r.rows', ColsOf(r.e))
  }

  lemma {:induction false} AdvanceGraph(r: Recording)
    requires r in Recordings() && SameGraph(r.e, r.m)
    ensures SameGraph(r.e', r.m')
  {
    forall p | p in r.parents
      ensures p <= r.e.nextID
    {
      assert CommitAgrees(r.e, r.m, p);
    }
    forall id | id in r.e'.commits
      ensures CommitAgrees(r.e', r.m', id)
    {
      if id in r.e.commits {
        assert CommitAgrees(r.e, r.m, id);
      }
    }
  }

  lemma {:induction false} AdvanceBranches(r: Recording)
    requires r in Recordings() && SameGraph(r.e, r.m) && SameBranches(r.e, r.m)
    ensures SameBranches(r.e', r.m')
  {
    forall a | a in r.e'.branches
      ensures BranchAgrees(r.e', r.m', a)
    {
      assert BranchAgrees(r.e, r.m, a);
    }
  }

  lemma {:induction false} AdvanceTracked(r: Recording, h: History)
    requires r in Recordings() && Tracked(r.e, h) && r.branch in h && h[r.branch] != [] && NextTail(h, r.branch, r.tail)
    ensures Tracked(r.e', Extend(h, r.branch, r.tail))
  {
    var e, e', b, tail := r.e, r.e', r.branch, r.tail;
    var h' := Extend(h, b, tail);
    ExtendWellFormed(h, b, tail);
    assert BranchTracked(e, h, b);
    TopRecorded(h, b);
    if b != ROOT {
      assert Top(h, b)[1..] == e.branches[b].chain;
    }
    forall a | a in e'.branches
      ensures BranchTracked(e', h', a)
    {
      assert BranchTracked(e, h, a);
    }
    forall id | id in e'.commits
      ensures CommitTracked(e', h', id)
    {
      if id == e'.nextID {
        TopRecorded(h', b);
      } else {
        assert CommitTracked(e, h, id);
        RecordedGrows(h, b, tail, e.commits[id].chain);
      }
    }
  }

  lemma {:induction false} AdvanceStore(r: Recording, h: History)
    requires r in Recordings() && WellFormed(h) && SoundStore(r.e, h) && MoveOf(r, h) in SoundMoves()
    ensures WellFormed(Extend(h, r.branch, r.tail)) && SoundStore(r.e', Extend(h, r.branch, r.tail))
  {
    ExtendMasked(r.e.rows, r.rows', h, r.branch, r.tail);
  }

  lemma {:induction false} AdvanceSnapshots(r: Recording, h: History)
    requires r in Recordings() && SameGraph(r.e, r.m) && Tracked(r.e, h) && SameSnapshots(r.e, r.m) && r.branch in h
    requires SameBelow(r.e.rows, r.rows', r.branch, |h[r.branch]|)
    requires View(r.rows', NewChain(h, r.branch, r.tail)) == r.table && Total(r.table, ColsOf(r.e))
    ensures r.e'.commits.Keys == r.m'.commits.Keys && SameSnapshots(r.e', r.m')
  {
    assert BranchTracked(r.e, h, r.branch);
    forall id | id in r.e'.commits
      ensures SnapshotAgrees(r.e', r.m', id)
    {
      if id != r.e'.nextID {
        assert CommitTracked(r.e, h, id) && SnapshotAgrees(r.e, r.m, id);
        ViewUnmoved(r.e.rows, r.rows', h, r.e.commits[id].chain, r.branch, |h[r.branch]|);
      }
    }
  }

  /** A commit recorded before does not move, and is not the new one. */
  lemma {:induction false} CommitViewUnmoved(e: E.State, h: History, m: M.State, rows': seq<Version>, id: nat, b: Name, n: int)
    requires SameGraph(e, m) && Tracked(e, h) && SameBelow(e.rows, rows', b, n) && id in e.commits
    requires b in h ==> |h[b]| <= n
    ensures View(rows', e.commits[id].chain) == View(e.rows, e.commits[id].chain)
    ensures id <= e.nextID
  {
    assert CommitTracked(e, h, id) && CommitAgrees(e, m, id);
    ViewUnmoved(e.rows, rows', h, e.commits[id].chain, b, n);
  }

  /** Isolation: another branch, and its fork point, read as before. */
  lemma {:induction false} OtherHeadUnmoved(e: E.State, h: History, m: M.State, rows': seq<Version>, b: Name, a: Name)
    requires SameGraph(e, m) && Tracked(e, h) && HeadsResolve(e) && b in h && SameBelow(e.rows, rows', b, |h[b]|)
    requires a in e.branches
    ensures e.branches[a].headCommit in e.commits && e.branches[a].headCommit <= e.nextID
    ensures View(rows', E.HeadChain(e, a)) == View(e.rows, E.HeadChain(e, a))
    ensures View(rows', E.HeadChain(e, a)) == View(rows', e.commits[e.branches[a].headCommit].chain)
    ensures a != ROOT ==> e.branches[a].forkCommit in e.commits && e.branches[a].forkCommit <= e.nextID
    ensures a != ROOT ==> View(rows', e.branches[a].chain) == View(rows', e.commits[e.branches[a].forkCommit].chain)
  {
    var n := |h[b]|;
    assert HeadResolves(e, a) && BranchTracked(e, h, a);
    TopRecorded(h, a);
    ViewUnmoved(e.rows, rows', h, E.HeadChain(e, a), b, n);
    CommitViewUnmoved(e, h, m, rows', e.branches[a].headCommit, b, n);
    if a != ROOT {
      RecordedTail(h, Top(h, a));
      assert Top(h, a)[1..] == e.branches[a].chain;
      ViewUnmoved(e.rows, rows', h, e.branches[a].chain, b, n);
      CommitViewUnmoved(e, h, m, rows', e.branches[a].forkCommit, b, n);
    }
  }

  lemma {:induction false} AdvanceHeads(r: Recording, h: History)
    requires r in Recordings() && SameGraph(r.e, r.m) && Tracked(r.e, h) && HeadsResolve(r.e) && r.branch in h
    requires SameBelow(r.e.rows, r.rows', r.branch, |h[r.branch]|)
    requires r.branch != ROOT ==> Recorded(h, r.tail) && r.fork in r.e.commits && View(r.e.rows, r.tail) == View(r.e.rows, r.e.commits[r.fork].chain)
    ensures HeadsResolve(r.e')
  {
    var n := |h[r.branch]|;
    forall a | a in r.e'.branches
      ensures HeadResolves(r.e', a)
    {
      if a != r.branch {
        OtherHeadUnmoved(r.e, h, r.m, r.rows', r.branch, a);
      } else if a != ROOT {
        ViewUnmoved(r.e.rows, r.rows', h, r.tail, r.branch, n);
        CommitViewUnmoved(r.e, h, r.m, r.rows', r.fork, r.branch, n);
      }
    }
  }

  // ----- sessions -----

  /** The sessions after the commit: the same, except that one may have been closed. */
  ghost predicate SessionsKept(e: E.State, m: M.State, e': E.State, m': M.State, closed: nat)
    requires e.sessions.Keys == m.sessions.Keys
  {
    && e'.sessions.Keys == e.sessions.Keys && m'.sessions.Keys == m.sessions.Keys
    && (forall sid :: sid in e.sessions && sid != closed ==> e'.sessions[sid] == e.sessions[sid] && m'.sessions[sid] == m.sessions[sid])
    && (closed in e.sessions ==>
          && e'.sessions[closed] == e.sessions[closed].(open := false)
          && m'.sessions[closed] == m.sessions[closed].(open := false))
  }

  lemma {:induction false} AdvanceSessions(e: E.State, m: M.State, e': E.State, m': M.State, closed: nat)
    requires SameSessions(e, m) && SessionsKept(e, m, e', m', closed)
    requires e'.nextSess == e.nextSess && m'.nextSess == m.nextSess
    requires e.branches.Keys <= e'.branches.Keys && e.commits.Keys <= e'.commits.Keys
    ensures SameSessions(e', m')
  {
    forall sid | sid in e'.sessions
      ensures SessionAgrees(e', m', sid)
    {
      assert SessionAgrees(e, m, sid);
    }
  }

  /** A session's view depends on its base chain and its own staged rows only. */
  lemma {:induction false} SessionViewUnmoved(rows: seq<Version>, rows': seq<Version>, chain: Chain, sid: nat)
    requires View(rows', chain) == View(rows, chain)
    requires forall pk :: StagedAt(rows', sid, pk) == StagedAt(rows, sid, pk)
    ensures SessionView(rows', chain, sid) == SessionView(rows, chain, sid)
    ensures StagedMasked(rows, chain, sid) ==> StagedMasked(rows', chain, sid)
  {
    forall pk
      ensures Lookup(SessionView(rows', chain, sid), pk) == Lookup(SessionView(rows, chain, sid), pk)
    {
      SessionViewAt(rows', chain, sid, pk);
      SessionViewAt(rows, chain, sid, pk);
      ViewAt(rows', chain, pk);
      ViewAt(rows, chain, pk);
      assert StagedAt(rows', sid, pk) == StagedAt(rows, sid, pk);
    }
    SameLookups(SessionView(rows', chain, sid), SessionView(rows, chain, sid));
  }

  /** Staged rows after the commit: unchanged for every session but the closed one. */
  ghost predicate StagedKept(rows: seq<Version>, rows': seq<Version>, owner': map<nat, Name>, closed: nat) {
    && StagedUnique(rows') && StagedOwned(rows', owner')
    && (forall sid, pk :: sid != 0 && sid != closed ==> StagedAt(rows', sid, pk) == StagedAt(rows, sid, pk))
  }

  /** No commit changes what another open session sees. */
  lemma {:induction false} AdvanceSessionViews(e: E.State, h: History, m: M.State, e': E.State, m': M.State, b: Name, closed: nat)
    requires SameGraph(e, m) && Tracked(e, h) && SameSessions(e, m) && SameSessionViews(e, m) && b in h
    requires SessionsKept(e, m, e', m', closed) && e'.schema == e.schema
    requires SameBelow(e.rows, e'.rows, b, |h[b]|) && StagedKept(e.rows, e'.rows, Owners(e'), closed)
    requires e.commits.Keys <= e'.commits.Keys && forall id :: id in e.commits ==> e'.commits[id] == e.commits[id]
    ensures SameSessionViews(e', m')
  {
    forall sid | sid in e'.sessions
      ensures e'.sessions[sid].base in e'.commits && SessionViewAgrees(e', m', sid)
    {
      assert SessionAgrees(e, m, sid) && SessionViewAgrees(e, m, sid);
      var base := e.sessions[sid].base;
      if sid != closed {
        CommitViewUnmoved(e, h, m, e'.rows, base, b, |h[b]|);
        SessionViewUnmoved(e.rows, e'.rows, e.commits[base].chain, sid);
      }
    }
  }

  /** What a commit does to the sessions, on both sides. */
  datatype SessionMove = SessionMove(e: E.State, m: M.State, e': E.State, m': M.State, closed: nat)

  ghost function SoundSessionMoves(): iset<SessionMove> {
    iset s: SessionMove |
      && s.e.sessions.Keys == s.m.sessions.Keys
      && SessionsKept(s.e, s.m, s.e', s.m', s.closed)
      && StagedKept(s.e.rows, s.e'.rows, Owners(s.e'), s.closed)
  }

  // ----- all of it together -----

  /** What a recorded commit must satisfy besides its two records. */
  ghost predicate Faithful(r: Recording, h: History, closed: nat) {
    && MoveOf(r, h) in SoundMoves()
    && View(r.rows', NewChain(h, r.branch, r.tail)) == r.table && Total(r.table, ColsOf(r.e))
    && (r.branch != ROOT ==> r.fork in r.e.commits && View(r.e.rows, r.tail) == View(r.e.rows, r.e.commits[r.fork].chain))
    && SessionMove(r.e, r.m, r.e', r.m', closed) in SoundSessionMoves()
  }

  lemma {:induction false} AdvanceStoreParts(r: Recording, h: History, closed: nat)
    requires Joint(r.e, h, r.m) in Lockstep() && r in Recordings() && Faithful(r, h, closed)
    ensures Tracked(r.e', Extend(h, r.branch, r.tail))
    ensures SoundStore(r.e', Extend(h, r.branch, r.tail))
    ensures SameSnapshots(r.e', r.m') && HeadsResolve(r.e')
  {
    AdvanceTracked(r, h);
    AdvanceStore(r, h);
    AdvanceSnapshots(r, h);
    AdvanceHeads(r, h);
  }

  lemma {:induction false} AdvanceRecordParts(r: Recording, h: History, closed: nat)
    requires Joint(r.e, h, r.m) in Lockstep() && r in Recordings() && Faithful(r, h, closed)
    ensures SameGraph(r.e', r.m') && SameBranches(r.e', r.m')
    ensures SameSessions(r.e', r.m') && SameSessionViews(r.e', r.m')
  {
    AdvanceGraph(r);
    AdvanceBranches(r);
    NewIdIsNew(r.e, r.m);
    AdvanceSessions(r.e, r.m, r.e', r.m', closed);
    AdvanceSessionViews(r.e, h, r.m, r.e', r.m', r.branch, closed);
  }

  lemma {:induction false} NewIdIsNew(e: E.State, m: M.State)
    requires SameGraph(e, m)
    ensures e.nextID + 1 !in e.commits
  {
    forall id | id in e.commits
      ensures id <= e.nextID
    {
      assert CommitAgrees(e, m, id);
    }
  }

  /** A commit the engine and the model both record keeps them in agreement, when
      its store moves soundly and its view is the model's table. */
  lemma {:induction false} AdvanceAgrees(r: Recording, h: History, closed: nat)
    requires Joint(r.e, h, r.m) in Lockstep() && r in Recordings() && Faithful(r, h, closed)
    ensures Joint(r.e', Extend(h, r.branch, r.tail), r.m') in Lockstep()
  {
    AdvanceStoreParts(r, h, closed);
    AdvanceRecordParts(r, h, closed);
  }

  // ----- recordings, from the two machines -----

  /** The engine's state before the commit is recorded: the branch reads over the
      given tail and counts the given commit as its fork point. */
  ghost predicate Retargeted(e: E.State, target: E.State, b: Name, tail: Chain, fork: nat)
    requires b in e.branches
  {
    && b in target.branches
    && target == e.(branches := e.branches[b := target.branches[b]])
    && target.branches[b] == e.branches[b].(forkSeq := target.branches[b].forkSeq, forkCommit := fork, chain := tail)
  }

  lemma {:induction false} NotRetargeted(e: E.State, b: Name)
    requires b in e.branches
    ensures Retargeted(e, e, b, e.branches[b].chain, e.branches[b].forkCommit)
  {
  }

  ghost function EngineRecord(target: E.State, b: Name, rows': seq<Version>, parents: seq<nat>): E.State
    requires b in target.branches
  {
    E.RecordCommit(target, rows', b, target.branches[b].headSeq + 1, target.nextID + 1, parents)
  }

  lemma {:induction false} EngineRecordCommits(e: E.State, target: E.State, e': E.State,
      b: Name, tail: Chain, fork: nat, rows': seq<Version>, parents: seq<nat>)
    requires b in e.branches && Retargeted(e, target, b, tail, fork)
    requires e' == EngineRecord(target, b, rows', parents).(sessions := e'.sessions)
    ensures EngineCommits(e, e', b, tail, fork, rows', parents)
  {
    assert E.ChainFor(target, b, e.branches[b].headSeq + 1) == [Segment(b, e.branches[b].headSeq + 1)] + tail;
  }

  lemma {:induction false} ModelRecordCommits(m: M.State, m': M.State, b: Name, fork: nat, parents: seq<nat>, t: Table)
    requires b in m.branches && M.Closed(m)
    requires m' == M.RecordFork(m, b, fork, parents, t).(sessions := m'.sessions)
    ensures ModelCommits(m, m', b, fork, parents, t)
  {
  }

  lemma {:induction false} RecordingIs(e: E.State, m: M.State, target: E.State, e': E.State, m': M.State,
      b: Name, tail: Chain, fork: nat, rows': seq<Version>, parents: seq<nat>, t: Table)
    requires b in e.branches && b in m.branches && M.Closed(m) && Retargeted(e, target, b, tail, fork)
    requires e' == EngineRecord(target, b, rows', parents).(sessions := e'.sessions)
    requires m' == M.RecordFork(m, b, fork, parents, t).(sessions := m'.sessions)
    requires (b != ROOT ==> fork in e.commits) && parents != [] && forall p :: p in parents ==> p in e.commits
    ensures Recording(e, m, e', m', b, tail, fork, rows', parents, t) in Recordings()
  {
    EngineRecordCommits(e, target, e', b, tail, fork, rows', parents);
    ModelRecordCommits(m, m', b, fork, parents, t);
  }

  // ----- commits that leave the sessions alone -----

  lemma {:induction false} SessionIdsPositive(e: E.State, m: M.State)
    requires SameSessions(e, m)
    ensures 0 !in e.sessions
  {
    forall sid | sid in e.sessions
      ensures sid != 0
    {
      assert SessionAgrees(e, m, sid);
    }
  }

  /** A commit that only closes and appends committed rows leaves every session alone. */
  lemma {:induction false} QuietSessions(e: E.State, m: M.State, e': E.State, m': M.State)
    requires SameSessions(e, m) && SameSessionViews(e, m)
    requires e'.sessions == e.sessions && m'.sessions == m.sessions && CommittedOnly(e.rows, e'.rows)
    ensures SessionMove(e, m, e', m', 0) in SoundSessionMoves()
  {
    SessionIdsPositive(e, m);
    assert Owners(e') == Owners(e);
    CommittedOnlyStaged(e.rows, e'.rows, Owners(e));
  }
}
