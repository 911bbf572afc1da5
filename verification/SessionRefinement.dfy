/** The session operations refine the model: what a session stages stays private, and
    what it commits is exactly what it saw when it committed. */
module SessionRefinement {
  import opened Wrappers
  import opened Core
  import opened Orders
  import opened Versions
  import opened Staging
  import opened Lineage
  import opened Growth
  import opened Writing
  import opened Agreement
  import opened Advance
  import opened Refinement
  import Batches
  import E = IntervalMachine
  import M = SnapshotMachine

  // ----- steps that leave every committed row as it reads -----

  lemma {:induction false} SameCommittedView(rows: seq<Version>, rows': seq<Version>, chain: Chain)
    requires SameCommitted(rows, rows')
    ensures View(rows', chain) == View(rows, chain)
  {
    forall pk {
      SameCommittedLive(rows, rows', chain, pk);
    }
    SameView(rows, chain, rows', chain);
  }

  lemma {:induction false} SameCommittedLive(rows: seq<Version>, rows': seq<Version>, chain: Chain, pk: PK)
    requires SameCommitted(rows, rows')
    ensures Live(rows', chain, pk) == Live(rows, chain, pk)
    decreases |chain|
  {
    if chain != [] {
      assert At(rows', chain[0].branch, chain[0].upto, pk) == At(rows, chain[0].branch, chain[0].upto, pk);
      SameCommittedLive(rows, rows', chain[1..], pk);
    }
  }

  lemma {:induction false} SameCommittedMasked(rows: seq<Version>, rows': seq<Version>, h: History)
    requires SameCommitted(rows, rows') && WellFormed(h) && Masked(rows, h)
    ensures Masked(rows', h)
  {
    forall b, s | Known(h, b, s)
      ensures OverlayMasked(rows', h[b][s])
    {
      assert OverlayMasked(rows, h[b][s]);
      SameCommittedView(rows, rows', h[b][s]);
      SameCommittedView(rows, rows', h[b][s][1..]);
    }
    forall b, u, w | Known(h, b, u) && Known(h, b, w) && u <= w
      ensures ChangeMasked(rows', h[b][u], h[b][w])
    {
      assert ChangeMasked(rows, h[b][u], h[b][w]);
      SameCommittedChange(rows, rows', h[b][u], h[b][w]);
    }
  }

  lemma {:induction false} SameCommittedChange(rows: seq<Version>, rows': seq<Version>, x: Chain, y: Chain)
    requires SameCommitted(rows, rows') && ChangeMasked(rows, x, y)
    ensures ChangeMasked(rows', x, y)
  {
    SameCommittedView(rows, rows', x);
    SameCommittedView(rows, rows', y);
    forall pk, c | Between(rows, x, y, pk, c)
      ensures Between(rows', x, y, pk, c)
    {
      var k :| 0 <= k < |x| && k < |y| && Touched(rows, x[k].branch, Min(x[k].upto, y[k].upto), Max(x[k].upto, y[k].upto), pk, c);
      assert Touched(rows', x[k].branch, Min(x[k].upto, y[k].upto), Max(x[k].upto, y[k].upto), pk, c);
    }
  }

  /** The step touches sessions and staged rows only. */
  ghost predicate Private(e: E.State, h: History, m: M.State, e': E.State, m': M.State)
    requires WellFormed(h)
  {
    && e' == e.(rows := e'.rows, sessions := e'.sessions, nextSess := e'.nextSess)
    && m' == m.(sessions := m'.sessions, nextSess := m'.nextSess)
    && SameCommitted(e.rows, e'.rows)
    && Tiled(e'.rows, Heads(h)) && Followed(e'.rows) && MasksWithin(e'.rows, ColsOf(e))
  }

  /** Then graph, branches, history, store, snapshots and heads are as before. */
  lemma {:induction false} PrivateRecords(e: E.State, h: History, m: M.State, e': E.State, m': M.State)
    requires SameGraph(e, m) && SameBranches(e, m) && WellFormed(h) && Private(e, h, m, e', m')
    ensures SameGraph(e', m') && SameBranches(e', m')
  {
    forall id | id in e'.commits
      ensures CommitAgrees(e', m', id)
    {
      assert CommitAgrees(e, m, id);
    }
    forall b | b in e'.branches
      ensures BranchAgrees(e', m', b)
    {
      assert BranchAgrees(e, m, b);
    }
  }

  lemma {:induction false} PrivateStore(e: E.State, h: History, m: M.State, e': E.State, m': M.State)
    requires Tracked(e, h) && SoundStore(e, h) && Private(e, h, m, e', m')
    ensures Tracked(e', h) && SoundStore(e', h)
  {
    SameCommittedMasked(e.rows, e'.rows, h);
    forall id | id in e'.commits
      ensures CommitTracked(e', h, id)
    {
      assert CommitTracked(e, h, id);
    }
    forall b | b in e'.branches
      ensures BranchTracked(e', h, b)
    {
      assert BranchTracked(e, h, b);
    }
  }

  lemma {:induction false} PrivateReads(e: E.State, h: History, m: M.State, e': E.State, m': M.State)
    requires SameGraph(e, m) && WellFormed(h) && SameSnapshots(e, m) && HeadsResolve(e)
    requires Private(e, h, m, e', m')
    ensures SameSnapshots(e', m') && HeadsResolve(e')
  {
    forall id | id in e'.commits
      ensures SnapshotAgrees(e', m', id)
    {
      assert SnapshotAgrees(e, m, id);
      SameCommittedView(e.rows, e'.rows, e.commits[id].chain);
    }
    forall b | b in e'.branches
      ensures HeadResolves(e', b)
    {
      assert HeadResolves(e, b) && E.HeadChain(e', b) == E.HeadChain(e, b);
      SameCommittedView(e.rows, e'.rows, E.HeadChain(e, b));
      SameCommittedView(e.rows, e'.rows, e.commits[e.branches[b].headCommit].chain);
      if b != ROOT {
        SameCommittedView(e.rows, e'.rows, e.branches[b].chain);
        SameCommittedView(e.rows, e'.rows, e.commits[e.branches[b].forkCommit].chain);
      }
    }
  }

  /** Every session but one is as it was, rows included. */
  ghost predicate OthersKept(e: E.State, m: M.State, e': E.State, m': M.State, sid: nat) {
    && e'.sessions.Keys == e.sessions.Keys + {sid} && m'.sessions.Keys == m.sessions.Keys + {sid}
    && (forall other :: other in e.sessions && other != sid ==> e'.sessions[other] == e.sessions[other])
    && (forall other :: other in m.sessions && other != sid ==> m'.sessions[other] == m.sessions[other])
    && (forall other, pk :: other != 0 && other != sid ==> StagedAt(e'.rows, other, pk) == StagedAt(e.rows, other, pk))
    && StagedUnique(e'.rows) && StagedOwned(e'.rows, Owners(e'))
  }

  lemma {:induction false} PrivateSessions(e: E.State, h: History, m: M.State, e': E.State, m': M.State, sid: nat)
    requires WellFormed(h) && SameSessions(e, m) && Private(e, h, m, e', m') && OthersKept(e, m, e', m', sid)
    requires e.nextSess <= e'.nextSess == m'.nextSess && SessionAgrees(e', m', sid)
    ensures SameSessions(e', m')
  {
    forall other | other in e'.sessions
      ensures SessionAgrees(e', m', other)
    {
      if other != sid {
        assert SessionAgrees(e, m, other);
      }
    }
  }

  lemma {:induction false} PrivateViews(e: E.State, h: History, m: M.State, e': E.State, m': M.State, sid: nat)
    requires WellFormed(h) && SameSessions(e, m) && SameSessionViews(e, m)
    requires Private(e, h, m, e', m') && OthersKept(e, m, e', m', sid)
    requires e'.sessions[sid].base in e.commits && SessionViewAgrees(e', m', sid)
    ensures SameSessionViews(e', m')
  {
    forall other | other in e'.sessions
      ensures e'.sessions[other].base in e'.commits && SessionViewAgrees(e', m', other)
    {
      if other != sid {
        assert SessionAgrees(e, m, other) && SessionViewAgrees(e, m, other);
        var chain := e.commits[e.sessions[other].base].chain;
        SameCommittedView(e.rows, e'.rows, chain);
        SessionViewUnmoved(e.rows, e'.rows, chain, other);
      }
    }
  }

  /** A private step keeps the engine and the model in agreement when the one
      session it is about still agrees. */
  lemma {:induction false} PrivateAgrees(e: E.State, h: History, m: M.State, e': E.State, m': M.State, sid: nat)
    requires Joint(e, h, m) in Lockstep() && Private(e, h, m, e', m') && OthersKept(e, m, e', m', sid)
    requires e.nextSess <= e'.nextSess == m'.nextSess && SessionAgrees(e', m', sid)
    requires e'.sessions[sid].base in e.commits && SessionViewAgrees(e', m', sid)
    ensures Joint(e', h, m') in Lockstep()
  {
    PrivateRecords(e, h, m, e', m');
    PrivateStore(e, h, m, e', m');
    PrivateReads(e, h, m, e', m');
    PrivateSessions(e, h, m, e', m', sid);
    PrivateViews(e, h, m, e', m', sid);
  }

  // ----- OpenSession -----

  lemma {:induction false} NothingStaged(rows: seq<Version>, chain: Chain, sid: nat, owner: map<nat, Name>)
    requires sid != 0 && StagedOwned(rows, owner) && sid !in owner
    ensures SessionView(rows, chain, sid) == View(rows, chain) && StagedMasked(rows, chain, sid)
  {
    forall pk
      ensures StagedAt(rows, sid, pk) == None
      ensures Lookup(SessionView(rows, chain, sid), pk) == Lookup(View(rows, chain), pk)
    {
      SessionViewAt(rows, chain, sid, pk);
      ViewAt(rows, chain, pk);
    }
    SameLookups(SessionView(rows, chain, sid), View(rows, chain));
  }

  lemma {:induction false} SessionIdsBounded(e: E.State, m: M.State)
    requires SameSessions(e, m)
    ensures forall sid :: sid in e.sessions || sid in m.sessions ==> 1 <= sid <= e.nextSess
  {
    forall sid | sid in e.sessions
      ensures 1 <= sid <= e.nextSess
    {
      assert SessionAgrees(e, m, sid);
    }
  }

  lemma {:induction false} StoreIsSound(e: E.State, h: History)
    requires WellFormed(h) && SoundStore(e, h)
    ensures SameCommitted(e.rows, e.rows) && Tiled(e.rows, Heads(h)) && Followed(e.rows) && MasksWithin(e.rows, ColsOf(e))
  {
  }

  lemma {:induction false} OpenedPrivate(e: E.State, h: History, m: M.State, b: Name)
    requires WellFormed(h) && SoundStore(e, h) && M.Closed(m)
    ensures Private(e, h, m, E.OpenSession(e, b).0, M.OpenSession(m, b).0)
  {
    StoreIsSound(e, h);
  }

  /** The new session's id is new on both sides. */
  lemma {:induction false} OpenedOthers(e: E.State, m: M.State, b: Name)
    requires SameSessions(e, m) && StagedUnique(e.rows) && StagedOwned(e.rows, Owners(e))
    requires M.Closed(m) && b in e.branches && b in m.branches && b != ROOT
    ensures OthersKept(e, m, E.OpenSession(e, b).0, M.OpenSession(m, b).0, e.nextSess + 1)
  {
    SessionIdsBounded(e, m);
    OpenedOwners(e, b);
  }

  lemma {:induction false} OpenedOwners(e: E.State, b: Name)
    requires b in e.branches && b != ROOT && e.nextSess + 1 !in e.sessions && StagedOwned(e.rows, Owners(e))
    ensures Owners(E.OpenSession(e, b).0) == Owners(e)[e.nextSess + 1 := b]
    ensures StagedOwned(E.OpenSession(e, b).0.rows, Owners(E.OpenSession(e, b).0))
  {
  }

  /** And it sees the branch's head. */
  lemma {:induction false} OpenedOwn(e: E.State, m: M.State, b: Name)
    requires SameSessions(e, m) && StagedOwned(e.rows, Owners(e))
    requires M.Closed(m) && b in e.branches && b in m.branches && b != ROOT
    requires e.branches[b].headCommit == m.branches[b].head && e.branches[b].headCommit in e.commits
    requires View(e.rows, e.commits[m.branches[b].head].chain) == m.commits[m.branches[b].head].state
    requires Total(m.commits[m.branches[b].head].state, ColsOf(e))
    ensures var e', m', sid := E.OpenSession(e, b).0, M.OpenSession(m, b).0, e.nextSess + 1;
      && e'.nextSess == sid == m'.nextSess && SessionAgrees(e', m', sid)
      && e'.sessions[sid].base in e.commits && SessionViewAgrees(e', m', sid)
  {
    SessionIdsBounded(e, m);
    assert e.nextSess + 1 !in Owners(e);
    NothingStaged(e.rows, e.commits[e.branches[b].headCommit].chain, e.nextSess + 1, Owners(e));
  }

  lemma {:induction false} OpenedSession(e: E.State, h: History, m: M.State, b: Name)
    requires Joint(e, h, m) in Lockstep() && M.Closed(m) && b in e.branches && b != ROOT
    ensures b in m.branches && E.OpenSession(e, b).1 == M.OpenSession(m, b).1
    ensures Joint(E.OpenSession(e, b).0, h, M.OpenSession(m, b).0) in Lockstep()
  {
    BranchFacts(e, h, m, b);
    HeadView(e, h, m, b);
    assert HeadResolves(e, b);
    OpenedPrivate(e, h, m, b);
    OpenedOthers(e, m, b);
    OpenedOwn(e, m, b);
    PrivateAgrees(e, h, m, E.OpenSession(e, b).0, M.OpenSession(m, b).0, e.nextSess + 1);
  }

  /** OpenSession: same id or same refusal, and agreement is kept. */
  lemma {:induction false} OpenRefines(e: E.State, h: History, m: M.State, b: Name)
    requires Joint(e, h, m) in Lockstep() && M.Closed(m)
    ensures E.OpenSession(e, b).1 == M.OpenSession(m, b).1
    ensures Joint(E.OpenSession(e, b).0, h, M.OpenSession(m, b).0) in Lockstep()
  {
    if b in e.branches && b != ROOT {
      OpenedSession(e, h, m, b);
    }
  }

  // ----- AbandonSession -----

  lemma {:induction false} DropFollowed(rows: seq<Version>, sid: nat)
    requires sid != 0 && Followed(rows)
    ensures Followed(Drop(rows, sid))
  {
    var r := Drop(rows, sid);
    DropMembers(rows, sid);
    forall i | 0 <= i < |r| && r[i].session == 0 && r[i].to != MAX_SEQ
      ensures FollowedAt(r, i)
    {
      assert r[i] in rows;
      var k :| 0 <= k < |rows| && rows[k] == r[i];
      assert FollowedAt(rows, k);
      var j :| 0 <= j < |rows| && Committed(rows[j], rows[k].branch, rows[k].pk) && rows[j].from == rows[k].to;
      assert rows[j] in r;
    }
  }

  lemma {:induction false} SessionFacts(e: E.State, h: History, m: M.State, sid: nat)
    requires Joint(e, h, m) in Lockstep() && sid in e.sessions
    ensures sid in m.sessions && SessionAgrees(e, m, sid)
    ensures e.sessions[sid].base in e.commits && e.sessions[sid].base in m.commits && SessionViewAgrees(e, m, sid)
    ensures StagedUnique(e.rows) && StagedOwned(e.rows, Owners(e))
    ensures e.nextSess == m.nextSess && e.schema == m.schema
  {
    assert SessionAgrees(e, m, sid) && SessionViewAgrees(e, m, sid);
  }

  lemma {:induction false} AbandonedParts(e: E.State, h: History, m: M.State, sid: nat)
    requires WellFormed(h) && SoundStore(e, h) && StagedUnique(e.rows) && StagedOwned(e.rows, Owners(e))
    requires sid in e.sessions && sid in m.sessions && SessionAgrees(e, m, sid) && e.sessions[sid].base in e.commits && e.schema == m.schema
    ensures var e', m' := E.AbandonSession(e, sid), M.AbandonSession(m, sid);
      && Private(e, h, m, e', m') && OthersKept(e, m, e', m', sid)
      && SessionAgrees(e', m', sid) && SessionViewAgrees(e', m', sid)
  {
    assert Owners(E.AbandonSession(e, sid)) == Owners(e) - {sid};
    DropKeeps(e.rows, sid, Heads(h));
    DropFollowed(e.rows, sid);
    DropOwned(e.rows, sid, Owners(e), ColsOf(e));
  }

  /** AbandonSession: the staged rows go, nothing visible changes. */
  lemma {:induction false} AbandonRefines(e: E.State, h: History, m: M.State, sid: nat)
    requires Joint(e, h, m) in Lockstep()
    ensures Joint(E.AbandonSession(e, sid), h, M.AbandonSession(m, sid)) in Lockstep()
  {
    if sid in e.sessions {
      SessionFacts(e, h, m, sid);
      AbandonedParts(e, h, m, sid);
      PrivateAgrees(e, h, m, E.AbandonSession(e, sid), M.AbandonSession(m, sid), sid);
    }
  }

  // ----- SessionWrite -----

  /** What staging one change does to the session's row of the key. */
  ghost function Restaged(before: Option<Row>, prior: Option<(Option<Row>, set<ColID>)>, ch: Change, cols: set<ColID>): Option<(Option<Row>, set<ColID>)> {
    if ch.op == Delete && before.None? then prior
    else
      var after := if ch.op == Delete then None else Some(ch.row);
      Some((after, (if prior.Some? then prior.value.1 else {}) + MaskOf(before, after, cols)))
  }

  /** Staging a list of distinct keys changes the session's row of each listed key,
      once, and nothing else. */
  lemma {:induction false} StageAllEffect(rows: seq<Version>, sid: nat, b: Name, n: int, cols: set<ColID>, view: Table, cs: ChangeSet, keys: seq<PK>,
      owner: map<nat, Name>)
    requires sid != 0 && sid in owner && owner[sid] == b
    requires StagedUnique(rows) && StagedOwned(rows, owner) && MasksWithin(rows, cols)
    requires forall k :: k in keys ==> k in cs
    ensures var r := E.StageAll(rows, sid, b, n, cols, view, cs, keys);
      StagedOnly(rows, r) && StagedUnique(r) && StagedOwned(r, owner) && MasksWithin(r, cols)
    decreases |keys|
  {
    if keys != [] {
      var k, init := keys[|keys| - 1], keys[..|keys| - 1];
      StageAllEffect(rows, sid, b, n, cols, view, cs, init, owner);
      var mid, before, ch := E.StageAll(rows, sid, b, n, cols, view, cs, init), Lookup(view, k), cs[k];
      var after := if ch.op == Delete then None else Some(ch.row);
      var op := if ch.op == Delete then Delete else if before.None? then Insert else Update;
      StageRowEffect(mid, sid, b, n, k, op, if ch.op == Delete then map[] else ch.row, MaskOf(before, after, cols), owner, cols);
    }
  }

  lemma {:induction false} StageChangeStaged(rows: seq<Version>, sid: nat, b: Name, n: int, cols: set<ColID>, k: PK, before: Option<Row>, ch: Change,
      other: nat, pk: PK)
    requires sid != 0
    ensures StagedAt(E.StageChange(rows, sid, b, n, cols, k, before, ch), other, pk) ==
      if other == sid && pk == k then Restaged(before, StagedAt(rows, sid, pk), ch, cols) else StagedAt(rows, other, pk)
  {
    var after := if ch.op == Delete then None else Some(ch.row);
    var op := if ch.op == Delete then Delete else if before.None? then Insert else Update;
    StageRowStaged(rows, sid, b, n, k, op, if ch.op == Delete then map[] else ch.row, MaskOf(before, after, cols), other, pk);
  }

  lemma {:induction false} StageAllStaged(rows: seq<Version>, sid: nat, b: Name, n: int, cols: set<ColID>, view: Table, cs: ChangeSet, keys: seq<PK>,
      other: nat, pk: PK)
    requires sid != 0
    requires forall k :: k in keys ==> k in cs
    requires forall i, j :: 0 <= i < j < |keys| ==> keys[i] != keys[j]
    ensures StagedAt(E.StageAll(rows, sid, b, n, cols, view, cs, keys), other, pk) ==
      if other == sid && pk in keys then Restaged(Lookup(view, pk), StagedAt(rows, sid, pk), cs[pk], cols) else StagedAt(rows, other, pk)
    decreases |keys|
  {
    if keys != [] {
      var k, init := keys[|keys| - 1], keys[..|keys| - 1];
      assert keys == init + [k];
      StageAllStaged(rows, sid, b, n, cols, view, cs, init, other, pk);
      StageChangeStaged(E.StageAll(rows, sid, b, n, cols, view, cs, init), sid, b, n, cols, k, Lookup(view, k), cs[k], other, pk);
    }
  }

  /** One key of a session write: the new private row is the model's, and the mask
      still covers every cell that differs from the base. */
  lemma {:induction false} StagedKey(view: Table, base: Table, prior: Option<(Option<Row>, set<ColID>)>, cs: ChangeSet, cols: set<ColID>, pk: PK, c: ColID)
    requires Total(view, cols) && TotalChanges(cs, cols) && pk in cs
    requires Lookup(view, pk) == if prior.Some? then prior.value.0 else Lookup(base, pk)
    requires prior.Some? && Get(prior.value.0, c) != Cell(base, pk, c) ==> c in prior.value.1
    ensures var now := Restaged(Lookup(view, pk), prior, cs[pk], cols);
      && (if now.Some? then now.value.0 else Lookup(base, pk)) == Lookup(M.Apply(view, cs), pk)
      && (now.Some? && Get(now.value.0, c) != Cell(base, pk, c) ==> c in now.value.1)
  {
  }

  lemma {:induction false} WrittenSession(rows: seq<Version>, rows': seq<Version>, chain: Chain, sid: nat, view: Table, cs: ChangeSet, cols: set<ColID>)
    requires SessionView(rows, chain, sid) == view && StagedMasked(rows, chain, sid) && View(rows', chain) == View(rows, chain)
    requires Total(view, cols) && TotalChanges(cs, cols)
    requires forall pk :: StagedAt(rows', sid, pk) ==
                          (if pk in cs then Restaged(Lookup(view, pk), StagedAt(rows, sid, pk), cs[pk], cols) else StagedAt(rows, sid, pk))
    ensures SessionView(rows', chain, sid) == M.Apply(view, cs) && StagedMasked(rows', chain, sid)
  {
    forall pk
      ensures Lookup(SessionView(rows', chain, sid), pk) == Lookup(M.Apply(view, cs), pk)
      ensures StagedAt(rows', sid, pk).Some? ==>
                forall c :: Get(StagedAt(rows', sid, pk).value.0, c) != Cell(View(rows', chain), pk, c) ==> c in StagedAt(rows', sid, pk).value.1
    {
      SessionViewAt(rows, chain, sid, pk);
      SessionViewAt(rows', chain, sid, pk);
      ViewAt(rows, chain, pk);
      ViewAt(rows', chain, pk);
      forall c | pk in cs {
        StagedKey(view, View(rows, chain), StagedAt(rows, sid, pk), cs, cols, pk, c);
      }
      if pk in cs {
        StagedKey(view, View(rows, chain), StagedAt(rows, sid, pk), cs, cols, pk, 0);
      }
    }
    SameLookups(SessionView(rows', chain, sid), M.Apply(view, cs));
  }

  lemma {:induction false} StagedOnlyFollowed(rows: seq<Version>, rows': seq<Version>)
    requires StagedOnly(rows, rows') && Followed(rows)
    ensures Followed(rows')
  {
    forall i | 0 <= i < |rows'| && rows'[i].session == 0 && rows'[i].to != MAX_SEQ
      ensures FollowedAt(rows', i)
    {
      assert i < |rows| && rows'[i] == rows[i] && FollowedAt(rows, i);
      var j :| 0 <= j < |rows| && Committed(rows[j], rows[i].branch, rows[i].pk) && rows[j].from == rows[i].to;
      assert rows'[j] == rows[j];
    }
  }

  ghost function StagedRows(e: E.State, sid: nat, view: Table, cs: ChangeSet): seq<Version>
    requires sid in e.sessions && e.sessions[sid].branch in e.branches
  {
    var b := e.sessions[sid].branch;
    E.StageAll(e.rows, sid, b, e.branches[b].headSeq + 1, ColsOf(e), view, cs, SortedKeys(cs.Keys))
  }

  lemma {:induction false} StagedRowsParts(e: E.State, h: History, m: M.State, sid: nat, view: Table, cs: ChangeSet)
    requires WellFormed(h) && SoundStore(e, h) && StagedUnique(e.rows) && StagedOwned(e.rows, Owners(e))
    requires sid in e.sessions && e.sessions[sid].open && sid != 0 && e.sessions[sid].branch in e.branches
    ensures var rows' := StagedRows(e, sid, view, cs);
      && SameCommitted(e.rows, rows') && Tiled(rows', Heads(h)) && Followed(rows') && MasksWithin(rows', ColsOf(e))
      && StagedUnique(rows') && StagedOwned(rows', Owners(e))
      && (forall other, pk :: StagedAt(rows', other, pk) ==
           if other == sid && pk in cs then Restaged(Lookup(view, pk), StagedAt(e.rows, sid, pk), cs[pk], ColsOf(e)) else StagedAt(e.rows, other, pk))
  {
    var b, keys := e.sessions[sid].branch, SortedKeys(cs.Keys);
    KeyOrder();
    AscendingDistinct(KeyLess, keys);
    StageAllEffect(e.rows, sid, b, e.branches[b].headSeq + 1, ColsOf(e), view, cs, keys, Owners(e));
    StagedOnlyKeeps(e.rows, StagedRows(e, sid, view, cs), Heads(h));
    StagedOnlyFollowed(e.rows, StagedRows(e, sid, view, cs));
    forall other: nat, pk {
      StageAllStaged(e.rows, sid, b, e.branches[b].headSeq + 1, ColsOf(e), view, cs, keys, other, pk);
    }
  }

  /** The engine's private view is the model's overlay, so it stages against that. */
  lemma {:induction false} WriteUnfolds(e: E.State, m: M.State, sid: nat, cs: ChangeSet)
    requires sid in e.sessions && sid in m.sessions && E.IsOpen(e, sid) && E.Closed(e)
    requires e.sessions[sid].base in e.commits && SessionViewAgrees(e, m, sid)
    ensures E.SessionWrite(e, sid, cs) == (e.(rows := StagedRows(e, sid, m.sessions[sid].overlay, cs)), Ok(()))
  {
  }

  lemma {:induction false} WrittenOthers(e: E.State, h: History, m: M.State, sid: nat, cs: ChangeSet, e': E.State)
    requires WellFormed(h) && SoundStore(e, h) && StagedUnique(e.rows) && StagedOwned(e.rows, Owners(e))
    requires sid in e.sessions && sid in m.sessions && E.IsOpen(e, sid) && sid != 0 && e.sessions[sid].branch in e.branches
    requires e' == e.(rows := StagedRows(e, sid, m.sessions[sid].overlay, cs))
    ensures Private(e, h, m, e', M.SessionWrite(m, sid, cs).0) && OthersKept(e, m, e', M.SessionWrite(m, sid, cs).0, sid)
  {
    StagedRowsParts(e, h, m, sid, m.sessions[sid].overlay, cs);
    assert Owners(e') == Owners(e);
  }

  lemma {:induction false} WrittenOwn(e: E.State, h: History, m: M.State, sid: nat, cs: ChangeSet, e': E.State)
    requires WellFormed(h) && SoundStore(e, h) && StagedUnique(e.rows) && StagedOwned(e.rows, Owners(e))
    requires sid in e.sessions && sid in m.sessions && E.IsOpen(e, sid) && SessionAgrees(e, m, sid)
    requires e.sessions[sid].base in e.commits && SessionViewAgrees(e, m, sid) && TotalChanges(cs, ColsOf(e))
    requires e' == e.(rows := StagedRows(e, sid, m.sessions[sid].overlay, cs))
    ensures SessionAgrees(e', M.SessionWrite(m, sid, cs).0, sid) && SessionViewAgrees(e', M.SessionWrite(m, sid, cs).0, sid)
  {
    var chain, view := e.commits[e.sessions[sid].base].chain, m.sessions[sid].overlay;
    StagedRowsParts(e, h, m, sid, view, cs);
    SameCommittedView(e.rows, e'.rows, chain);
    WrittenSession(e.rows, e'.rows, chain, sid, view, cs, ColsOf(e));
    Batches.ApplyTotal(view, cs, ColsOf(e));
  }

  /** SessionWrite: same outcome, and agreement is kept: the session sees its overlay
      with the change set applied, and its masks still cover every net change. */
  lemma {:induction false} WriteRefines(e: E.State, h: History, m: M.State, sid: nat, cs: ChangeSet)
    requires Joint(e, h, m) in Lockstep() && E.Closed(e) && TotalChanges(cs, ColsOf(e))
    ensures E.SessionWrite(e, sid, cs).1 == M.SessionWrite(m, sid, cs).1
    ensures Joint(E.SessionWrite(e, sid, cs).0, h, M.SessionWrite(m, sid, cs).0) in Lockstep()
  {
    if sid in e.sessions {
      SessionFacts(e, h, m, sid);
      if E.IsOpen(e, sid) {
        var e' := e.(rows := StagedRows(e, sid, m.sessions[sid].overlay, cs));
        WriteUnfolds(e, m, sid, cs);
        WrittenOthers(e, h, m, sid, cs, e');
        WrittenOwn(e, h, m, sid, cs, e');
        PrivateAgrees(e, h, m, E.SessionWrite(e, sid, cs).0, M.SessionWrite(m, sid, cs).0, sid);
      }
    }
  }

  // ----- CommitSession -----

  /** The next seq reads a staged key as it was staged and every other key as the
      branch did. */
  lemma {:induction false} PublishedLive(rows: seq<Version>, rows': seq<Version>, heads: map<Name, int>, b: Name, sid: nat, id: nat, n: int, tail: Chain, pk: PK)
    requires Tiled(rows, heads) && b in heads && heads[b] == n - 1 && 1 <= n < MAX_SEQ && Disjoint(rows')
    requires sid != 0 && StagedOnce(rows, sid, b) && Published(rows, rows', b, sid, id, n)
    requires Live(rows', tail, pk) == Live(rows, tail, pk)
    ensures Live(rows', [Segment(b, n)] + tail, pk) == SessionLive(rows, [Segment(b, n - 1)] + tail, sid, pk)
  {
    PublishedOwn(rows, rows', heads, b, sid, id, n, pk);
    LiveCons(rows', Segment(b, n), tail, pk);
    LiveCons(rows, Segment(b, n - 1), tail, pk);
  }

  lemma {:induction false} TopIs(h: History, b: Name)
    requires WellFormed(h) && b in h && h[b] != []
    ensures Top(h, b) == [Segment(b, |h[b]| - 1)] + TopTail(h, b)
  {
    TopRecorded(h, b);
  }

  lemma {:induction false} PublishedOwn(rows: seq<Version>, rows': seq<Version>, heads: map<Name, int>, b: Name, sid: nat, id: nat, n: int, pk: PK)
    requires Tiled(rows, heads) && b in heads && heads[b] == n - 1 && 1 <= n < MAX_SEQ && Disjoint(rows')
    requires sid != 0 && StagedOnce(rows, sid, b) && Published(rows, rows', b, sid, id, n)
    ensures At(rows', b, n, pk) ==
            (var staged := StagedAt(rows, sid, pk); if staged.Some? then Some(staged.value.0) else At(rows, b, n - 1, pk))
  {
    PublishedAt(rows, rows', b, sid, id, n, heads, pk);
    AtNextSeq(rows, heads, b, pk);
  }

  lemma {:induction false} LiveCons(rows: seq<Version>, seg: Segment, tail: Chain, pk: PK)
    ensures Live(rows, [seg] + tail, pk) ==
            (var own := At(rows, seg.branch, seg.upto, pk); if own.Some? then own.value else Live(rows, tail, pk))
  {
    assert ([seg] + tail)[1..] == tail;
  }

  lemma {:induction false} PublishedView(rows: seq<Version>, rows': seq<Version>, h: History, b: Name, sid: nat, id: nat, chain: Chain, t: Table)
    requires WellFormed(h) && b in h && h[b] != [] && |h[b]| < MAX_SEQ && Tiled(rows, Heads(h)) && Disjoint(rows')
    requires sid != 0 && StagedOnce(rows, sid, b) && Published(rows, rows', b, sid, id, |h[b]|)
    requires SameBelow(rows, rows', b, |h[b]|)
    requires View(rows, chain) == View(rows, Top(h, b)) && SessionView(rows, chain, sid) == t
    ensures View(rows', [Segment(b, |h[b]|)] + TopTail(h, b)) == t
  {
    var n, tail := |h[b]|, TopTail(h, b);
    var new' := [Segment(b, n)] + tail;
    TopIs(h, b);
    SameTailIsNext(h, b);
    forall pk
      ensures Lookup(t, pk) == Live(rows', new', pk)
    {
      TailUnmoved(rows, rows', h, b, tail, pk);
      PublishedLive(rows, rows', Heads(h), b, sid, id, n, tail, pk);
      SessionViewAt(rows, chain, sid, pk);
      ViewAt(rows, chain, pk);
      ViewAt(rows, Top(h, b), pk);
    }
    ViewIs(rows', new', t);
  }

  /** A session commit moves the store soundly, its accumulated masks covering every
      net change, and the branch then reads as the session did. */
  lemma {:induction false} PublishStore(e: E.State, h: History, b: Name, sid: nat, id: nat)
    requires WellFormed(h) && SoundStore(e, h) && b in h && h[b] != [] && |h[b]| < MAX_SEQ
    requires sid != 0 && StagedUnique(e.rows) && StagedOwned(e.rows, Owners(e)) && sid in Owners(e) && Owners(e)[sid] == b
    ensures var rows', n := Publish(e.rows, b, sid, id, |h[b]|), |h[b]|;
      && StagedOnce(e.rows, sid, b) && Published(e.rows, rows', b, sid, id, n)
      && SameBelow(e.rows, rows', b, n)
      && Tiled(rows', Heads(Extend(h, b, TopTail(h, b)))) && Followed(rows') && MasksWithin(rows', ColsOf(e))
      && StagedKept(e.rows, rows', Owners(e) - {sid}, sid)
  {
    var n, rows' := |h[b]|, Publish(e.rows, b, sid, id, |h[b]|);
    var heads' := Heads(Extend(h, b, TopTail(h, b)));
    TiledHigher(e.rows, Heads(h), heads');
    UntouchedAbove(e.rows, Heads(h), b, n);
    OwnedOnce(e.rows, Owners(e), sid);
    PublishIsPublished(e.rows, b, sid, id, n, heads');
    PublishedSame(e.rows, rows', b, sid, id, n, heads');
    PublishedFollowed(e.rows, rows', b, sid, id, n);
    PublishedStaged(e.rows, rows', b, sid, id, n, Owners(e));
  }

  lemma {:induction false} PublishMasks(e: E.State, h: History, b: Name, sid: nat, id: nat, chain: Chain, rows': seq<Version>, pk: PK, c: ColID)
    requires b in h && h[b] != [] && sid != 0 && StagedOnce(e.rows, sid, b) && Published(e.rows, rows', b, sid, id, |h[b]|)
    requires StagedMasked(e.rows, chain, sid)
    requires Cell(View(e.rows, chain), pk, c) != Cell(SessionView(e.rows, chain, sid), pk, c)
    ensures Touched(rows', b, |h[b]| - 1, |h[b]|, pk, c)
  {
    SessionViewAt(e.rows, chain, sid, pk);
    ViewAt(e.rows, chain, pk);
    assert StagedAt(e.rows, sid, pk).Some?;
    PublishedMask(e.rows, rows', b, sid, id, |h[b]|, |h[b]| - 1, pk, c);
  }

  lemma {:induction false} PublishMoves(e: E.State, h: History, b: Name, sid: nat, id: nat, chain: Chain, t: Table)
    requires WellFormed(h) && SoundStore(e, h) && b in h && h[b] != [] && |h[b]| < MAX_SEQ
    requires sid != 0 && StagedUnique(e.rows) && StagedOwned(e.rows, Owners(e)) && sid in Owners(e) && Owners(e)[sid] == b
    requires View(e.rows, chain) == View(e.rows, Top(h, b)) && SessionView(e.rows, chain, sid) == t && StagedMasked(e.rows, chain, sid)
    ensures var rows', tail := Publish(e.rows, b, sid, id, |h[b]|), TopTail(h, b);
      && Move(e.rows, h, b, tail, rows', ColsOf(e)) in SoundMoves()
      && View(rows', NewChain(h, b, tail)) == t
      && StagedKept(e.rows, rows', Owners(e) - {sid}, sid)
  {
    var rows', tail := Publish(e.rows, b, sid, id, |h[b]|), TopTail(h, b);
    PublishStore(e, h, b, sid, id);
    PublishedView(e.rows, rows', h, b, sid, id, chain, t);
    SameTailIsNext(h, b);
    forall pk, c | Cell(View(e.rows, Top(h, b)), pk, c) != Cell(t, pk, c)
      ensures Touched(rows', b, |h[b]| - 1, |h[b]|, pk, c)
    {
      PublishMasks(e, h, b, sid, id, chain, rows', pk, c);
    }
    SameTailOverlay(e.rows, h, b, rows', t);
    SameTailChange(e.rows, h, b, rows', t);
  }

  ghost function EnginePublish(e: E.State, sid: nat, b: Name): E.State
    requires b in e.branches && sid in e.sessions
  {
    var rows' := Publish(e.rows, b, sid, e.nextID + 1, e.branches[b].headSeq + 1);
    EngineRecord(e, b, rows', [e.branches[b].headCommit]).(sessions := e.sessions[sid := e.sessions[sid].(open := false)])
  }

  ghost function ModelPublish(m: M.State, sid: nat, b: Name): M.State
    requires M.Closed(m) && b in m.branches && sid in m.sessions
  {
    M.RecordFork(m, b, m.branches[b].forkCommit, [m.branches[b].head], m.sessions[sid].overlay)
      .(sessions := m.sessions[sid := m.sessions[sid].(open := false)])
  }

  ghost function PublishRecording(e: E.State, m: M.State, sid: nat, b: Name): Recording
    requires b in e.branches && sid in e.sessions && M.Closed(m) && b in m.branches && sid in m.sessions
  {
    var e' := EnginePublish(e, sid, b);
    Recording(e, m, e', ModelPublish(m, sid, b), b, e.branches[b].chain, e.branches[b].forkCommit, e'.rows,
      [e.branches[b].headCommit], m.sessions[sid].overlay)
  }

  lemma {:induction false} ClosedOwners(e: E.State, e': E.State, sid: nat)
    requires sid in e.sessions && e'.sessions == e.sessions[sid := e.sessions[sid].(open := false)]
    ensures Owners(e') == Owners(e) - {sid}
  {
  }

  lemma {:induction false} ClosingSessions(e: E.State, m: M.State, e': E.State, m': M.State, sid: nat)
    requires e.sessions.Keys == m.sessions.Keys && sid in e.sessions
    requires e'.sessions == e.sessions[sid := e.sessions[sid].(open := false)]
    requires m'.sessions == m.sessions[sid := m.sessions[sid].(open := false)]
    requires StagedKept(e.rows, e'.rows, Owners(e) - {sid}, sid)
    ensures SessionMove(e, m, e', m', sid) in SoundSessionMoves()
  {
    ClosedOwners(e, e', sid);
  }

  /** A recording that publishes a session. */
  ghost predicate Publishes(r: Recording, sid: nat, base: nat)
    requires sid in r.e.sessions && sid in r.m.sessions
  {
    && r.branch == r.e.sessions[sid].branch && r.branch in r.e.branches
    && base == r.e.sessions[sid].base && base in r.e.commits
    && r.tail == r.e.branches[r.branch].chain && r.fork == r.e.branches[r.branch].forkCommit
    && r.rows' == Publish(r.e.rows, r.branch, sid, r.e.nextID + 1, r.e.branches[r.branch].headSeq + 1)
    && r.e'.rows == r.rows' && r.table == r.m.sessions[sid].overlay
    && r.e'.sessions == r.e.sessions[sid := r.e.sessions[sid].(open := false)]
    && r.m'.sessions == r.m.sessions[sid := r.m.sessions[sid].(open := false)]
  }

  lemma {:induction false} PublishRecords(e: E.State, m: M.State, sid: nat, b: Name)
    requires M.Closed(m) && sid in e.sessions && sid in m.sessions && b in e.branches && b in m.branches
    requires b == e.sessions[sid].branch && e.sessions[sid].base in e.commits
    requires e.branches[b].headCommit == m.branches[b].head && e.branches[b].headCommit in e.commits
    requires e.branches[b].forkCommit == m.branches[b].forkCommit && (b != ROOT ==> e.branches[b].forkCommit in e.commits)
    ensures PublishRecording(e, m, sid, b) in Recordings() && Publishes(PublishRecording(e, m, sid, b), sid, e.sessions[sid].base)
  {
    var e', m' := EnginePublish(e, sid, b), ModelPublish(m, sid, b);
    NotRetargeted(e, b);
    RecordingIs(e, m, e, e', m', b, e.branches[b].chain, e.branches[b].forkCommit, e'.rows, [e.branches[b].headCommit], m.sessions[sid].overlay);
  }

  lemma {:induction false} PublishMoved(r: Recording, h: History, sid: nat, base: nat)
    requires WellFormed(h) && SoundStore(r.e, h) && StagedUnique(r.e.rows) && StagedOwned(r.e.rows, Owners(r.e))
    requires sid in r.e.sessions && sid in r.m.sessions && sid != 0 && r.e.sessions[sid].open && Publishes(r, sid, base)
    requires r.e.sessions.Keys == r.m.sessions.Keys && SessionViewAgrees(r.e, r.m, sid)
    requires r.branch in h && h[r.branch] != [] && |h[r.branch]| == r.e.branches[r.branch].headSeq + 1 < MAX_SEQ
    requires TopTail(h, r.branch) == r.tail && View(r.e.rows, r.e.commits[base].chain) == View(r.e.rows, Top(h, r.branch))
    ensures MoveOf(r, h) in SoundMoves()
    ensures View(r.rows', NewChain(h, r.branch, r.tail)) == r.table
    ensures SessionMove(r.e, r.m, r.e', r.m', sid) in SoundSessionMoves()
  {
    PublishMoves(r.e, h, r.branch, sid, r.e.nextID + 1, r.e.commits[base].chain, r.table);
    ClosingSessions(r.e, r.m, r.e', r.m', sid);
  }

  lemma {:induction false} SessionsPaired(e: E.State, h: History, m: M.State, sid: nat)
    requires Joint(e, h, m) in Lockstep() && sid in e.sessions
    ensures e.sessions.Keys == m.sessions.Keys && sid != 0 && WellFormed(h) && SoundStore(e, h)
    ensures sid in m.sessions && e.sessions[sid].base in e.commits && SessionViewAgrees(e, m, sid)
    ensures e.sessions[sid].open ==> Total(m.sessions[sid].overlay, ColsOf(e))
    ensures e.sessions[sid].branch in e.branches
    ensures StagedUnique(e.rows) && StagedOwned(e.rows, Owners(e))
  {
    SessionFacts(e, h, m, sid);
  }

  lemma {:induction false} HeadIsTop(e: E.State, h: History, m: M.State, b: Name)
    requires Joint(e, h, m) in Lockstep() && b in e.branches
    ensures b in h && h[b] != [] && e.branches[b].headCommit in e.commits
    ensures View(e.rows, e.commits[e.branches[b].headCommit].chain) == View(e.rows, Top(h, b))
  {
    assert HeadResolves(e, b) && BranchTracked(e, h, b);
  }

  lemma {:induction false} PublishFaithful(r: Recording, h: History, sid: nat, base: nat)
    requires Joint(r.e, h, r.m) in Lockstep() && HasRoom(r.e)
    requires sid in r.e.sessions && sid in r.m.sessions && r.e.sessions[sid].open && Publishes(r, sid, base)
    requires r.e.branches[r.branch].headCommit == base
    ensures Faithful(r, h, sid)
  {
    SessionsPaired(r.e, h, r.m, sid);
    BranchFacts(r.e, h, r.m, r.branch);
    HeadIsTop(r.e, h, r.m, r.branch);
    PublishMoved(r, h, sid, base);
  }

  lemma {:induction false} PublishAgrees(r: Recording, h: History, sid: nat, base: nat)
    requires Joint(r.e, h, r.m) in Lockstep() && HasRoom(r.e) && r in Recordings()
    requires sid in r.e.sessions && sid in r.m.sessions && r.e.sessions[sid].open && Publishes(r, sid, base)
    requires r.e.branches[r.branch].headCommit == base
    ensures r.branch in h && Joint(r.e', Extend(h, r.branch, r.tail), r.m') in Lockstep()
  {
    PublishFaithful(r, h, sid, base);
    AdvanceAgrees(r, h, sid);
  }

  lemma {:induction false} PublishLands(good: iset<Joint>, e: E.State, m: M.State, sid: nat, b: Name, done: History)
    requires E.Closed(e) && M.Closed(m) && sid in e.sessions && sid in m.sessions && E.IsOpen(e, sid) && M.IsOpen(m, sid)
    requires b == e.sessions[sid].branch == m.sessions[sid].branch && e.sessions[sid].base == m.sessions[sid].base
    requires e.branches[b].headCommit == m.branches[b].head == e.sessions[sid].base && e.nextID == m.nextID
    requires Joint(PublishRecording(e, m, sid, b).e', done, PublishRecording(e, m, sid, b).m') in good
    ensures E.CommitSession(e, sid).1 == M.CommitSession(m, sid).1
    ensures Joint(E.CommitSession(e, sid).0, done, M.CommitSession(m, sid).0) in good
  {
    M.SameFork(m, b, [m.branches[b].head], m.sessions[sid].overlay);
  }

  /** CommitSession: same id or same refusal, and agreement is kept: the new commit's
      state is exactly what the session saw. */
  lemma {:induction false} PublishRefines(e: E.State, h: History, m: M.State, sid: nat) returns (h': History)
    requires Joint(e, h, m) in Lockstep() && E.Closed(e) && M.Closed(m) && HasRoom(e)
    ensures E.CommitSession(e, sid).1 == M.CommitSession(m, sid).1
    ensures Joint(E.CommitSession(e, sid).0, h', M.CommitSession(m, sid).0) in Lockstep()
  {
    h' := h;
    if sid in e.sessions {
      SessionFacts(e, h, m, sid);
      var b := e.sessions[sid].branch;
      BranchFacts(e, h, m, b);
      if E.IsOpen(e, sid) && e.branches[b].headCommit == e.sessions[sid].base {
        PublishRecords(e, m, sid, b);
        PublishAgrees(PublishRecording(e, m, sid, b), h, sid, e.sessions[sid].base);
        h' := Extend(h, b, e.branches[b].chain);
        PublishLands(Lockstep(), e, m, sid, b, h');
      }
    }
  }
}
