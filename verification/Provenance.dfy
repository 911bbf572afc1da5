/** Where commits and row versions come from, in every reachable state. */
module Provenance {
  import opened Core
  import opened Orders
  import opened Dag
  import opened Operations
  import opened Versions
  import opened Staging
  import opened Lineage
  import opened ThreeWay
  import opened Advance
  import opened Runs
  import opened Guarantees
  import E = IntervalMachine

  // ----- the first parent -----

  /** A commit the branch may have stood at when its head was the seq: its own at that
      seq, or, before its first commit, any. */
  ghost predicate StoodAt(e: E.State, p: nat, b: Name, s: int) {
    p in e.commits && (s == 0 || (e.commits[p].branch == b && e.commits[p].at == s))
  }

  /** The first parent of a commit is where its branch stood just before. */
  ghost predicate LinkedCommit(e: E.State, id: nat)
    requires id in e.commits
  {
    var c := e.commits[id];
    && 1 <= id <= e.nextID
    && (c.at >= 1 ==> c.parents != [] && StoodAt(e, c.parents[0], c.branch, c.at - 1))
  }

  ghost predicate LinkedBranch(e: E.State, b: Name)
    requires b in e.branches
  {
    0 <= e.branches[b].headSeq && StoodAt(e, e.branches[b].headCommit, b, e.branches[b].headSeq)
  }

  ghost predicate Linked(e: E.State) {
    && (forall id {:trigger LinkedCommit(e, id)} :: id in e.commits ==> LinkedCommit(e, id))
    && (forall b {:trigger LinkedBranch(e, b)} :: b in e.branches ==> LinkedBranch(e, b))
  }

  // ----- the commit that wrote a version -----

  /** The branch and seq of every commit. */
  type Signatures = map<nat, (Name, int)>

  ghost function SignaturesOf(e: E.State): Signatures {
    map id | id in e.commits :: (e.commits[id].branch, e.commits[id].at)
  }

  /** A committed version names the commit that wrote it. */
  predicate SignedBy(v: Version, signs: Signatures) {
    v.session == 0 ==> v.commit in signs && signs[v.commit] == (v.branch, v.from)
  }

  ghost predicate Signed(rows: seq<Version>, signs: Signatures) {
    forall i {:trigger SignedBy(rows[i], signs)} :: 0 <= i < |rows| ==> SignedBy(rows[i], signs)
  }

  lemma {:induction false} SignedOn(rows: seq<Version>, signs: Signatures, id: nat, sign: (Name, int))
    requires Signed(rows, signs) && id !in signs
    ensures Signed(rows, signs[id := sign])
  {
    forall i | 0 <= i < |rows|
      ensures SignedBy(rows[i], signs[id := sign])
    {
      assert SignedBy(rows[i], signs);
    }
  }

  lemma {:induction false} CloseSigned(rows: seq<Version>, b: Name, pk: PK, at: int, signs: Signatures)
    requires Signed(rows, signs)
    ensures Signed(Close(rows, b, pk, at), signs)
  {
    CloseShrinks(rows, b, pk, at);
    forall i | 0 <= i < |rows|
      ensures SignedBy(Close(rows, b, pk, at)[i], signs)
    {
      assert SignedBy(rows[i], signs);
    }
  }

  lemma {:induction false} WriteSigned(rows: seq<Version>, v: Version, signs: Signatures)
    requires Signed(rows, signs) && SignedBy(v, signs)
    ensures Signed(Write(rows, v), signs)
  {
    CloseSigned(rows, v.branch, v.pk, v.from, signs);
    var closed := Close(rows, v.branch, v.pk, v.from);
    forall i | 0 <= i < |Write(rows, v)|
      ensures SignedBy(Write(rows, v)[i], signs)
    {
      assert i < |closed| ==> SignedBy(closed[i], signs);
    }
  }

  /** Every version of a batch carries the commit's id, branch and seq. */
  ghost predicate OfCommit(vs: seq<Version>, b: Name, n: int, id: nat) {
    forall v :: v in vs ==> v.branch == b && v.from == n && v.commit == id
  }

  lemma {:induction false} WriteAllSigned(rows: seq<Version>, vs: seq<Version>, b: Name, n: int, id: nat, signs: Signatures)
    requires Signed(rows, signs) && OfCommit(vs, b, n, id) && id in signs && signs[id] == (b, n)
    ensures Signed(WriteAll(rows, vs), signs)
    decreases |vs|
  {
    if vs != [] {
      var last := |vs| - 1;
      assert vs[last] in vs;
      WriteAllSigned(rows, vs[..last], b, n, id, signs);
      WriteSigned(WriteAll(rows, vs[..last]), vs[last], signs);
    }
  }

  lemma {:induction false} ChangesOfCommit(b: Name, n: int, id: nat, cols: set<ColID>, current: Table, cs: ChangeSet, keys: seq<PK>)
    requires forall k :: k in keys ==> k in cs
    ensures OfCommit(E.ChangeVersions(b, n, id, cols, current, cs, keys), b, n, id)
    decreases |keys|
  {
    if keys != [] {
      ChangesOfCommit(b, n, id, cols, current, cs, keys[..|keys| - 1]);
    }
  }

  lemma {:induction false} UpsertsOfCommit(b: Name, n: int, id: nat, cols: set<ColID>, current: Table, t: Table, keys: seq<PK>)
    requires forall k :: k in keys ==> k in t
    ensures OfCommit(E.UpsertVersions(b, n, id, cols, current, t, keys), b, n, id)
    decreases |keys|
  {
    if keys != [] {
      UpsertsOfCommit(b, n, id, cols, current, t, keys[..|keys| - 1]);
    }
  }

  lemma {:induction false} TombstonesOfCommit(b: Name, n: int, id: nat, cols: set<ColID>, current: Table, t: Table, keys: seq<PK>)
    ensures OfCommit(E.TombstoneVersions(b, n, id, cols, current, t, keys), b, n, id)
    decreases |keys|
  {
    if keys != [] {
      TombstonesOfCommit(b, n, id, cols, current, t, keys[..|keys| - 1]);
    }
  }

  lemma {:induction false} CommitSigned(e: E.State, b: Name, cs: ChangeSet, signs: Signatures)
    requires b in e.branches && Signed(e.rows, signs)
    requires e.nextID + 1 in signs && signs[e.nextID + 1] == (b, e.branches[b].headSeq + 1)
    ensures Signed(E.CommitRows(e, b, cs), signs)
  {
    var n, id, keys := e.branches[b].headSeq + 1, e.nextID + 1, SortedKeys(cs.Keys);
    var current := View(e.rows, E.HeadChain(e, b));
    ChangesOfCommit(b, n, id, ColumnSet(e.schema), current, cs, keys);
    WriteAllSigned(e.rows, E.ChangeVersions(b, n, id, ColumnSet(e.schema), current, cs, keys), b, n, id, signs);
  }

  lemma {:induction false} ResultSigned(e: E.State, b: Name, result: Table, signs: Signatures)
    requires b in e.branches && Signed(e.rows, signs)
    requires e.nextID + 1 in signs && signs[e.nextID + 1] == (b, e.branches[b].headSeq + 1)
    ensures Signed(E.ResultRows(e, b, result), signs)
  {
    var n, id := e.branches[b].headSeq + 1, e.nextID + 1;
    var cols, current := ColumnSet(e.schema), View(e.rows, E.HeadChain(e, b));
    UpsertsOfCommit(b, n, id, cols, current, result, SortedKeys(result.Keys));
    TombstonesOfCommit(b, n, id, cols, current, result, SortedKeys(current.Keys));
    WriteAllSigned(e.rows, E.ResultVersions(b, n, id, cols, current, result), b, n, id, signs);
  }

  /** What the session staged sits on the branch. */
  ghost predicate OnBranch(rows: seq<Version>, sid: nat, b: Name) {
    forall i :: 0 <= i < |rows| && rows[i].session == sid ==> rows[i].branch == b
  }

  lemma {:induction false} CloseAllSigned(rows: seq<Version>, b: Name, pks: seq<PK>, at: int, sid: nat, signs: Signatures)
    requires Signed(rows, signs) && OnBranch(rows, sid, b)
    ensures Signed(CloseAll(rows, b, pks, at), signs) && OnBranch(CloseAll(rows, b, pks, at), sid, b)
    decreases |pks|
  {
    if pks != [] {
      var last := |pks| - 1;
      CloseAllSigned(rows, b, pks[..last], at, sid, signs);
      CloseSigned(CloseAll(rows, b, pks[..last], at), b, pks[last], at, signs);
      CloseShrinks(CloseAll(rows, b, pks[..last], at), b, pks[last], at);
    }
  }

  lemma {:induction false} PublishSigned(rows: seq<Version>, b: Name, sid: nat, id: nat, n: int, signs: Signatures)
    requires Signed(rows, signs) && OnBranch(rows, sid, b) && id in signs && signs[id] == (b, n)
    ensures Signed(Publish(rows, b, sid, id, n), signs)
  {
    var keys := SortedKeys(StagedKeys(rows, sid));
    var closed := CloseAll(rows, b, keys, n);
    CloseAllSigned(rows, b, keys, n, sid, signs);
    forall i | 0 <= i < |closed|
      ensures SignedBy(Publish(rows, b, sid, id, n)[i], signs)
    {
      assert SignedBy(closed[i], signs);
    }
  }

  lemma {:induction false} StageSigned(rows: seq<Version>, sid: nat, b: Name, n: int, cols: set<ColID>, view: Table, cs: ChangeSet, keys: seq<PK>, signs: Signatures)
    requires Signed(rows, signs) && sid != 0 && forall k :: k in keys ==> k in cs
    ensures Signed(E.StageAll(rows, sid, b, n, cols, view, cs, keys), signs)
    decreases |keys|
  {
    if keys != [] {
      var k := keys[|keys| - 1];
      var before := E.StageAll(rows, sid, b, n, cols, view, cs, keys[..|keys| - 1]);
      StageSigned(rows, sid, b, n, cols, view, cs, keys[..|keys| - 1], signs);
      forall op, row, mask
        ensures Signed(StageRow(before, sid, b, n, k, op, row, mask), signs)
      {
        StageRowSigned(before, sid, b, n, k, op, row, mask, signs);
      }
    }
  }

  lemma {:induction false} StageRowSigned(rows: seq<Version>, sid: nat, b: Name, n: int, pk: PK, op: Op, row: Row, mask: set<ColID>, signs: Signatures)
    requires Signed(rows, signs) && sid != 0
    ensures Signed(StageRow(rows, sid, b, n, pk, op, row, mask), signs)
  {
    var r := StageRow(rows, sid, b, n, pk, op, row, mask);
    forall i | 0 <= i < |r|
      ensures SignedBy(r[i], signs)
    {
      assert i < |rows| ==> SignedBy(rows[i], signs);
    }
  }

  lemma {:induction false} DropSigned(rows: seq<Version>, sid: nat, signs: Signatures)
    requires Signed(rows, signs)
    ensures Signed(Drop(rows, sid), signs)
  {
    DropMembers(rows, sid);
    forall i | 0 <= i < |Drop(rows, sid)|
      ensures SignedBy(Drop(rows, sid)[i], signs)
    {
      var j :| 0 <= j < |rows| && rows[j] == Drop(rows, sid)[i];
      assert SignedBy(rows[j], signs);
    }
  }

  // ----- one step -----

  ghost predicate Sourced(e: E.State) {
    Linked(e) && Signed(e.rows, SignaturesOf(e))
  }

  /** Ids of sessions are positive, and what they staged sits on their branches. */
  ghost predicate SessionsApart(e: E.State) {
    0 !in e.sessions && forall sid :: sid in e.sessions ==> OnBranch(e.rows, sid, e.sessions[sid].branch)
  }

  lemma {:induction false} NewSignature(e: E.State, rows: seq<Version>, b: Name, n: int, id: nat, parents: seq<nat>)
    requires b in e.branches
    ensures SignaturesOf(E.RecordCommit(e, rows, b, n, id, parents)) == SignaturesOf(e)[id := (b, n)]
  {
  }

  lemma {:induction false} RecordLinks(e: E.State, rows: seq<Version>, b: Name, parents: seq<nat>)
    requires Linked(e) && b in e.branches && parents != [] && parents[0] == e.branches[b].headCommit
    ensures Linked(E.RecordCommit(e, rows, b, e.branches[b].headSeq + 1, e.nextID + 1, parents))
  {
    var e' := E.RecordCommit(e, rows, b, e.branches[b].headSeq + 1, e.nextID + 1, parents);
    assert LinkedBranch(e, b);
    forall id | id in e'.commits
      ensures LinkedCommit(e', id)
    {
      if id in e.commits {
        assert LinkedCommit(e, id);
      }
      if id != e.nextID + 1 && e.commits[id].at >= 1 {
        assert LinkedCommit(e, e.commits[id].parents[0]);
      }
      assert LinkedCommit(e, e.branches[b].headCommit);
    }
    forall x | x in e'.branches
      ensures LinkedBranch(e', x)
    {
      assert LinkedBranch(e, x);
      assert LinkedCommit(e, e.branches[x].headCommit);
    }
  }

  /** The signatures once the branch has its next commit. */
  ghost function NextSignatures(e: E.State, b: Name): (signs: Signatures)
    requires b in e.branches
    ensures e.nextID + 1 in signs && signs[e.nextID + 1] == (b, e.branches[b].headSeq + 1)
  {
    SignaturesOf(e)[e.nextID + 1 := (b, e.branches[b].headSeq + 1)]
  }

  /** The new signature is free, and older versions keep theirs. */
  lemma {:induction false} SignaturesOn(e: E.State, b: Name)
    requires Sourced(e) && b in e.branches
    ensures Signed(e.rows, NextSignatures(e, b))
  {
    forall id | id in e.commits
      ensures id <= e.nextID
    {
      assert LinkedCommit(e, id);
    }
    SignedOn(e.rows, SignaturesOf(e), e.nextID + 1, (b, e.branches[b].headSeq + 1));
  }

  lemma {:induction false} RecordSources(e: E.State, rows: seq<Version>, b: Name, parents: seq<nat>)
    requires Linked(e) && b in e.branches && parents != [] && parents[0] == e.branches[b].headCommit
    requires Signed(rows, NextSignatures(e, b))
    ensures Sourced(E.RecordCommit(e, rows, b, e.branches[b].headSeq + 1, e.nextID + 1, parents))
  {
    RecordLinks(e, rows, b, parents);
    NewSignature(e, rows, b, e.branches[b].headSeq + 1, e.nextID + 1, parents);
  }

  lemma {:induction false} CommitSources(e: E.State, b: Name, cs: ChangeSet)
    requires Sourced(e)
    ensures Sourced(E.Commit(e, b, cs).0)
  {
    if b in e.branches {
      SignaturesOn(e, b);
      CommitSigned(e, b, cs, NextSignatures(e, b));
      RecordSources(e, E.CommitRows(e, b, cs), b, [e.branches[b].headCommit]);
    }
  }

  lemma {:induction false} ApplySources(e: E.State, b: Name, result: Table, parents: seq<nat>)
    requires Sourced(e) && b in e.branches && parents != [] && parents[0] == e.branches[b].headCommit
    ensures Sourced(E.ApplyMergeResult(e, b, result, parents))
  {
    var rows := E.ResultRows(e, b, result);
    SignaturesOn(e, b);
    ResultSigned(e, b, result, NextSignatures(e, b));
    RecordSources(e, rows, b, parents);
  }

  lemma {:induction false} FinishSources(e: E.State, target: E.State, b: Name, base: nat, merged: (Table, seq<Conflict>), parents: seq<nat>)
    requires Sourced(e) && Sourced(target)
    requires b in target.branches && parents != [] && parents[0] == target.branches[b].headCommit
    ensures Sourced(E.Finish(e, target, b, base, merged, parents).0)
  {
    ApplySources(target, b, merged.0, parents);
  }

  lemma {:induction false} MergeSources(e: E.State, from: Name, into: Name)
    requires Sourced(e)
    ensures Sourced(E.Merge(e, from, into).0)
  {
    if from in e.branches && into in e.branches {
      var ours, theirs := e.branches[into].headCommit, e.branches[from].headCommit;
      var bases := MergeBases(E.Graph(e), ours, theirs);
      if |bases| == 1 {
        FinishSources(e, e, into, Only(bases), E.MergeStates(e, into, from, Only(bases)), [ours, theirs]);
      }
    }
  }

  lemma {:induction false} SameSources(e: E.State, e': E.State)
    requires Linked(e) && e'.commits == e.commits && e'.nextID == e.nextID
    requires forall b :: b in e'.branches ==>
      if b in e.branches then e'.branches[b].headSeq == e.branches[b].headSeq && e'.branches[b].headCommit == e.branches[b].headCommit
      else e'.branches[b].headSeq == 0 && e'.branches[b].headCommit in e.commits
    requires Signed(e'.rows, SignaturesOf(e))
    ensures Sourced(e')
  {
    forall id | id in e'.commits
      ensures LinkedCommit(e', id)
    {
      assert LinkedCommit(e, id);
    }
    forall b | b in e'.branches
      ensures LinkedBranch(e', b)
    {
      assert b in e.branches ==> LinkedBranch(e, b);
    }
    assert SignaturesOf(e') == SignaturesOf(e);
  }

  lemma {:induction false} UpdateSources(e: E.State, b: Name)
    requires Sourced(e) && E.Closed(e)
    ensures Sourced(E.UpdateFromParent(e, b).0)
  {
    if b in e.branches && e.branches[b].parent != "" {
      var parent := e.branches[b].parent;
      var ours, theirs, base := e.branches[b].headCommit, e.branches[parent].headCommit, e.branches[b].forkCommit;
      SameSources(e, E.AdvanceFork(e, b));
      FinishSources(e, E.AdvanceFork(e, b), b, base, E.MergeStates(e, b, parent, base), [ours, theirs]);
    }
  }

  lemma {:induction false} CreateSources(e: E.State, name: Name, from: Name)
    requires Sourced(e)
    ensures Sourced(E.CreateBranch(e, name, from).0)
  {
    if from in e.branches {
      assert LinkedBranch(e, from);
    }
    SameSources(e, E.CreateBranch(e, name, from).0);
  }

  lemma {:induction false} WriteSources(e: E.State, sid: nat, cs: ChangeSet)
    requires Sourced(e) && E.Closed(e) && 0 !in e.sessions
    ensures Sourced(E.SessionWrite(e, sid, cs).0)
  {
    if E.IsOpen(e, sid) {
      var b := e.sessions[sid].branch;
      var view := if E.SessionResolve(e, sid).Some? then E.SessionResolve(e, sid).value else map[];
      StageSigned(e.rows, sid, b, e.branches[b].headSeq + 1, ColumnSet(e.schema), view, cs, SortedKeys(cs.Keys), SignaturesOf(e));
    }
    SameSources(e, E.SessionWrite(e, sid, cs).0);
  }

  lemma {:induction false} PublishSources(e: E.State, sid: nat)
    requires Sourced(e) && E.Closed(e) && SessionsApart(e)
    ensures Sourced(E.CommitSession(e, sid).0)
  {
    if E.IsOpen(e, sid) {
      var b := e.sessions[sid].branch;
      var n, id := e.branches[b].headSeq + 1, e.nextID + 1;
      SignaturesOn(e, b);
      PublishSigned(e.rows, b, sid, id, n, NextSignatures(e, b));
      RecordSources(e, Publish(e.rows, b, sid, id, n), b, [e.branches[b].headCommit]);
      var e' := E.RecordCommit(e, Publish(e.rows, b, sid, id, n), b, n, id, [e.branches[b].headCommit]);
      SameSources(e', e'.(sessions := e.sessions[sid := e.sessions[sid].(open := false)]));
    }
  }

  lemma {:induction false} AbandonSources(e: E.State, sid: nat)
    requires Sourced(e)
    ensures Sourced(E.AbandonSession(e, sid))
  {
    DropSigned(e.rows, sid, SignaturesOf(e));
    SameSources(e, E.AbandonSession(e, sid));
  }

  lemma {:induction false} OpenSources(e: E.State, b: Name)
    requires Sourced(e)
    ensures Sourced(E.OpenSession(e, b).0)
  {
    SameSources(e, E.OpenSession(e, b).0);
  }

  lemma {:induction false} StepSources(e: E.State, op: Operation)
    requires Sourced(e) && E.Closed(e) && SessionsApart(e)
    ensures Sourced(E.Step(e, op).0)
  {
    match op
    case Commit(b, cs) => CommitSources(e, b, cs);
    case CreateBranch(name, from) => CreateSources(e, name, from);
    case Merge(from, into) => MergeSources(e, from, into);
    case UpdateFromParent(b) => UpdateSources(e, b);
    case OpenSession(b) => OpenSources(e, b);
    case SessionWrite(sid, cs) => WriteSources(e, sid, cs);
    case CommitSession(sid) => PublishSources(e, sid);
    case AbandonSession(sid) => AbandonSources(e, sid);
  }

  // ----- whole runs -----

  lemma {:induction false} SessionsStayApart(schema: seq<ColID>, run: Run)
    requires Valid(run, schema)
    ensures SessionsApart(Engine(schema, run))
  {
    var e, m := Engine(schema, run), Model(schema, run);
    var h := RunAgrees(schema, run);
    SessionIdsPositive(e, m);
    assert Reachable(schema, e);
    forall sid | sid in e.sessions
      ensures OnBranch(e.rows, sid, e.sessions[sid].branch)
    {
      forall i | 0 <= i < |e.rows| && e.rows[i].session == sid
        ensures e.rows[i].branch == e.sessions[sid].branch
      {
        StagedRowsOwned(schema, e, i);
      }
    }
  }

  lemma {:induction false} RunSources(schema: seq<ColID>, run: Run)
    requires Valid(run, schema)
    ensures Sourced(Engine(schema, run))
    decreases |run|
  {
    if run == [] {
      var e := E.Init(schema);
      assert LinkedCommit(e, 1) && LinkedBranch(e, ROOT);
    } else {
      var n := |run| - 1;
      RunSources(schema, run[..n]);
      SessionsStayApart(schema, run[..n]);
      StepSources(Engine(schema, run[..n]), run[n]);
    }
  }

  /** Every committed version names the commit that wrote it: one recorded on the
      version's own branch at the seq it starts at. None is left without a commit. */
  lemma {:induction false} VersionsSigned(schema: seq<ColID>, e: E.State, i: int)
    requires Reachable(schema, e)
    requires 0 <= i < |e.rows| && e.rows[i].session == 0
    ensures e.rows[i].commit != 0 && e.rows[i].commit in e.commits
    ensures e.commits[e.rows[i].commit].branch == e.rows[i].branch && e.commits[e.rows[i].commit].at == e.rows[i].from
  {
    var run :| Valid(run, schema) && Engine(schema, run) == e;
    RunSources(schema, run);
    assert SignedBy(e.rows[i], SignaturesOf(e));
    assert LinkedCommit(e, e.rows[i].commit);
  }

  /** The first parent of a commit is the branch's commit at the seq before; that of a
      branch's first commit is some recorded commit. */
  lemma {:induction false} FirstParent(schema: seq<ColID>, e: E.State, c: nat)
    requires Reachable(schema, e) && c in e.commits && e.commits[c].at >= 1
    ensures e.commits[c].parents != [] && StoodAt(e, e.commits[c].parents[0], e.commits[c].branch, e.commits[c].at - 1)
  {
    var run :| Valid(run, schema) && Engine(schema, run) == e;
    RunSources(schema, run);
    assert LinkedCommit(e, c);
  }
}
