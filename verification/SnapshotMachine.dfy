/** The reference model as a state machine: one full table per commit
    (internal/model/model.go). */
module SnapshotMachine {
  import opened Wrappers
  import opened Core
  import opened Dag
  import opened Operations
  import opened Lineage
  import opened ThreeWay

  datatype CommitRecord = CommitRecord(id: nat, parents: seq<nat>, branch: Name, at: int, state: Table)
  datatype BranchRecord = BranchRecord(name: Name, head: nat, parent: Name, forkCommit: nat)
  datatype SessionRecord = SessionRecord(id: nat, branch: Name, base: nat, overlay: Table, open: bool)

  datatype State = State(
    schema: seq<ColID>,
    commits: map<nat, CommitRecord>,
    branches: map<Name, BranchRecord>,
    sessions: map<nat, SessionRecord>,
    nextID: nat,
    nextSess: nat)

  /** Every reference the records hold can be followed. */
  ghost predicate Closed(m: State) {
    && (forall b :: b in m.branches ==> m.branches[b].head in m.commits)
    && (forall b :: b in m.branches && m.branches[b].parent != "" ==>
          m.branches[b].parent in m.branches && m.branches[b].forkCommit in m.commits)
    && (forall sid :: sid in m.sessions ==> m.sessions[sid].branch in m.branches)
    && (forall id :: id in m.commits ==> forall p :: p in m.commits[id].parents ==> p in m.commits)
  }

  function Init(schema: seq<ColID>): State {
    State(schema, map[1 := CommitRecord(1, [], ROOT, 0, map[])], map[ROOT := BranchRecord(ROOT, 1, "", 0)], map[], 1, 0)
  }

  function Graph(m: State): Graph {
    map id | id in m.commits :: m.commits[id].parents
  }

  /** apply: deletes remove the key outright, everything else stores the row. */
  function Apply(t: Table, cs: ChangeSet): Table {
    map pk | pk in t.Keys + cs.Keys && !(pk in cs && cs[pk].op == Delete) :: if pk in cs then cs[pk].row else t[pk]
  }

  function Head(m: State, b: Name): nat {
    if b in m.branches then m.branches[b].head else 0
  }

  function ForkCommit(m: State, b: Name): nat {
    if b in m.branches then m.branches[b].forkCommit else 0
  }

  ghost function Resolve(m: State, b: Name): Option<Table>
    requires Closed(m)
  {
    if b in m.branches then Some(m.commits[m.branches[b].head].state) else None
  }

  function ResolveAt(m: State, commit: nat): Table {
    if commit in m.commits then m.commits[commit].state else map[]
  }

  /** A new commit with the next id becomes the branch's head. */
  ghost function Record(m: State, b: Name, parents: seq<nat>, t: Table): State
    requires Closed(m) && b in m.branches
  {
    var head := m.branches[b].head;
    var id := m.nextID + 1;
    m.(nextID := id,
       commits := m.commits[id := CommitRecord(id, parents, b, m.commits[head].at + 1, t)],
       branches := m.branches[b := m.branches[b].(head := id)])
  }

  /** A new commit of the branch, which then forks from the given commit. */
  ghost function RecordFork(m: State, b: Name, fork: nat, parents: seq<nat>, t: Table): State
    requires Closed(m) && b in m.branches
  {
    var m' := Record(m, b, parents, t);
    m'.(branches := m'.branches[b := m'.branches[b].(forkCommit := fork)])
  }

  /** Over the branch's own fork point, the two are the same. */
  lemma {:induction false} SameFork(m: State, b: Name, parents: seq<nat>, t: Table)
    requires Closed(m) && b in m.branches
    ensures RecordFork(m, b, m.branches[b].forkCommit, parents, t) == Record(m, b, parents, t)
  {
    var m' := Record(m, b, parents, t);
    assert m'.branches[b].(forkCommit := m.branches[b].forkCommit) == m'.branches[b];
  }

  ghost function Commit(m: State, b: Name, cs: ChangeSet): (State, Result<nat>)
    requires Closed(m)
  {
    if b !in m.branches then (m, Err(NoBranch))
    else
      var head := m.branches[b].head;
      (Record(m, b, [head], Apply(m.commits[head].state, cs)), Ok(m.nextID + 1))
  }

  ghost function CreateBranch(m: State, name: Name, from: Name): (State, Result<()>) {
    if name in m.branches then (m, Err(BranchExists))
    else if from !in m.branches then (m, Err(NoParentBranch))
    else
      var head := m.branches[from].head;
      (m.(branches := m.branches[name := BranchRecord(name, head, from, head)]), Ok(()))
  }

  /** The full three-way merge of three snapshots: the table and the conflicts. */
  ghost function MergeCommits(m: State, base: nat, ours: nat, theirs: nat): (Table, seq<Conflict>)
    requires base in m.commits && ours in m.commits && theirs in m.commits
  {
    var b, a, t := m.commits[base].state, m.commits[ours].state, m.commits[theirs].state;
    (MergedTable(m.schema, b, a, t, Everything), MergeConflicts(m.schema, b, a, t, Everything))
  }

  /** A clean merge becomes a commit of the branch, which then forks from the given
      commit; a conflicted one changes nothing. */
  ghost function Finish(m: State, b: Name, base: nat, fork: nat, merged: (Table, seq<Conflict>), parents: seq<nat>): (State, Result<MergeResult>)
    requires Closed(m) && b in m.branches
  {
    if merged.1 == []
    then (RecordFork(m, b, fork, parents, merged.0), Ok(MergeResult(base, merged.0, merged.1, true, m.nextID + 1)))
    else (m, Ok(MergeResult(base, merged.0, merged.1, false, 0)))
  }

  ghost function Merge(m: State, from: Name, into: Name): (State, Result<MergeResult>)
    requires Closed(m)
  {
    if from !in m.branches || into !in m.branches then (m, Err(NoBranch))
    else
      var ours, theirs := m.branches[into].head, m.branches[from].head;
      var bases := MergeBases(Graph(m), ours, theirs);
      if |bases| != 1 then (m, Err(AmbiguousBase(|bases|)))
      else
        var base := Only(bases);
        BaseKnown(m, ours, theirs, base);
        Finish(m, into, base, m.branches[into].forkCommit, MergeCommits(m, base, ours, theirs), [ours, theirs])
  }

  /** A merge base of two known commits is a known commit. */
  lemma {:induction false} BaseKnown(m: State, a: nat, b: nat, base: nat)
    requires Closed(m) && a in m.commits && base in MergeBases(Graph(m), a, b)
    ensures base in m.commits
  {
    assert Dag.ParentClosed(Graph(m), m.commits.Keys);
    ClosedHolds(Graph(m), m.commits.Keys, a, base);
  }

  ghost function UpdateFromParent(m: State, b: Name): (State, Result<MergeResult>)
    requires Closed(m)
  {
    if b !in m.branches then (m, Err(NoBranch))
    else if m.branches[b].parent == "" then (m, Err(BranchHasNoParent))
    else
      var ours, theirs := m.branches[b].head, m.branches[m.branches[b].parent].head;
      var base := m.branches[b].forkCommit;
      if theirs == base then (m, Ok(MergeResult(base, m.commits[ours].state, [], true, 0)))
      else
        Finish(m, b, base, theirs, MergeCommits(m, base, ours, theirs), [ours, theirs])
  }

  // ----- sessions -----

  predicate IsOpen(m: State, sid: nat) {
    sid in m.sessions && m.sessions[sid].open
  }

  ghost function OpenSession(m: State, b: Name): (State, Result<nat>)
    requires Closed(m)
  {
    if b !in m.branches then (m, Err(NoBranch))
    else if b == ROOT then (m, Err(SessionsNotPermitted))
    else
      var id, head := m.nextSess + 1, m.branches[b].head;
      (m.(nextSess := id, sessions := m.sessions[id := SessionRecord(id, b, head, m.commits[head].state, true)]), Ok(id))
  }

  function SessionResolve(m: State, sid: nat): Option<Table> {
    if IsOpen(m, sid) then Some(m.sessions[sid].overlay) else None
  }

  ghost function SessionWrite(m: State, sid: nat, cs: ChangeSet): (State, Result<()>) {
    if !IsOpen(m, sid) then (m, Err(NoOpenSession))
    else
      var s := m.sessions[sid];
      (m.(sessions := m.sessions[sid := s.(overlay := Apply(s.overlay, cs))]), Ok(()))
  }

  ghost function CommitSession(m: State, sid: nat): (State, Result<nat>)
    requires Closed(m)
  {
    if !IsOpen(m, sid) then (m, Err(NoOpenSession))
    else
      var s := m.sessions[sid];
      var head := m.branches[s.branch].head;
      if head != s.base then (m, Err(BranchMoved))
      else
        var m' := Record(m, s.branch, [head], s.overlay);
        (m'.(sessions := m'.sessions[sid := s.(open := false)]), Ok(m.nextID + 1))
  }

  ghost function AbandonSession(m: State, sid: nat): State {
    if sid in m.sessions then m.(sessions := m.sessions[sid := m.sessions[sid].(open := false)]) else m
  }

  // ----- one step -----

  ghost function Step(m: State, op: Operation): (State, Outcome)
    requires Closed(m)
  {
    match op
    case Commit(b, cs) => var r := Commit(m, b, cs); (r.0, Issued(r.1))
    case CreateBranch(name, from) => var r := CreateBranch(m, name, from); (r.0, Done(r.1))
    case Merge(from, into) => var r := Merge(m, from, into); (r.0, Merged(r.1))
    case UpdateFromParent(b) => var r := UpdateFromParent(m, b); (r.0, Merged(r.1))
    case OpenSession(b) => var r := OpenSession(m, b); (r.0, Issued(r.1))
    case SessionWrite(sid, cs) => var r := SessionWrite(m, sid, cs); (r.0, Done(r.1))
    case CommitSession(sid) => var r := CommitSession(m, sid); (r.0, Issued(r.1))
    case AbandonSession(sid) => (AbandonSession(m, sid), Done(Ok(())))
  }
}
