/** The engine as a state machine: one list of row versions, read through chains
    (internal/engine/engine.go). */
module IntervalMachine {
  import opened Wrappers
  import opened Core
  import opened Orders
  import opened Dag
  import opened Operations
  import opened Versions
  import opened Staging
  import opened Lineage
  import opened ThreeWay

  datatype BranchRecord = BranchRecord(
    name: Name, headSeq: int, headCommit: nat, parent: Name, forkSeq: int, forkCommit: nat, chain: Chain)
  datatype CommitMeta = CommitMeta(id: nat, parents: seq<nat>, branch: Name, at: int, chain: Chain)
  datatype SessionRecord = SessionRecord(id: nat, branch: Name, base: nat, baseSeq: int, open: bool)

  datatype State = State(
    schema: seq<ColID>,
    rows: seq<Version>,
    branches: map<Name, BranchRecord>,
    commits: map<nat, CommitMeta>,
    sessions: map<nat, SessionRecord>,
    nextID: nat,
    nextSess: nat)

  ghost predicate Closed(e: State) {
    && (forall b :: b in e.branches && e.branches[b].parent != "" ==> e.branches[b].parent in e.branches)
    && (forall sid :: sid in e.sessions ==> e.sessions[sid].branch in e.branches)
  }

  /** The chain of a commit begins with its own branch at its own seq. */
  ghost predicate Headed(e: State) {
    forall id :: id in e.commits ==>
      e.commits[id].chain != [] && e.commits[id].chain[0] == Segment(e.commits[id].branch, e.commits[id].at)
  }

  function Init(schema: seq<ColID>): State {
    State(schema, [], map[ROOT := BranchRecord(ROOT, 0, 1, "", 0, 0, [])],
      map[1 := CommitMeta(1, [], ROOT, 0, [Segment(ROOT, 0)])], map[], 1, 0)
  }

  function Graph(e: State): Graph {
    map id | id in e.commits :: e.commits[id].parents
  }

  // ----- resolution -----

  /** The branch at the seq over the tail it captured when it forked. */
  function ChainFor(e: State, b: Name, at: int): Chain {
    if b in e.branches then [Segment(b, at)] + e.branches[b].chain else [Segment(b, at)]
  }

  function HeadChain(e: State, b: Name): Chain
    requires b in e.branches
  {
    ChainFor(e, b, e.branches[b].headSeq)
  }

  /** The upper seq of a range: a negative one stands for the head. */
  function UpTo(e: State, b: Name, hi: int): int
    requires b in e.branches
  {
    if hi < 0 then e.branches[b].headSeq else hi
  }

  function Head(e: State, b: Name): nat {
    if b in e.branches then e.branches[b].headCommit else 0
  }

  function ForkCommit(e: State, b: Name): nat {
    if b in e.branches then e.branches[b].forkCommit else 0
  }

  ghost function Resolve(e: State, b: Name): Option<Table> {
    if b in e.branches then Some(View(e.rows, HeadChain(e, b))) else None
  }

  ghost function StateAtCommit(e: State, id: nat): Table {
    if id in e.commits then View(e.rows, e.commits[id].chain) else map[]
  }

  // ----- writes -----

  /** A version of the commit being written. */
  function NewVersion(b: Name, pk: PK, n: int, op: Op, id: nat, changed: set<ColID>, row: Row): Version {
    Version(b, pk, n, MAX_SEQ, op, id, 0, changed, row)
  }

  /** The version a change writes, if any: deleting an absent row writes nothing. */
  function ChangeVersion(b: Name, n: int, id: nat, cols: set<ColID>, pk: PK, before: Option<Row>, ch: Change): seq<Version> {
    if ch.op == Delete then
      if before.None? then [] else [NewVersion(b, pk, n, Delete, id, MaskOf(before, None, cols), map[])]
    else
      [NewVersion(b, pk, n, if before.None? then Insert else Update, id, MaskOf(before, Some(ch.row), cols), ch.row)]
  }

  function ChangeVersions(b: Name, n: int, id: nat, cols: set<ColID>, current: Table, cs: ChangeSet, keys: seq<PK>): seq<Version>
    requires forall k :: k in keys ==> k in cs
    decreases |keys|
  {
    if keys == [] then []
    else
      var k := keys[|keys| - 1];
      ChangeVersions(b, n, id, cols, current, cs, keys[..|keys| - 1])
      + ChangeVersion(b, n, id, cols, k, Lookup(current, k), cs[k])
  }

  /** recordCommit, with the branch's head moved to the new commit. */
  function RecordCommit(e: State, rows: seq<Version>, b: Name, n: int, id: nat, parents: seq<nat>): State
    requires b in e.branches
  {
    e.(rows := rows,
       nextID := id,
       branches := e.branches[b := e.branches[b].(headSeq := n, headCommit := id)],
       commits := e.commits[id := CommitMeta(id, parents, b, n, ChainFor(e, b, n))])
  }

  /** The store once a change set is written over what the branch reads. */
  ghost function CommitRows(e: State, b: Name, cs: ChangeSet): seq<Version>
    requires b in e.branches
  {
    var n, id := e.branches[b].headSeq + 1, e.nextID + 1;
    WriteAll(e.rows, ChangeVersions(b, n, id, ColumnSet(e.schema), View(e.rows, HeadChain(e, b)), cs, SortedKeys(cs.Keys)))
  }

  ghost function Commit(e: State, b: Name, cs: ChangeSet): (State, Result<nat>) {
    if b !in e.branches then (e, Err(NoBranch))
    else
      var id := e.nextID + 1;
      (RecordCommit(e, CommitRows(e, b, cs), b, e.branches[b].headSeq + 1, id, [e.branches[b].headCommit]), Ok(id))
  }

  /** inheritedChainFrom: the parent at its head over the parent's own tail. */
  function Inherited(e: State, parent: Name): Chain
    requires parent in e.branches
  {
    [Segment(parent, e.branches[parent].headSeq)] + e.branches[parent].chain
  }

  ghost function CreateBranch(e: State, name: Name, from: Name): (State, Result<()>) {
    if name in e.branches then (e, Err(BranchExists))
    else if from !in e.branches then (e, Err(NoParentBranch))
    else
      var p := e.branches[from];
      (e.(branches := e.branches[name := BranchRecord(name, 0, p.headCommit, from, p.headSeq, p.headCommit, Inherited(e, from))]), Ok(()))
  }

  // ----- merge -----

  function ChangedColumns(rows: seq<Version>): set<ColID> {
    set i, c | 0 <= i < |rows| && c in rows[i].changed :: c
  }

  /** maskSince for one key. */
  ghost function MaskFor(e: State, b: Name, base: nat, pk: PK): set<ColID>
    requires b in e.branches
  {
    if base !in e.commits then {}
    else set c | c in ChangedColumns(e.rows) && MaskSince(e.rows, HeadChain(e, b), e.commits[base].chain, pk, c)
  }

  /** The union of the two sides' masks, for the keys a merge visits. */
  ghost function MergeMask(e: State, into: Name, from: Name, base: nat, keys: set<PK>): map<PK, set<ColID>>
    requires into in e.branches && from in e.branches
  {
    map pk | pk in keys :: MaskFor(e, into, base, pk) + MaskFor(e, from, base, pk)
  }

  /** The three tables of a merge and the masks that narrow it. */
  ghost function MergeStates(e: State, into: Name, from: Name, base: nat): (Table, seq<Conflict>)
    requires into in e.branches && from in e.branches
  {
    var b, a, t := StateAtCommit(e, base), View(e.rows, HeadChain(e, into)), View(e.rows, HeadChain(e, from));
    var scope := Narrowed(MergeMask(e, into, from, base, MergeKeys(b, a, t)));
    (MergedTable(e.schema, b, a, t, scope), MergeConflicts(e.schema, b, a, t, scope))
  }

  /** The version a result row writes: none when it is what the branch already reads. */
  function UpsertVersion(b: Name, n: int, id: nat, cols: set<ColID>, pk: PK, before: Option<Row>, row: Row): seq<Version> {
    if before == Some(row) then []
    else [NewVersion(b, pk, n, if before.None? then Insert else Update, id, MaskOf(before, Some(row), cols), row)]
  }

  /** A tombstone, for a row that is gone. */
  function TombstoneVersion(b: Name, n: int, id: nat, cols: set<ColID>, pk: PK, before: Option<Row>, gone: bool): seq<Version> {
    if gone then [NewVersion(b, pk, n, Delete, id, MaskOf(before, None, cols), map[])] else []
  }

  /** The versions that turn the current view into the result: changed and new
      rows first, then a tombstone for every row that is gone. */
  function UpsertVersions(b: Name, n: int, id: nat, cols: set<ColID>, current: Table, result: Table, keys: seq<PK>): seq<Version>
    requires forall k :: k in keys ==> k in result
    decreases |keys|
  {
    if keys == [] then []
    else
      var k := keys[|keys| - 1];
      UpsertVersions(b, n, id, cols, current, result, keys[..|keys| - 1])
      + UpsertVersion(b, n, id, cols, k, Lookup(current, k), result[k])
  }

  function TombstoneVersions(b: Name, n: int, id: nat, cols: set<ColID>, current: Table, result: Table, keys: seq<PK>): seq<Version>
    decreases |keys|
  {
    if keys == [] then []
    else
      var k := keys[|keys| - 1];
      TombstoneVersions(b, n, id, cols, current, result, keys[..|keys| - 1])
      + TombstoneVersion(b, n, id, cols, k, Lookup(current, k), k !in result)
  }

  ghost function ResultVersions(b: Name, n: int, id: nat, cols: set<ColID>, current: Table, result: Table): seq<Version> {
    UpsertVersions(b, n, id, cols, current, result, SortedKeys(result.Keys))
    + TombstoneVersions(b, n, id, cols, current, result, SortedKeys(current.Keys))
  }

  /** The store once a merge result is written over what the branch reads. */
  ghost function ResultRows(e: State, b: Name, result: Table): seq<Version>
    requires b in e.branches
  {
    var n, id := e.branches[b].headSeq + 1, e.nextID + 1;
    WriteAll(e.rows, ResultVersions(b, n, id, ColumnSet(e.schema), View(e.rows, HeadChain(e, b)), result))
  }

  /** applyMergeResult: write a merged table onto a branch as one commit. */
  ghost function ApplyMergeResult(e: State, b: Name, result: Table, parents: seq<nat>): State
    requires b in e.branches
  {
    RecordCommit(e, ResultRows(e, b, result), b, e.branches[b].headSeq + 1, e.nextID + 1, parents)
  }

  /** A clean merge is written onto the branch, in the state it is to be written in;
      a conflicted one changes nothing. */
  ghost function Finish(e: State, target: State, b: Name, base: nat, merged: (Table, seq<Conflict>), parents: seq<nat>): (State, Result<MergeResult>)
    requires b in target.branches
  {
    if merged.1 == []
    then (ApplyMergeResult(target, b, merged.0, parents), Ok(MergeResult(base, merged.0, merged.1, true, e.nextID + 1)))
    else (e, Ok(MergeResult(base, merged.0, merged.1, false, 0)))
  }

  ghost function Merge(e: State, from: Name, into: Name): (State, Result<MergeResult>) {
    if from !in e.branches || into !in e.branches then (e, Err(NoBranch))
    else
      var ours, theirs := e.branches[into].headCommit, e.branches[from].headCommit;
      var bases := MergeBases(Graph(e), ours, theirs);
      if |bases| != 1 then (e, Err(AmbiguousBase(|bases|)))
      else
        var base := Only(bases);
        Finish(e, e, into, base, MergeStates(e, into, from, base), [ours, theirs])
  }

  /** The branch forks anew from its parent's head. */
  function AdvanceFork(e: State, b: Name): State
    requires b in e.branches && e.branches[b].parent in e.branches
  {
    var p := e.branches[e.branches[b].parent];
    e.(branches := e.branches[b := e.branches[b].(
      forkSeq := p.headSeq, forkCommit := p.headCommit, chain := Inherited(e, e.branches[b].parent))])
  }

  ghost function UpdateFromParent(e: State, b: Name): (State, Result<MergeResult>)
    requires Closed(e)
  {
    if b !in e.branches then (e, Err(NoBranch))
    else if e.branches[b].parent == "" then (e, Err(BranchHasNoParent))
    else
      var parent := e.branches[b].parent;
      var ours, theirs, base := e.branches[b].headCommit, e.branches[parent].headCommit, e.branches[b].forkCommit;
      if theirs == base then (e, Ok(MergeResult(base, View(e.rows, HeadChain(e, b)), [], true, 0)))
      else
        Finish(e, AdvanceFork(e, b), b, base, MergeStates(e, b, parent, base), [ours, theirs])
  }

  // ----- sessions -----

  predicate IsOpen(e: State, sid: nat) {
    sid in e.sessions && e.sessions[sid].open
  }

  ghost function OpenSession(e: State, b: Name): (State, Result<nat>) {
    if b !in e.branches then (e, Err(NoBranch))
    else if b == ROOT then (e, Err(SessionsNotPermitted))
    else
      var id := e.nextSess + 1;
      (e.(nextSess := id,
          sessions := e.sessions[id := SessionRecord(id, b, e.branches[b].headCommit, e.branches[b].headSeq, true)]), Ok(id))
  }

  /** A session reads through the chain of its base commit. */
  ghost function SessionResolve(e: State, sid: nat): Option<Table> {
    if IsOpen(e, sid) && e.sessions[sid].base in e.commits
    then Some(SessionView(e.rows, e.commits[e.sessions[sid].base].chain, sid))
    else None
  }

  function StageChange(rows: seq<Version>, sid: nat, b: Name, n: int, cols: set<ColID>, pk: PK, before: Option<Row>, ch: Change): seq<Version> {
    if ch.op == Delete then
      if before.None? then rows else StageRow(rows, sid, b, n, pk, Delete, map[], MaskOf(before, None, cols))
    else
      StageRow(rows, sid, b, n, pk, if before.None? then Insert else Update, ch.row, MaskOf(before, Some(ch.row), cols))
  }

  function StageAll(rows: seq<Version>, sid: nat, b: Name, n: int, cols: set<ColID>, view: Table, cs: ChangeSet, keys: seq<PK>): seq<Version>
    requires forall k :: k in keys ==> k in cs
    decreases |keys|
  {
    if keys == [] then rows
    else
      var k := keys[|keys| - 1];
      StageChange(StageAll(rows, sid, b, n, cols, view, cs, keys[..|keys| - 1]), sid, b, n, cols, k, Lookup(view, k), cs[k])
  }

  ghost function SessionWrite(e: State, sid: nat, cs: ChangeSet): (State, Result<()>)
    requires Closed(e)
  {
    if !IsOpen(e, sid) then (e, Err(NoOpenSession))
    else
      var b := e.sessions[sid].branch;
      var view := if SessionResolve(e, sid).Some? then SessionResolve(e, sid).value else map[];
      (e.(rows := StageAll(e.rows, sid, b, e.branches[b].headSeq + 1, ColumnSet(e.schema), view, cs, SortedKeys(cs.Keys))), Ok(()))
  }

  ghost function CommitSession(e: State, sid: nat): (State, Result<nat>)
    requires Closed(e)
  {
    if !IsOpen(e, sid) then (e, Err(NoOpenSession))
    else
      var s := e.sessions[sid];
      var b := e.branches[s.branch];
      if b.headCommit != s.base then (e, Err(BranchMoved))
      else
        var n, id := b.headSeq + 1, e.nextID + 1;
        var e' := RecordCommit(e, Publish(e.rows, s.branch, sid, id, n), s.branch, n, id, [b.headCommit]);
        (e'.(sessions := e'.sessions[sid := s.(open := false)]), Ok(id))
  }

  ghost function AbandonSession(e: State, sid: nat): State {
    if sid in e.sessions
    then e.(rows := Drop(e.rows, sid), sessions := e.sessions[sid := e.sessions[sid].(open := false)])
    else e
  }

  // ----- one step -----

  ghost function Step(e: State, op: Operation): (State, Outcome)
    requires Closed(e)
  {
    match op
    case Commit(b, cs) => var r := Commit(e, b, cs); (r.0, Issued(r.1))
    case CreateBranch(name, from) => var r := CreateBranch(e, name, from); (r.0, Done(r.1))
    case Merge(from, into) => var r := Merge(e, from, into); (r.0, Merged(r.1))
    case UpdateFromParent(b) => var r := UpdateFromParent(e, b); (r.0, Merged(r.1))
    case OpenSession(b) => var r := OpenSession(e, b); (r.0, Issued(r.1))
    case SessionWrite(sid, cs) => var r := SessionWrite(e, sid, cs); (r.0, Done(r.1))
    case CommitSession(sid) => var r := CommitSession(e, sid); (r.0, Issued(r.1))
    case AbandonSession(sid) => (AbandonSession(e, sid), Done(Ok(())))
  }
}
