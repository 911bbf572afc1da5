/** The operations a client may issue, and what it sees back. */
module Operations {
  import opened Wrappers
  import opened Core

  /** What a three-way merge produced. Commit 0 means none was recorded. */
  datatype MergeResult = MergeResult(base: nat, result: Table, conflicts: seq<Conflict>, clean: bool, commit: nat)

  datatype Operation =
    | Commit(branch: Name, cs: ChangeSet)
    | CreateBranch(name: Name, from: Name)
    | Merge(source: Name, into: Name)
    | UpdateFromParent(branch: Name)
    | OpenSession(branch: Name)
    | SessionWrite(sid: nat, cs: ChangeSet)
    | CommitSession(sid: nat)
    | AbandonSession(sid: nat)

  datatype Outcome =
    | Issued(id: Result<nat>)
    | Done(done: Result<()>)
    | Merged(merge: Result<MergeResult>)

  /** The one assumption on inputs: written rows carry exactly the schema's columns. */
  predicate ValidOp(op: Operation, cols: set<ColID>) {
    match op
    case Commit(_, cs) => TotalChanges(cs, cols)
    case SessionWrite(_, cs) => TotalChanges(cs, cols)
    case _ => true
  }

  /** The only element of a singleton. */
  ghost function Only(s: set<nat>): (x: nat)
    requires |s| == 1
    ensures s == {x}
  {
    var x :| x in s;
    assert |s - {x}| == 0;
    x
  }
}
