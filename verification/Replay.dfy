/** What diffs say of each key. */
module Replay {
  // And that applying a diff to the table it starts from gives the table it ends at.

  import opened Wrappers
  import opened Core
  import opened Versions
  import opened ThreeWay
  import opened Agreement
  import opened Changes
  import opened Guarantees
  import opened Revert
  import E = IntervalMachine
  import M = SnapshotMachine

  // ----- one key -----

  /** What became of a row, as a diff names it. */
  predicate OpTold(op: Op, from: Table, to: Table, pk: PK) {
    match op
    case Insert => pk !in from && pk in to
    case Delete => pk in from && pk !in to
    case Update => pk in from && pk in to && from[pk] != to[pk]
  }

  /** The marked columns are exactly those whose cells differ. */
  ghost predicate CellsTold(changed: set<ColID>, from: Table, to: Table, cols: set<ColID>, pk: PK) {
    forall c :: c in changed <==> c in cols && Cell(from, pk, c) != Cell(to, pk, c)
  }

  /** A diff lists the key exactly when its row changed, says how, holds the row it has now,
      and marks the cells that moved; a deleted row marks none. */
  ghost predicate ChangeTold(d: Diff, from: Table, to: Table, cols: set<ColID>, pk: PK) {
    && (pk in d <==> Lookup(from, pk) != Lookup(to, pk))
    && (pk in d ==>
          && OpTold(d[pk].op, from, to, pk) && d[pk].row == Lookup(to, pk)
          && if d[pk].op == Delete then d[pk].changed == {} else CellsTold(d[pk].changed, from, to, cols, pk))
  }

  /** An entry also holds the row it had before. */
  ghost predicate EntryTold(d: Entries, from: Table, to: Table, cols: set<ColID>, pk: PK) {
    && (pk in d <==> Lookup(from, pk) != Lookup(to, pk))
    && (pk in d ==>
          && OpTold(d[pk].op, from, to, pk) && d[pk].before == Lookup(from, pk) && d[pk].after == Lookup(to, pk)
          && if d[pk].op == Delete then d[pk].changed == {} else CellsTold(d[pk].changed, from, to, cols, pk))
  }

  /** The whole difference of two tables is the one diff that tells every key. */
  lemma {:induction false} DiffIs(d: Diff, from: Table, to: Table, cols: set<ColID>)
    ensures d == FullDiff(from, to, cols) <==> forall pk :: ChangeTold(d, from, to, cols, pk)
  {
    var f := FullDiff(from, to, cols);
    forall pk
      ensures ChangeTold(f, from, to, cols, pk)
    {
      DiffTells(from, to, cols, pk);
    }
    if forall pk :: ChangeTold(d, from, to, cols, pk) {
      forall pk
        ensures pk in d <==> pk in f
        ensures pk in d ==> d[pk] == f[pk]
      {
        assert ChangeTold(d, from, to, cols, pk) && ChangeTold(f, from, to, cols, pk);
        if pk in d {
          SameMarks(d[pk].changed, f[pk].changed, from, to, cols, pk);
        }
      }
    }
  }

  lemma {:induction false} SameMarks(x: set<ColID>, y: set<ColID>, from: Table, to: Table, cols: set<ColID>, pk: PK)
    ensures CellsTold(x, from, to, cols, pk) && CellsTold(y, from, to, cols, pk) ==> x == y
  {
  }

  /** And so are its entries. */
  lemma {:induction false} EntriesAre(d: Entries, from: Table, to: Table, cols: set<ColID>)
    ensures d == FullEntries(from, to, cols) <==> forall pk :: EntryTold(d, from, to, cols, pk)
  {
    var f := FullEntries(from, to, cols);
    forall pk
      ensures EntryTold(f, from, to, cols, pk)
    {
      EntriesTell(from, to, cols, pk);
    }
    if forall pk :: EntryTold(d, from, to, cols, pk) {
      forall pk
        ensures pk in d <==> pk in f
        ensures pk in d ==> d[pk] == f[pk]
      {
        assert EntryTold(d, from, to, cols, pk) && EntryTold(f, from, to, cols, pk);
        if pk in d {
          SameMarks(d[pk].changed, f[pk].changed, from, to, cols, pk);
        }
      }
    }
  }

  // ----- replaying -----

  /** A diff read as a change set. */
  function AsChanges(d: Diff): ChangeSet {
    map pk | pk in d :: Change(d[pk].op, if d[pk].row.Some? then d[pk].row.value else map[])
  }

  /** The replay law: the difference of two tables, applied to the first, gives the second. */
  lemma {:induction false} ReplayLaw(from: Table, to: Table, cols: set<ColID>)
    ensures M.Apply(from, AsChanges(FullDiff(from, to, cols))) == to
  {
    var d := FullDiff(from, to, cols);
    forall pk
      ensures Lookup(M.Apply(from, AsChanges(d)), pk) == Lookup(to, pk)
    {
      DiffTells(from, to, cols, pk);
    }
    SameLookups(M.Apply(from, AsChanges(d)), to);
  }

  // ----- in reachable states -----

  /** The engine's and the store's diff of a branch between any two seqs, over the tail it has
      now, tell every key, and replaying the changes on what the branch read at the first
      gives what it read at the second. */
  lemma {:induction false} BranchDiffTells(schema: seq<ColID>, e: E.State, b: Name, lo: int, hi: int)
    requires Reachable(schema, e) && b in e.branches && lo <= hi < MAX_SEQ
    ensures forall pk :: ChangeTold(BranchDiff(e, b, lo, hi), BranchAt(e, b, lo), BranchAt(e, b, hi), ColumnSet(schema), pk)
    ensures forall pk :: EntryTold(BranchEntries(e, b, lo, hi), BranchAt(e, b, lo), BranchAt(e, b, hi), ColumnSet(schema), pk)
    ensures M.Apply(BranchAt(e, b, lo), AsChanges(BranchDiff(e, b, lo, hi))) == BranchAt(e, b, hi)
  {
    BranchDiffFull(schema, e, b, lo, hi);
    var from, to := BranchAt(e, b, lo), BranchAt(e, b, hi);
    DiffIs(FullDiff(from, to, ColumnSet(schema)), from, to, ColumnSet(schema));
    EntriesAre(FullEntries(from, to, ColumnSet(schema)), from, to, ColumnSet(schema));
    ReplayLaw(from, to, ColumnSet(schema));
  }

  lemma {:induction false} BranchDiffFull(schema: seq<ColID>, e: E.State, b: Name, lo: int, hi: int)
    requires Reachable(schema, e) && b in e.branches && lo <= hi < MAX_SEQ
    ensures BranchDiff(e, b, lo, hi) == FullDiff(BranchAt(e, b, lo), BranchAt(e, b, hi), ColumnSet(schema))
    ensures BranchEntries(e, b, lo, hi) == FullEntries(BranchAt(e, b, lo), BranchAt(e, b, hi), ColumnSet(schema))
  {
    var h, m := Paired(schema, e);
    StoreTiles(e, h, m);
    ScanIsFull(e.rows, b, lo, hi, e.branches[b].chain, ColumnSet(schema));
  }

  /** Between two commits read over the tail the branch still has, that is the one's state
      becoming the other's. */
  lemma {:induction false} DiffReplays(schema: seq<ColID>, e: E.State, b: Name, c1: nat, c2: nat)
    requires Reachable(schema, e) && b in e.branches && c1 in e.commits && c2 in e.commits
    requires e.commits[c1].chain == E.ChainFor(e, b, e.commits[c1].at) && e.commits[c2].chain == E.ChainFor(e, b, e.commits[c2].at)
    requires e.commits[c1].at <= e.commits[c2].at
    ensures var d := BranchDiff(e, b, e.commits[c1].at, e.commits[c2].at);
      && M.Apply(E.StateAtCommit(e, c1), AsChanges(d)) == E.StateAtCommit(e, c2)
      && forall pk :: ChangeTold(d, E.StateAtCommit(e, c1), E.StateAtCommit(e, c2), ColumnSet(schema), pk)
  {
    SeqInRange(schema, e, c2);
    BranchDiffTells(schema, e, b, e.commits[c1].at, e.commits[c2].at);
  }

  /** Any branch that reads as one commit, a fork of it for example, reads as another once the
      model's diff of the two is committed on it. */
  lemma {:induction false} DiffCarries(schema: seq<ColID>, e: E.State, b: Name, c1: nat, c2: nat)
    requires Reachable(schema, e) && b in e.branches && E.Resolve(e, b) == Some(E.StateAtCommit(e, c1))
    ensures E.Resolve(E.Commit(e, b, AsChanges(SnapshotDiff(e, c1, c2))).0, b) == Some(E.StateAtCommit(e, c2))
  {
    var h, m := Paired(schema, e);
    CommitReads(e, h, m, b, AsChanges(SnapshotDiff(e, c1, c2)));
    ReplayLaw(E.StateAtCommit(e, c1), E.StateAtCommit(e, c2), ColumnSet(e.schema));
  }
}
