/** The versions operations write. */
module Stored {
  // They start at the branch's new seq; each says what became of its row.

  import opened Wrappers
  import opened Core
  import opened Orders
  import opened Operations
  import opened Versions
  import opened Lineage
  import opened ThreeWay
  import opened Writing
  import opened Agreement
  import opened Refinement
  import opened MergeRefinement
  import opened Guarantees
  import opened Outcomes
  import opened Revert
  import E = IntervalMachine
  import M = SnapshotMachine

  /** A committed version the branch starts at the seq. */
  predicate NewAt(v: Version, b: Name, n: int) {
    v.session == 0 && v.branch == b && v.from == n
  }

  /** The version holds the row its key has after, or is a tombstone where there is none; it is
      called an insert or an update by whether there was a row before; and it marks exactly the
      cells that moved. */
  ghost predicate Tells(v: Version, before: Table, after: Table, cols: set<ColID>) {
    && Image(v) == Lookup(after, v.pk)
    && (v.op == Insert ==> v.pk !in before) && (v.op == Update ==> v.pk in before)
    && forall c :: c in v.changed <==> c in cols && Cell(before, v.pk, c) != Cell(after, v.pk, c)
  }

  /** Every new version tells what became of its key, there is one for every key whose row
      changed, and no key has two. */
  ghost predicate Stores(rows: seq<Version>, b: Name, n: int, before: Table, after: Table, cols: set<ColID>) {
    && (forall v :: v in rows && NewAt(v, b, n) ==> Tells(v, before, after, cols))
    && (forall pk :: Lookup(before, pk) != Lookup(after, pk) ==> exists v :: v in rows && NewAt(v, b, n) && v.pk == pk)
    && (forall v, w :: v in rows && w in rows && NewAt(v, b, n) && NewAt(w, b, n) && v.pk == w.pk ==> v == w)
  }

  /** Nothing on the branch starts at the seq yet. */
  ghost predicate NothingAt(rows: seq<Version>, b: Name, n: int) {
    forall v :: v in rows ==> !NewAt(v, b, n)
  }

  /** Closing touches no version that starts at the seq, and then the new one is there. */
  lemma {:induction false} WriteNew(rows: seq<Version>, w: Version, b: Name, n: int, v: Version)
    requires FreshFor(w, b, n) && forall x :: x in rows && NewAt(x, b, n) ==> x.pk != w.pk
    ensures v in Write(rows, w) && NewAt(v, b, n) <==> (v in rows && NewAt(v, b, n)) || v == w
  {
    var r := Close(rows, b, w.pk, n);
    CloseShrinks(rows, b, w.pk, n);
    if v in r {
      var i :| 0 <= i < |r| && r[i] == v;
      assert rows[i] in rows;
    }
    if v in rows && NewAt(v, b, n) {
      var i :| 0 <= i < |rows| && rows[i] == v;
      assert r[i] == v;
    }
  }

  /** The versions at a commit's seq are those of its batch. */
  lemma {:induction false} WriteAllNew(rows: seq<Version>, vs: seq<Version>, b: Name, n: int)
    requires Batch(vs, b, n) && NothingAt(rows, b, n)
    ensures forall v :: v in WriteAll(rows, vs) && NewAt(v, b, n) <==> v in vs
    decreases |vs|
  {
    if vs != [] {
      var k := |vs| - 1;
      var init := vs[..k];
      assert forall i :: 0 <= i < |init| ==> init[i] == vs[i];
      WriteAllNew(rows, init, b, n);
      forall v
        ensures v in WriteAll(rows, vs) && NewAt(v, b, n) <==> v in vs
      {
        WriteNew(WriteAll(rows, init), vs[k], b, n, v);
        assert vs == init + [vs[k]];
      }
    }
  }

  lemma {:induction false} PlanTells(plan: Plan, i: int)
    requires plan in SoundPlans() && 0 <= i < |plan.versions|
    ensures Tells(plan.versions[i], plan.before, plan.after, plan.cols)
  {
    var pk := plan.versions[i].pk;
    assert WritesAt(plan.versions, plan.before, plan.after, plan.cols, pk);
    var j :| 0 <= j < |plan.versions| && WritesKey(plan.versions, plan.before, plan.after, plan.cols, pk, j);
    assert i == j;
  }

  /** Writing a sound batch stores what it should. */
  lemma {:induction false} PlanStores(rows: seq<Version>, plan: Plan)
    requires plan in SoundPlans() && NothingAt(rows, plan.branch, plan.n)
    ensures Stores(WriteAll(rows, plan.versions), plan.branch, plan.n, plan.before, plan.after, plan.cols)
  {
    var vs := plan.versions;
    WriteAllNew(rows, vs, plan.branch, plan.n);
    forall i | 0 <= i < |vs| {
      PlanTells(plan, i);
    }
    forall pk | Lookup(plan.before, pk) != Lookup(plan.after, pk)
      ensures exists v :: v in WriteAll(rows, vs) && NewAt(v, plan.branch, plan.n) && v.pk == pk
    {
      assert WritesAt(vs, plan.before, plan.after, plan.cols, pk);
      var i :| 0 <= i < |vs| && WritesKey(vs, plan.before, plan.after, plan.cols, pk, i);
      assert vs[i] in vs;
    }
  }

  lemma {:induction false} NothingAbove(rows: seq<Version>, heads: map<Name, int>, b: Name, n: int)
    requires Tiled(rows, heads) && b in heads && heads[b] < n
    ensures NothingAt(rows, b, n)
  {
    forall v | v in rows
      ensures !NewAt(v, b, n)
    {
      var i :| 0 <= i < |rows| && rows[i] == v;
      assert InRange(rows[i], heads);
    }
  }

  lemma {:induction false} NothingPast(schema: seq<ColID>, e: E.State, b: Name)
    requires Reachable(schema, e) && b in e.branches
    ensures NothingAt(e.rows, b, e.branches[b].headSeq + 1)
  {
    var h, m := Paired(schema, e);
    StoreTiles(e, h, m);
    BranchFacts(e, h, m, b);
    NothingAbove(e.rows, Heads(h), b, e.branches[b].headSeq + 1);
  }

  /** What a plan of the branch stores, its parts spelled out. */
  lemma {:induction false} PlannedStores(rows: seq<Version>, plan: Plan, b: Name, n: int, rows': seq<Version>, before: Table, after: Table, cols: set<ColID>)
    requires plan in SoundPlans() && NothingAt(rows, b, n) && rows' == WriteAll(rows, plan.versions)
    requires plan.branch == b && plan.n == n && plan.before == before && plan.after == after && plan.cols == cols
    ensures Stores(rows', b, n, before, after, cols)
  {
    PlanStores(rows, plan);
  }

  lemma {:induction false} CommitPlanIs(e: E.State, b: Name, cs: ChangeSet)
    requires b in e.branches
    ensures var plan := CommitPlan(e, b, cs);
      && E.Commit(e, b, cs).0.rows == WriteAll(e.rows, plan.versions)
      && plan.branch == b && plan.n == e.branches[b].headSeq + 1 && plan.cols == ColsOf(e)
      && plan.before == E.Resolve(e, b).value && plan.after == M.Apply(E.Resolve(e, b).value, cs)
  {
  }

  /** Commit stores, at the branch's next seq, one version for every key whose row changes,
      each telling what became of its key; a rewritten equal row is stored with no cell
      marked. */
  lemma {:induction false} CommitStores(schema: seq<ColID>, e: E.State, b: Name, cs: ChangeSet)
    requires Reachable(schema, e) && b in e.branches
    ensures var e' := E.Commit(e, b, cs).0;
      E.Resolve(e', b).Some? && Stores(e'.rows, b, e.branches[b].headSeq + 1, E.Resolve(e, b).value, E.Resolve(e', b).value, ColumnSet(schema))
  {
    SchemaIs(schema, e);
    NothingPast(schema, e, b);
    CommitReadsApplied(schema, e, b, cs);
    CommitWrites(e, b, cs);
    CommitPlanIs(e, b, cs);
    PlannedStores(e.rows, CommitPlan(e, b, cs), b, e.branches[b].headSeq + 1, E.Commit(e, b, cs).0.rows,
      E.Resolve(e, b).value, M.Apply(E.Resolve(e, b).value, cs), ColumnSet(schema));
  }

  lemma {:induction false} CommitReadsApplied(schema: seq<ColID>, e: E.State, b: Name, cs: ChangeSet)
    requires Reachable(schema, e) && b in e.branches
    ensures E.Resolve(E.Commit(e, b, cs).0, b) == Some(M.Apply(E.Resolve(e, b).value, cs))
  {
    var h, m := Paired(schema, e);
    CommitReads(e, h, m, b, cs);
  }

  lemma {:induction false} SchemaIs(schema: seq<ColID>, e: E.State)
    requires Reachable(schema, e)
    ensures e.schema == schema && E.Closed(e)
  {
    var h, m := Paired(schema, e);
  }

  // ----- merge results -----

  /** Nothing is stored but rows that changed. */
  ghost predicate OnlyChanged(rows: seq<Version>, b: Name, n: int, before: Table, after: Table) {
    forall v :: v in rows && NewAt(v, b, n) ==> Lookup(before, v.pk) != Lookup(after, v.pk)
  }

  lemma {:induction false} UpsertsChanged(b: Name, n: int, id: nat, cols: set<ColID>, current: Table, t: Table, keys: seq<PK>)
    requires forall k :: k in keys ==> k in t
    ensures forall v :: v in E.UpsertVersions(b, n, id, cols, current, t, keys) ==> Lookup(current, v.pk) != Lookup(t, v.pk)
    decreases |keys|
  {
    if keys != [] {
      UpsertsChanged(b, n, id, cols, current, t, keys[..|keys| - 1]);
    }
  }

  lemma {:induction false} TombstonesChanged(b: Name, n: int, id: nat, cols: set<ColID>, current: Table, t: Table, keys: seq<PK>)
    requires forall k :: k in keys ==> k in current
    ensures forall v :: v in E.TombstoneVersions(b, n, id, cols, current, t, keys) ==> Lookup(current, v.pk) != Lookup(t, v.pk)
    decreases |keys|
  {
    if keys != [] {
      assert keys == keys[..|keys| - 1] + [keys[|keys| - 1]];
      TombstonesChanged(b, n, id, cols, current, t, keys[..|keys| - 1]);
    }
  }

  lemma {:induction false} ResultChanged(b: Name, n: int, id: nat, cols: set<ColID>, current: Table, t: Table)
    ensures forall v :: v in E.ResultVersions(b, n, id, cols, current, t) ==> Lookup(current, v.pk) != Lookup(t, v.pk)
  {
    UpsertsChanged(b, n, id, cols, current, t, SortedKeys(t.Keys));
    TombstonesChanged(b, n, id, cols, current, t, SortedKeys(current.Keys));
  }

  lemma {:induction false} PlannedOnly(rows: seq<Version>, plan: Plan)
    requires Batch(plan.versions, plan.branch, plan.n) && NothingAt(rows, plan.branch, plan.n)
    requires forall v :: v in plan.versions ==> Lookup(plan.before, v.pk) != Lookup(plan.after, v.pk)
    ensures OnlyChanged(WriteAll(rows, plan.versions), plan.branch, plan.n, plan.before, plan.after)
  {
    WriteAllNew(rows, plan.versions, plan.branch, plan.n);
  }

  lemma {:induction false} SoundIsBatch(plan: Plan)
    requires plan in SoundPlans()
    ensures Batch(plan.versions, plan.branch, plan.n)
  {
  }

  lemma {:induction false} ResultPlanIs(target: E.State, b: Name, t: Table)
    requires b in target.branches
    ensures var plan, n := ResultPlan(target, b, t), target.branches[b].headSeq + 1;
      && plan.branch == b && plan.n == n && plan.cols == ColsOf(target) && plan.after == t
      && plan.before == E.Resolve(target, b).value
      && plan.versions == E.ResultVersions(b, n, target.nextID + 1, plan.cols, plan.before, t)
  {
  }

  /** Writing a result over what the target reads stores exactly the rows that differ. */
  lemma {:induction false} ResultStores(target: E.State, b: Name, t: Table)
    requires b in target.branches && NothingAt(target.rows, b, target.branches[b].headSeq + 1)
    ensures var before, n := E.Resolve(target, b).value, target.branches[b].headSeq + 1;
      && Stores(E.ResultRows(target, b, t), b, n, before, t, ColsOf(target))
      && OnlyChanged(E.ResultRows(target, b, t), b, n, before, t)
  {
    var plan := ResultPlan(target, b, t);
    ResultPlanIs(target, b, t);
    ResultRowsPlanned(target, b, t);
    ResultPlanSound(target, b, t);
    PlanStores(target.rows, plan);
    SoundIsBatch(plan);
    ResultChanged(b, plan.n, target.nextID + 1, plan.cols, plan.before, t);
    PlannedOnly(target.rows, plan);
  }

  /** A clean merge stores, on the target, exactly the rows that differ from what it read. */
  lemma {:induction false} MergeStores(schema: seq<ColID>, e: E.State, from: Name, into: Name)
    requires Reachable(schema, e) && E.Merge(e, from, into).1.Ok? && E.Merge(e, from, into).1.value.clean
    ensures into in e.branches
    ensures var (e', o) := E.Merge(e, from, into);
      && Stores(e'.rows, into, e.branches[into].headSeq + 1, E.Resolve(e, into).value, o.value.result, ColumnSet(schema))
      && OnlyChanged(e'.rows, into, e.branches[into].headSeq + 1, E.Resolve(e, into).value, o.value.result)
  {
    MergeAnswers(schema, e, from, into);
    var base := E.Merge(e, from, into).1.value.base;
    MergeFinishes(e, from, into, base);
    NothingPast(schema, e, into);
    ResultStores(e, into, E.Merge(e, from, into).1.value.result);
    SchemaIs(schema, e);
  }

  lemma {:induction false} UpdateRows(e: E.State, b: Name)
    requires E.Closed(e) && b in e.branches && e.branches[b].parent != "" && E.Head(e, e.branches[b].parent) != E.ForkCommit(e, b)
    requires E.UpdateFromParent(e, b).1.Ok? && E.UpdateFromParent(e, b).1.value.commit != 0
    ensures var target := E.AdvanceFork(e, b);
      && b in target.branches && target.branches[b].headSeq == e.branches[b].headSeq && target.rows == e.rows && ColsOf(target) == ColsOf(e)
      && E.UpdateFromParent(e, b).0.rows == E.ResultRows(target, b, E.UpdateFromParent(e, b).1.value.result)
  {
    UpdateFinishes(e, b);
  }

  lemma {:induction false} UpdateApplied(schema: seq<ColID>, e: E.State, b: Name)
    requires Reachable(schema, e) && E.UpdateFromParent(e, b).1.Ok? && E.UpdateFromParent(e, b).1.value.commit != 0
    ensures b in e.branches && e.branches[b].parent != "" && e.branches[b].parent in e.branches
    ensures E.Head(e, e.branches[b].parent) != E.ForkCommit(e, b)
  {
    UpdateAnswers(schema, e, b);
  }

  /** A result written over what a target reads, the target's parts spelled out. */
  lemma {:induction false} AppliedStores(rows: seq<Version>, n: int, cols: set<ColID>, target: E.State, b: Name, t: Table, rows': seq<Version>)
    requires b in target.branches && target.branches[b].headSeq + 1 == n && target.rows == rows && ColsOf(target) == cols && NothingAt(rows, b, n)
    requires rows' == E.ResultRows(target, b, t)
    ensures Stores(rows', b, n, E.Resolve(target, b).value, t, cols) && OnlyChanged(rows', b, n, E.Resolve(target, b).value, t)
  {
    ResultStores(target, b, t);
  }

  /** A clean update stores exactly the rows that differ from what the branch reads over the
      tail it newly inherits. */
  lemma {:induction false} UpdateStores(schema: seq<ColID>, e: E.State, b: Name)
    requires Reachable(schema, e) && E.UpdateFromParent(e, b).1.Ok? && E.UpdateFromParent(e, b).1.value.commit != 0
    ensures b in e.branches && e.branches[b].parent in e.branches
    ensures var (e', o) := E.UpdateFromParent(e, b);
      var n, before := e.branches[b].headSeq + 1, E.Resolve(E.AdvanceFork(e, b), b).value;
      Stores(e'.rows, b, n, before, o.value.result, ColumnSet(schema)) && OnlyChanged(e'.rows, b, n, before, o.value.result)
  {
    SchemaIs(schema, e);
    UpdateApplied(schema, e, b);
    UpdateRows(e, b);
    NothingPast(schema, e, b);
    var (e', o) := E.UpdateFromParent(e, b);
    AppliedStores(e.rows, e.branches[b].headSeq + 1, ColumnSet(schema), E.AdvanceFork(e, b), b, o.value.result, e'.rows);
  }
}
