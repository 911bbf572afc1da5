/** The reference model as the source writes it (internal/model/model.go). */
module SnapshotRepo {
  import opened Wrappers
  import opened Core
  import opened Orders
  import opened Dag
  import opened Operations
  import opened Lineage
  import opened ThreeWay
  import opened MergeLoops
  import opened Changes
  import M = SnapshotMachine

  /** One object holding a full table per commit: no intervals, no tombstones, no masks. */
  class Repo {
    const schema: seq<ColID>
    var commits: map<nat, M.CommitRecord>
    var branches: map<Name, M.BranchRecord>
    var sessions: map<nat, M.SessionRecord>
    var nextID: nat
    var nextSess: nat

    function State(): M.State
      reads this
    {
      M.State(schema, commits, branches, sessions, nextID, nextSess)
    }

    constructor (schema: seq<ColID>)
      ensures State() == M.Init(schema)
    {
      this.schema := schema;
      commits := map[1 := M.CommitRecord(1, [], ROOT, 0, map[])];
      branches := map[ROOT := M.BranchRecord(ROOT, 1, "", 0)];
      sessions := map[];
      nextID := 1;
      nextSess := 0;
    }

    /** apply: each change in turn, a delete removing its key outright. */
    method ApplyChanges(t: Table, cs: ChangeSet) returns (next: Table)
      ensures next == M.Apply(t, cs)
    {
      next := t;
      var keys := SortKeys(cs.Keys);
      var i := 0;
      while i < |keys|
        invariant 0 <= i <= |keys|
        invariant forall pk :: Lookup(next, pk) == if pk in keys[..i] then Lookup(M.Apply(t, cs), pk) else Lookup(t, pk)
      {
        var pk := keys[i];
        assert keys[..i + 1] == keys[..i] + [pk];
        if cs[pk].op == Delete {
          next := next - {pk};
        } else {
          next := next[pk := cs[pk].row];
        }
        i := i + 1;
      }
      forall pk
        ensures Lookup(next, pk) == Lookup(M.Apply(t, cs), pk)
      {
        assert keys[..i] == keys;
      }
      SameLookups(next, M.Apply(t, cs));
    }

    /** A new commit becomes the branch's head. */
    method Record(b: Name, fork: nat, parents: seq<nat>, t: Table) returns (id: nat)
      requires M.Closed(State()) && b in branches
      modifies this`nextID, this`commits, this`branches
      ensures State() == M.RecordFork(old(State()), b, fork, parents, t) && id == old(nextID) + 1
    {
      id := nextID + 1;
      var head := branches[b].head;
      nextID := id;
      commits := commits[id := M.CommitRecord(id, parents, b, commits[head].at + 1, t)];
      branches := branches[b := branches[b].(head := id)];
      branches := branches[b := branches[b].(forkCommit := fork)];
    }

    method Commit(b: Name, cs: ChangeSet) returns (r: Result<nat>)
      requires M.Closed(State())
      modifies this
      ensures (State(), r) == M.Commit(old(State()), b, cs)
    {
      if b !in branches {
        return Err(NoBranch);
      }
      var head := branches[b].head;
      var next := ApplyChanges(commits[head].state, cs);
      M.SameFork(State(), b, [head], next);
      var id := Record(b, branches[b].forkCommit, [head], next);
      return Ok(id);
    }

    method CreateBranch(name: Name, from: Name) returns (r: Result<()>)
      modifies this`branches
      ensures (State(), r) == M.CreateBranch(old(State()), name, from)
    {
      if name in branches {
        return Err(BranchExists);
      }
      if from !in branches {
        return Err(NoParentBranch);
      }
      var head := branches[from].head;
      branches := branches[name := M.BranchRecord(name, head, from, head)];
      return Ok(());
    }

    /** MergeBase: full ancestor sets, intersected. */
    method MergeBase(a: nat, b: nat) returns (bases: set<nat>)
      ensures bases == MergeBases(M.Graph(State()), a, b)
    {
      var g := M.Graph(State());
      var aa := CollectAncestors(g, a);
      var ba := CollectAncestors(g, b);
      bases := {};
      var common := aa * ba;
      var rest := common;
      while rest != {}
        invariant rest <= common
        invariant bases == set c | c in common - rest && !Dominated(g, common, c)
        decreases rest
      {
        var c :| c in rest;
        var dominated := IsDominated(g, common, c);
        if !dominated {
          bases := bases + {c};
        }
        rest := rest - {c};
      }
      assert common - rest == common;
    }

    method IsDominated(g: Graph, common: set<nat>, c: nat) returns (dominated: bool)
      ensures dominated <==> Dominated(g, common, c)
    {
      dominated := false;
      var others := common;
      while others != {} && !dominated
        invariant others <= common
        invariant dominated ==> Dominated(g, common, c)
        invariant !dominated ==> forall o :: o in common - others && o != c ==> !Reaches(g, o, c)
        decreases others, !dominated
      {
        var o :| o in others;
        if o != c {
          var above := CollectAncestors(g, o);
          dominated := c in above;
        }
        others := others - {o};
      }
    }

    /** Each key in order: what it keeps joins the table, its conflicts the list. */
    method DecideNext(base: Table, ours: Table, theirs: Table, pk: PK, ghost ds: Decisions, ghost visited: seq<PK>,
        t: Table, conflicts: seq<Conflict>) returns (t': Table, conflicts': seq<Conflict>)
      requires Gathered(ds, visited, t, conflicts) && pk !in visited
      requires pk in ds && ds[pk] == DecideKey(schema, base, ours, theirs, Everything, pk)
      ensures Gathered(ds, visited + [pk], t', conflicts')
    {
      var d := DecideFull(schema, pk, Lookup(base, pk), Lookup(ours, pk), Lookup(theirs, pk));
      t', conflicts' := Gather(ds, visited, pk, d, t, conflicts);
    }

    method DecideKeys(base: Table, ours: Table, theirs: Table, keys: seq<PK>, ghost ds: Decisions) returns (t: Table, conflicts: seq<Conflict>)
      requires forall i, j :: 0 <= i < j < |keys| ==> keys[i] != keys[j]
      requires forall pk :: pk in keys ==> pk in ds && ds[pk] == DecideKey(schema, base, ours, theirs, Everything, pk)
      ensures Gathered(ds, keys, t, conflicts)
    {
      t, conflicts := map[], [];
      var i := 0;
      while i < |keys|
        invariant 0 <= i <= |keys|
        invariant Gathered(ds, keys[..i], t, conflicts)
      {
        var pk := keys[i];
        assert pk in keys && keys[..i + 1] == keys[..i] + [pk];
        t, conflicts := DecideNext(base, ours, theirs, pk, ds, keys[..i], t, conflicts);
        i := i + 1;
      }
      assert keys[..i] == keys;
    }

    /** mergeTables: by value only, over the whole schema. */
    method MergeTables(base: Table, ours: Table, theirs: Table) returns (t: Table, conflicts: seq<Conflict>)
      ensures t == MergedTable(schema, base, ours, theirs, Everything)
      ensures conflicts == MergeConflicts(schema, base, ours, theirs, Everything)
    {
      var keys := SortKeys(MergeKeys(base, ours, theirs));
      KeyOrder();
      AscendingDistinct(KeyLess, keys);
      ghost var ds := DecideAll(schema, base, ours, theirs, Everything);
      FullDecisions(schema, base, ours, theirs);
      t, conflicts := DecideKeys(base, ours, theirs, keys, ds);
      AllGathered(ds, keys, t, conflicts);
      conflicts := SortBy(ConflictLess, conflicts);
    }

    /** A clean merge is recorded, a conflicted one reported. */
    method Finish(b: Name, base: nat, fork: nat, t: Table, conflicts: seq<Conflict>, parents: seq<nat>) returns (r: Result<MergeResult>)
      requires M.Closed(State()) && b in branches
      modifies this
      ensures (State(), r) == M.Finish(old(State()), b, base, fork, (t, conflicts), parents)
    {
      if conflicts != [] {
        return Ok(MergeResult(base, t, conflicts, false, 0));
      }
      var id := Record(b, fork, parents, t);
      return Ok(MergeResult(base, t, conflicts, true, id));
    }

    method Merge(from: Name, into: Name) returns (r: Result<MergeResult>)
      requires M.Closed(State())
      modifies this
      ensures (State(), r) == M.Merge(old(State()), from, into)
    {
      if from !in branches || into !in branches {
        return Err(NoBranch);
      }
      var ours, theirs := branches[into].head, branches[from].head;
      var bases := MergeBase(ours, theirs);
      if |bases| != 1 {
        return Err(AmbiguousBase(|bases|));
      }
      assert bases == {Only(bases)};
      var base :| base in bases;
      M.BaseKnown(State(), ours, theirs, base);
      var t, conflicts := MergeTables(commits[base].state, commits[ours].state, commits[theirs].state);
      r := Finish(into, base, branches[into].forkCommit, t, conflicts, [ours, theirs]);
    }

    method UpdateFromParent(b: Name) returns (r: Result<MergeResult>)
      requires M.Closed(State())
      modifies this
      ensures (State(), r) == M.UpdateFromParent(old(State()), b)
    {
      if b !in branches {
        return Err(NoBranch);
      }
      if branches[b].parent == "" {
        return Err(BranchHasNoParent);
      }
      var ours, theirs, base := branches[b].head, branches[branches[b].parent].head, branches[b].forkCommit;
      if theirs == base {
        return Ok(MergeResult(base, commits[ours].state, [], true, 0));
      }
      var t, conflicts := MergeTables(commits[base].state, commits[ours].state, commits[theirs].state);
      r := Finish(b, base, theirs, t, conflicts, [ours, theirs]);
    }

    // ----- sessions -----

    method OpenSession(b: Name) returns (r: Result<nat>)
      requires M.Closed(State())
      modifies this`nextSess, this`sessions
      ensures (State(), r) == M.OpenSession(old(State()), b)
    {
      if b !in branches {
        return Err(NoBranch);
      }
      if b == ROOT {
        return Err(SessionsNotPermitted);
      }
      nextSess := nextSess + 1;
      var head := branches[b].head;
      sessions := sessions[nextSess := M.SessionRecord(nextSess, b, head, commits[head].state, true)];
      return Ok(nextSess);
    }

    method SessionWrite(sid: nat, cs: ChangeSet) returns (r: Result<()>)
      modifies this`sessions
      ensures (State(), r) == M.SessionWrite(old(State()), sid, cs)
    {
      if !(sid in sessions && sessions[sid].open) {
        return Err(NoOpenSession);
      }
      var next := ApplyChanges(sessions[sid].overlay, cs);
      sessions := sessions[sid := sessions[sid].(overlay := next)];
      return Ok(());
    }

    method CommitSession(sid: nat) returns (r: Result<nat>)
      requires M.Closed(State())
      modifies this
      ensures (State(), r) == M.CommitSession(old(State()), sid)
    {
      if !(sid in sessions && sessions[sid].open) {
        return Err(NoOpenSession);
      }
      var s := sessions[sid];
      var head := branches[s.branch].head;
      if head != s.base {
        return Err(BranchMoved);
      }
      M.SameFork(State(), s.branch, [head], s.overlay);
      var id := Record(s.branch, branches[s.branch].forkCommit, [head], s.overlay);
      sessions := sessions[sid := s.(open := false)];
      return Ok(id);
    }

    method AbandonSession(sid: nat)
      modifies this`sessions
      ensures State() == M.AbandonSession(old(State()), sid)
    {
      if sid in sessions {
        sessions := sessions[sid := sessions[sid].(open := false)];
      }
    }

    // ----- reads -----

    /** Diff: the two snapshots compared, first the old keys and then the new ones. */
    method Diff(fromCommit: nat, toCommit: nat) returns (d: Diff)
      ensures d == FullDiff(M.ResolveAt(State(), fromCommit), M.ResolveAt(State(), toCommit), ColumnSet(schema))
    {
      var from, to := M.ResolveAt(State(), fromCommit), M.ResolveAt(State(), toCommit);
      d := map[];
      var rest := from.Keys;
      while rest != {}
        invariant rest <= from.Keys
        invariant d == DiffAt(from, to, ColumnSet(schema), from.Keys - rest)
        decreases rest
      {
        var pk :| pk in rest;
        DiffAtNext(from, to, ColumnSet(schema), from.Keys - rest, pk);
        assert from.Keys - (rest - {pk}) == (from.Keys - rest) + {pk};
        if pk !in to {
          d := d[pk := RowChange(Delete, None, {})];
        } else if from[pk] != to[pk] {
          d := d[pk := RowChange(Update, Some(to[pk]), MaskOf(Some(from[pk]), Some(to[pk]), ColumnSet(schema)))];
        }
        rest := rest - {pk};
      }
      rest := to.Keys;
      assert from.Keys - {} == from.Keys + (to.Keys - rest);
      while rest != {}
        invariant rest <= to.Keys
        invariant d == DiffAt(from, to, ColumnSet(schema), from.Keys + (to.Keys - rest))
        decreases rest
      {
        var pk :| pk in rest;
        DiffAtNext(from, to, ColumnSet(schema), from.Keys + (to.Keys - rest), pk);
        assert from.Keys + (to.Keys - (rest - {pk})) == (from.Keys + (to.Keys - rest)) + {pk};
        if pk !in from {
          d := d[pk := RowChange(Insert, Some(to[pk]), MaskOf(None, Some(to[pk]), ColumnSet(schema)))];
        } else {
          SameDiff(from, to, ColumnSet(schema), from.Keys + (to.Keys - rest), pk);
        }
        rest := rest - {pk};
      }
      assert from.Keys + (to.Keys - rest) == from.Keys + to.Keys;
    }

    method Resolve(b: Name) returns (t: Option<Table>)
      requires M.Closed(State())
      ensures t == M.Resolve(State(), b)
    {
      if b !in branches {
        return None;
      }
      return Some(commits[branches[b].head].state);
    }

    /** ResolveFiltered: resolve everything, then apply the predicate. */
    method ResolveFiltered(b: Name, pred: Row -> bool) returns (t: Table)
      requires M.Closed(State())
      ensures t == Filtered(OrEmpty(M.Resolve(State(), b)), pred)
    {
      var resolved := Resolve(b);
      var all := OrEmpty(resolved);
      t := map[];
      var rest := all.Keys;
      while rest != {}
        invariant rest <= all.Keys
        invariant t == map pk | pk in all && pk !in rest && pred(all[pk]) :: all[pk]
        decreases rest
      {
        var pk :| pk in rest;
        if pred(all[pk]) {
          t := t[pk := all[pk]];
        }
        rest := rest - {pk};
      }
    }

    /** PlanUpdateWhere: filter the full resolution, then assign. */
    method PlanUpdateWhere(b: Name, pred: Row -> bool, assign: Row -> Row) returns (cs: ChangeSet)
      requires M.Closed(State())
      ensures cs == UpdateWhere(OrEmpty(M.Resolve(State(), b)), pred, assign)
    {
      var matched := ResolveFiltered(b, pred);
      cs := map[];
      var rest := matched.Keys;
      while rest != {}
        invariant rest <= matched.Keys
        invariant cs == map pk | pk in matched && pk !in rest && assign(matched[pk]) != matched[pk] :: Change(Update, assign(matched[pk]))
        decreases rest
      {
        var pk :| pk in rest;
        var next := assign(matched[pk]);
        if next != matched[pk] {
          cs := cs[pk := Change(Update, next)];
        }
        rest := rest - {pk};
      }
    }
  }

  lemma {:induction false} SameDiff(from: Table, to: Table, cols: set<ColID>, keys: set<PK>, pk: PK)
    requires pk in keys
    ensures DiffAt(from, to, cols, keys + {pk}) == DiffAt(from, to, cols, keys)
  {
    assert keys + {pk} == keys;
  }

  lemma {:induction false} FullDecisions(schema: seq<ColID>, base: Table, ours: Table, theirs: Table)
    ensures var ds := DecideAll(schema, base, ours, theirs, Everything);
      && ds.Keys == MergeKeys(base, ours, theirs)
      && forall pk :: pk in ds ==> ds[pk] == DecideKey(schema, base, ours, theirs, Everything, pk)
  {
  }
}
