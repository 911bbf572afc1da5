/** Filtered reads and planned updates. */
module Filters {
  // What they mean, row by row.

  import opened Wrappers
  import opened Core
  import opened Versions
  import opened Changes
  import opened Query
  import opened Guarantees
  import opened Revert
  import E = IntervalMachine
  import M = SnapshotMachine

  /** The matching rows of a table, as they are, and no others. */
  ghost predicate Selects(t: Table, pred: Row -> bool, r: Table) {
    && (forall pk :: pk in r <==> pk in t && pred(t[pk]))
    && (forall pk :: pk in r && pk in t ==> r[pk] == t[pk])
  }

  /** A filtered table is the one table that selects the matching rows. */
  lemma {:induction false} FilteredIs(t: Table, pred: Row -> bool, r: Table)
    ensures r == Filtered(t, pred) <==> Selects(t, pred, r)
  {
    if Selects(t, pred, r) {
      forall pk
        ensures Lookup(r, pk) == Lookup(Filtered(t, pred), pk)
      {
      }
      SameLookups(r, Filtered(t, pred));
    }
  }

  /** A planned update assigns to exactly the matching rows, and lists exactly the keys it
      changes. */
  lemma {:induction false} PlanIs(t: Table, pred: Row -> bool, assign: Row -> Row, pk: PK)
    ensures Lookup(M.Apply(t, UpdateWhere(t, pred, assign)), pk) ==
      if pk in t && pred(t[pk]) then Some(assign(t[pk])) else Lookup(t, pk)
    ensures pk in UpdateWhere(t, pred, assign) <==> Lookup(M.Apply(t, UpdateWhere(t, pred, assign)), pk) != Lookup(t, pk)
  {
  }

  /** Committed on the branch it was planned for, it turns exactly the matching rows into
      their assigned ones. */
  lemma {:induction false} PlanCommits(schema: seq<ColID>, e: E.State, b: Name, pred: Row -> bool, assign: Row -> Row, pk: PK)
    requires Reachable(schema, e) && b in e.branches
    ensures var t := E.Resolve(e, b).value;
      var e' := E.Commit(e, b, UpdateWhere(t, pred, assign)).0;
      && E.Resolve(e', b).Some?
      && Lookup(E.Resolve(e', b).value, pk) == if pk in t && pred(t[pk]) then Some(assign(t[pk])) else Lookup(t, pk)
  {
    var h, m := Paired(schema, e);
    var t := E.Resolve(e, b).value;
    CommitReads(e, h, m, b, UpdateWhere(t, pred, assign));
    PlanIs(t, pred, assign, pk);
  }

  /** The database's filtered query over a branch's head chain and the engine's two-pass read
      answer alike: the rows the branch reads that match. */
  lemma {:induction false} FilterQuery(schema: seq<ColID>, e: E.State, b: Name, pred: Row -> bool, t: Table)
    requires Reachable(schema, e) && b in e.branches
    ensures Answer(e.rows, Spec(E.HeadChain(e, b), 0, _ => true, Some(pred)), t) <==> Selects(E.Resolve(e, b).value, pred, t)
  {
    var spec := Spec(E.HeadChain(e, b), 0, _ => true, Some(pred));
    QueriesDenote(schema, e, spec, t);
    var f := Filtered(E.Resolve(e, b).value, pred);
    forall pk
      ensures Wanted(spec, pk, Resolution(e.rows, spec, pk)) == Lookup(f, pk)
    {
      ViewAt(e.rows, E.HeadChain(e, b), pk);
    }
    FilteredIs(E.Resolve(e, b).value, pred, t);
    if Answer(e.rows, spec, t) {
      forall pk
        ensures Lookup(t, pk) == Lookup(f, pk)
      {
        assert Lookup(t, pk) == Wanted(spec, pk, Resolution(e.rows, spec, pk));
      }
      SameLookups(t, f);
    }
  }
}
