/** The loops of a three-way merge, as both implementations write them. */
module MergeLoops {
  import opened Wrappers
  import opened Core
  import opened Orders
  import opened ThreeWay

  function ColumnOf(r: Row, c: ColID): Option<Value> {
    if c in r then Some(r[c]) else None
  }

  /** What a row merged so far holds in a column: what was already there, or the
      answer of a column visited since. */
  ghost function CellSoFar(start: Row, b: Row, a: Row, t: Row, visited: seq<ColID>, c: ColID): Option<Value> {
    if c in start then Some(start[c])
    else if c in visited then MergeCell(Get(Some(b), c), Get(Some(a), c), Get(Some(t), c))
    else None
  }

  ghost predicate Partial(merged: Row, start: Row, b: Row, a: Row, t: Row, visited: seq<ColID>) {
    forall c {:trigger CellSoFar(start, b, a, t, visited, c)} :: ColumnOf(merged, c) == CellSoFar(start, b, a, t, visited, c)
  }

  lemma {:induction false} PartialNext(merged: Row, merged': Row, start: Row, b: Row, a: Row, t: Row, visited: seq<ColID>, c: ColID)
    requires Partial(merged, start, b, a, t, visited) && c !in start
    requires var v := MergeCell(Get(Some(b), c), Get(Some(a), c), Get(Some(t), c));
      merged' == if v.Some? then merged[c := v.value] else merged
    ensures Partial(merged', start, b, a, t, visited + [c])
  {
    forall x
      ensures ColumnOf(merged', x) == CellSoFar(start, b, a, t, visited + [c], x)
    {
      assert ColumnOf(merged, x) == CellSoFar(start, b, a, t, visited, x);
    }
  }

  /** One column of the merge: the row takes its answer, the conflicts its clash. */
  lemma {:induction false} CellStep(pk: PK, b: Row, a: Row, t: Row, start: Row, order: seq<ColID>, i: nat, merged: Row, merged': Row, cc: seq<Conflict>, cc': seq<Conflict>)
    requires i < |order| && order[i] !in start
    requires Partial(merged, start, b, a, t, order[..i])
    requires cc + CellClashes(pk, b, a, t, order[i..]) == CellClashes(pk, b, a, t, order)
    requires var c := order[i];
      var bv, av, tv := Get(Some(b), c), Get(Some(a), c), Get(Some(t), c);
      var v := MergeCell(bv, av, tv);
      && merged' == (if v.Some? then merged[c := v.value] else merged)
      && cc' == (if v.Some? then cc else cc + [Conflict(pk, CellConflict, c, bv, av, tv)])
    ensures Partial(merged', start, b, a, t, order[..i + 1])
    ensures cc' + CellClashes(pk, b, a, t, order[i + 1..]) == CellClashes(pk, b, a, t, order)
  {
    assert order[i..][1..] == order[i + 1..];
    assert order[..i + 1] == order[..i] + [order[i]];
    PartialNext(merged, merged', start, b, a, t, order[..i], order[i]);
  }

  /** mergeCells: each column in turn; whichever side moved wins, otherwise a conflict. */
  method MergeCells(pk: PK, b: Row, a: Row, t: Row, start: Row, order: seq<ColID>) returns (merged: Row, cc: seq<Conflict>)
    requires forall c :: c in order ==> c !in start
    ensures cc == CellClashes(pk, b, a, t, order)
    ensures Partial(merged, start, b, a, t, order)
  {
    merged, cc := start, [];
    var i := 0;
    while i < |order|
      invariant 0 <= i <= |order|
      invariant cc + CellClashes(pk, b, a, t, order[i..]) == CellClashes(pk, b, a, t, order)
      invariant Partial(merged, start, b, a, t, order[..i])
    {
      ghost var was, said := merged, cc;
      var c := order[i];
      var bv, av, tv := Get(Some(b), c), Get(Some(a), c), Get(Some(t), c);
      if av == bv {
        merged := merged[c := tv];
      } else if tv == bv {
        merged := merged[c := av];
      } else if av == tv {
        merged := merged[c := av];
      } else {
        cc := cc + [Conflict(pk, CellConflict, c, bv, av, tv)];
      }
      CellStep(pk, b, a, t, start, order, i, was, merged, said, cc);
      i := i + 1;
    }
    assert order[..i] == order;
  }

  lemma {:induction false} SameColumns(r: Row, s: Row)
    requires forall c :: ColumnOf(r, c) == ColumnOf(s, c)
    ensures r == s
  {
    forall c
      ensures c in r <==> c in s
      ensures c in r ==> r[c] == s[c]
    {
      assert ColumnOf(r, c) == ColumnOf(s, c);
    }
  }

  /** A row merged without conflicts is the merged row. */
  lemma {:induction false} PartialIsMerged(merged: Row, start: Row, pk: PK, b: Row, a: Row, t: Row, cols: set<ColID>, touched: set<ColID>, order: seq<ColID>)
    requires forall c :: c in order <==> c in touched
    requires start == map c | c in cols && c !in touched :: Get(Some(b), c)
    requires Partial(merged, start, b, a, t, order) && CellClashes(pk, b, a, t, order) == []
    ensures merged == MergedRow(b, a, t, cols, touched)
  {
    CellClashMembers(pk, b, a, t, order);
    forall c | c in touched
      ensures MergeCell(Get(Some(b), c), Get(Some(a), c), Get(Some(t), c)).Some?
    {
      assert Conflict(pk, CellConflict, c, Get(Some(b), c), Get(Some(a), c), Get(Some(t), c)) !in CellClashes(pk, b, a, t, order);
    }
    var full := MergedRow(b, a, t, cols, touched);
    forall c
      ensures ColumnOf(merged, c) == ColumnOf(full, c)
    {
      assert ColumnOf(merged, c) == CellSoFar(start, b, a, t, order, c);
    }
    SameColumns(merged, full);
  }

  /** One key of a merge, column by column over the touched columns only. */
  method DecideNarrowed(schema: seq<ColID>, pk: PK, b: Option<Row>, a: Option<Row>, t: Option<Row>, touched: set<ColID>) returns (d: Decision)
    ensures var br, ar, tr := RowOr(b), RowOr(a), RowOr(t);
      d == Decide(pk, b, a, t, MergedRow(br, ar, tr, ColumnSet(schema), touched), CellClashes(pk, br, ar, tr, SortedCols(touched)))
  {
    if a == b && t == b {
      d := Keep(b);
    } else if a == b {
      d := Keep(t);
    } else if t == b {
      d := Keep(a);
    } else if a == t {
      d := Keep(a);
    } else if b.None? {
      d := Clash([RowConflict(pk, AddAdd)]);
    } else if a.None? || t.None? {
      d := Clash([RowConflict(pk, DeleteModify)]);
    } else {
      var candidates := SortCols(touched);
      var start: Row := map c | c in ColumnSet(schema) && c !in touched :: Get(b, c);
      var merged, cc := MergeCells(pk, b.value, a.value, t.value, start, candidates);
      if cc != [] {
        d := Clash(cc);
      } else {
        PartialIsMerged(merged, start, pk, b.value, a.value, t.value, ColumnSet(schema), touched, candidates);
        d := Keep(Some(merged));
      }
    }
  }

  /** One key of a merge, over every column of the schema. */
  method DecideFull(schema: seq<ColID>, pk: PK, b: Option<Row>, a: Option<Row>, t: Option<Row>) returns (d: Decision)
    ensures var br, ar, tr := RowOr(b), RowOr(a), RowOr(t);
      d == Decide(pk, b, a, t, MergedRow(br, ar, tr, ColumnSet(schema), ColumnSet(schema)), CellClashes(pk, br, ar, tr, schema))
  {
    if a == b && t == b {
      d := Keep(b);
    } else if a == b {
      d := Keep(t);
    } else if t == b {
      d := Keep(a);
    } else if a == t {
      d := Keep(a);
    } else if b.None? {
      d := Clash([RowConflict(pk, AddAdd)]);
    } else if a.None? || t.None? {
      d := Clash([RowConflict(pk, DeleteModify)]);
    } else {
      var merged, cc := MergeCells(pk, b.value, a.value, t.value, map[], schema);
      if cc != [] {
        d := Clash(cc);
      } else {
        PartialIsMerged(merged, map[], pk, b.value, a.value, t.value, ColumnSet(schema), ColumnSet(schema), schema);
        d := Keep(Some(merged));
      }
    }
  }

  // ----- the loop over the keys -----

  /** The table and conflicts a merge has gathered from the keys visited so far. */
  ghost predicate Gathered(ds: Decisions, visited: seq<PK>, t: Table, conflicts: seq<Conflict>) {
    && (forall pk :: Lookup(t, pk) == if pk in visited then RowOf(ds, pk) else None)
    && conflicts == ClashesIn(ds, visited)
  }

  method Gather(ghost ds: Decisions, ghost visited: seq<PK>, pk: PK, d: Decision, t: Table, conflicts: seq<Conflict>)
    returns (t': Table, conflicts': seq<Conflict>)
    requires Gathered(ds, visited, t, conflicts) && pk !in visited && pk in ds && ds[pk] == d
    ensures Gathered(ds, visited + [pk], t', conflicts')
  {
    t', conflicts' := t, conflicts;
    assert (visited + [pk])[..|visited|] == visited;
    match d {
      case Keep(Some(row)) => t' := t[pk := row];
      case Keep(None) =>
      case Clash(cs) => conflicts' := conflicts + cs;
    }
  }

  lemma {:induction false} AllGathered(ds: Decisions, keys: seq<PK>, t: Table, conflicts: seq<Conflict>)
    requires Gathered(ds, keys, t, conflicts) && keys == SortedKeys(ds.Keys)
    ensures t == TableOf(ds) && SortBy(ConflictLess, conflicts) == ConflictsOf(ds)
  {
    forall pk
      ensures Lookup(t, pk) == Lookup(TableOf(ds), pk)
    {
      assert Lookup(TableOf(ds), pk) == RowOf(ds, pk);
    }
    SameLookups(t, TableOf(ds));
  }
}
