/** When merges conflict, and what they yield. */
module Conflicts {
  // All of it is said of the rows and cells of the three tables alone.

  import opened Wrappers
  import opened Core
  import opened Orders
  import opened ThreeWay

  // ----- the three ways a merge conflicts -----

  /** Both sides added the key, with different rows. */
  predicate AddedApart(base: Table, ours: Table, theirs: Table, pk: PK) {
    pk !in base && pk in ours && pk in theirs && ours[pk] != theirs[pk]
  }

  /** One side deleted the row and the other changed it. */
  predicate DeletedModified(base: Table, ours: Table, theirs: Table, pk: PK) {
    && pk in base
    && ((pk !in ours && pk in theirs && theirs[pk] != base[pk]) || (pk !in theirs && pk in ours && ours[pk] != base[pk]))
  }

  predicate Everywhere(base: Table, ours: Table, theirs: Table, pk: PK) {
    pk in base && pk in ours && pk in theirs
  }

  /** All three rows are there, and both sides changed the cell, to different values. */
  predicate CellApart(base: Table, ours: Table, theirs: Table, pk: PK, c: ColID) {
    && Everywhere(base, ours, theirs, pk)
    && Cell(ours, pk, c) != Cell(base, pk, c) && Cell(theirs, pk, c) != Cell(base, pk, c) && Cell(ours, pk, c) != Cell(theirs, pk, c)
  }

  /** The conflict is one of the three, and says what it should. */
  predicate Conflicting(base: Table, ours: Table, theirs: Table, x: Conflict) {
    match x.kind
    case AddAdd => AddedApart(base, ours, theirs, x.pk) && x == Conflict(x.pk, AddAdd, 0, Null, Null, Null)
    case DeleteModify => DeletedModified(base, ours, theirs, x.pk) && x == Conflict(x.pk, DeleteModify, 0, Null, Null, Null)
    case CellConflict =>
      && CellApart(base, ours, theirs, x.pk, x.col)
      && x.base == Cell(base, x.pk, x.col) && x.ours == Cell(ours, x.pk, x.col) && x.theirs == Cell(theirs, x.pk, x.col)
  }

  ghost predicate KeyConflicts(base: Table, ours: Table, theirs: Table, pk: PK) {
    || AddedApart(base, ours, theirs, pk)
    || DeletedModified(base, ours, theirs, pk)
    || exists c: ColID :: CellApart(base, ours, theirs, pk, c)
  }

  // ----- what a merge yields -----

  /** A key in conflict is left out. A new row is taken from the side that has it, a deleted
      one is gone, and a row all three have is merged cell by cell: ours where ours moved,
      otherwise theirs. */
  ghost predicate KeyMerged(base: Table, ours: Table, theirs: Table, cols: set<ColID>, result: Table, pk: PK) {
    if KeyConflicts(base, ours, theirs, pk) then pk !in result
    else if Everywhere(base, ours, theirs, pk) then
      && pk in result && result[pk].Keys == cols
      && forall c :: Cell(result, pk, c) == if Cell(ours, pk, c) == Cell(base, pk, c) then Cell(theirs, pk, c) else Cell(ours, pk, c)
    else if pk in base then pk !in result
    else Lookup(result, pk) == if pk in ours then Lookup(ours, pk) else Lookup(theirs, pk)
  }

  /** The result holds every key as merged, and the conflicts are exactly the conflicting
      ones, each once, by key, kind and column. */
  ghost predicate Merges(base: Table, ours: Table, theirs: Table, cols: set<ColID>, result: Table, conflicts: seq<Conflict>) {
    && (forall pk :: KeyMerged(base, ours, theirs, cols, result, pk))
    && (forall x :: x in conflicts <==> Conflicting(base, ours, theirs, x))
    && Ascending(ConflictLess, conflicts)
  }

  // ----- the decision for one key -----

  lemma {:induction false} CellColumn(base: Table, ours: Table, theirs: Table, cols: set<ColID>, pk: PK, c: ColID)
    requires Total(base, cols) && Total(ours, cols) && Total(theirs, cols) && CellApart(base, ours, theirs, pk, c)
    ensures c in cols
  {
  }

  /** The cell clashes of three rows are the cell conflicts of the key. */
  lemma {:induction false} CellClashIs(schema: seq<ColID>, base: Table, ours: Table, theirs: Table, x: Conflict)
    requires Total(base, ColumnSet(schema)) && Total(ours, ColumnSet(schema)) && Total(theirs, ColumnSet(schema))
    requires Everywhere(base, ours, theirs, x.pk)
    ensures x in CellClashes(x.pk, base[x.pk], ours[x.pk], theirs[x.pk], schema) <==>
      x.kind == CellConflict && Conflicting(base, ours, theirs, x)
  {
    CellClashMembers(x.pk, base[x.pk], ours[x.pk], theirs[x.pk], schema);
    if CellApart(base, ours, theirs, x.pk, x.col) {
      CellColumn(base, ours, theirs, ColumnSet(schema), x.pk, x.col);
    }
  }

  /** A cell conflict is a conflict of three different rows. */
  lemma {:induction false} ApartRows(base: Table, ours: Table, theirs: Table, pk: PK, c: ColID)
    requires CellApart(base, ours, theirs, pk, c)
    ensures ours[pk] != base[pk] && theirs[pk] != base[pk] && ours[pk] != theirs[pk]
  {
  }

  /** The case table, given the cell clashes, reports exactly the conflicts of the key. */
  lemma {:induction false} DecideReports(base: Table, ours: Table, theirs: Table, merged: Row, cells: seq<Conflict>, x: Conflict)
    requires Everywhere(base, ours, theirs, x.pk) ==> (x in cells <==> x.kind == CellConflict && Conflicting(base, ours, theirs, x))
    requires x.kind == CellConflict && Conflicting(base, ours, theirs, x) ==>
      ours[x.pk] != base[x.pk] && theirs[x.pk] != base[x.pk] && ours[x.pk] != theirs[x.pk]
    ensures var d := Decide(x.pk, Lookup(base, x.pk), Lookup(ours, x.pk), Lookup(theirs, x.pk), merged, cells);
      (d.Clash? && x in d.conflicts) <==> Conflicting(base, ours, theirs, x)
  {
  }

  /** The decision for a key reports exactly its conflicts, ... */
  lemma {:induction false} ClashIsConflict(schema: seq<ColID>, base: Table, ours: Table, theirs: Table, x: Conflict)
    requires Total(base, ColumnSet(schema)) && Total(ours, ColumnSet(schema)) && Total(theirs, ColumnSet(schema))
    ensures var d := DecideKey(schema, base, ours, theirs, Everything, x.pk);
      (d.Clash? && x in d.conflicts) <==> Conflicting(base, ours, theirs, x)
  {
    var br, ar, tr := RowOr(Lookup(base, x.pk)), RowOr(Lookup(ours, x.pk)), RowOr(Lookup(theirs, x.pk));
    if Everywhere(base, ours, theirs, x.pk) {
      CellClashIs(schema, base, ours, theirs, x);
    }
    if CellApart(base, ours, theirs, x.pk, x.col) {
      ApartRows(base, ours, theirs, x.pk, x.col);
    }
    DecideReports(base, ours, theirs, MergedRow(br, ar, tr, ColumnSet(schema), ColumnSet(schema)), CellClashes(x.pk, br, ar, tr, schema), x);
  }

  lemma {:induction false} ConflictClashes(schema: seq<ColID>, base: Table, ours: Table, theirs: Table, x: Conflict)
    requires Total(base, ColumnSet(schema)) && Total(ours, ColumnSet(schema)) && Total(theirs, ColumnSet(schema))
    requires Conflicting(base, ours, theirs, x)
    ensures DecideKey(schema, base, ours, theirs, Everything, x.pk).Clash?
  {
    ClashIsConflict(schema, base, ours, theirs, x);
  }

  /** Some conflict of the key. */
  lemma {:induction false} SomeConflict(base: Table, ours: Table, theirs: Table, pk: PK) returns (x: Conflict)
    requires KeyConflicts(base, ours, theirs, pk)
    ensures x.pk == pk && Conflicting(base, ours, theirs, x)
  {
    if AddedApart(base, ours, theirs, pk) {
      x := RowConflict(pk, AddAdd);
    } else if DeletedModified(base, ours, theirs, pk) {
      x := RowConflict(pk, DeleteModify);
    } else {
      var c: ColID :| CellApart(base, ours, theirs, pk, c);
      x := Conflict(pk, CellConflict, c, Cell(base, pk, c), Cell(ours, pk, c), Cell(theirs, pk, c));
    }
  }

  /** ... so it clashes exactly when there is one. */
  lemma {:induction false} ClashIff(schema: seq<ColID>, base: Table, ours: Table, theirs: Table, pk: PK)
    requires Total(base, ColumnSet(schema)) && Total(ours, ColumnSet(schema)) && Total(theirs, ColumnSet(schema)) && DistinctColumns(schema)
    ensures DecideKey(schema, base, ours, theirs, Everything, pk).Clash? <==> KeyConflicts(base, ours, theirs, pk)
  {
    var d := DecideKey(schema, base, ours, theirs, Everything, pk);
    if d.Clash? {
      DecideWellKeyed(schema, base, ours, theirs, Everything, pk);
      assert d.conflicts[0] in d.conflicts;
      ClashIsConflict(schema, base, ours, theirs, d.conflicts[0]);
    }
    if KeyConflicts(base, ours, theirs, pk) {
      var x := SomeConflict(base, ours, theirs, pk);
      ConflictClashes(schema, base, ours, theirs, x);
    }
  }

  /** A kept row all three tables have is merged cell by cell. */
  lemma {:induction false} KeptCell(schema: seq<ColID>, base: Table, ours: Table, theirs: Table, pk: PK, c: ColID)
    requires Total(base, ColumnSet(schema)) && Total(ours, ColumnSet(schema)) && Total(theirs, ColumnSet(schema))
    requires Everywhere(base, ours, theirs, pk) && DecideKey(schema, base, ours, theirs, Everything, pk).Keep?
    ensures Get(DecideKey(schema, base, ours, theirs, Everything, pk).row, c)
      == if Cell(ours, pk, c) == Cell(base, pk, c) then Cell(theirs, pk, c) else Cell(ours, pk, c)
  {
    CleanKey(schema, base, ours, theirs, pk, c);
  }

  lemma {:induction false} KeptRow(schema: seq<ColID>, base: Table, ours: Table, theirs: Table, pk: PK)
    requires DecideKey(schema, base, ours, theirs, Everything, pk).Keep?
    ensures var row := DecideKey(schema, base, ours, theirs, Everything, pk).row;
      if Everywhere(base, ours, theirs, pk) then row.Some?
      else if pk in base then row == None
      else row == if pk in ours then Lookup(ours, pk) else Lookup(theirs, pk)
  {
  }

  lemma {:induction false} MergedKey(schema: seq<ColID>, base: Table, ours: Table, theirs: Table, pk: PK)
    requires Total(base, ColumnSet(schema)) && Total(ours, ColumnSet(schema)) && Total(theirs, ColumnSet(schema)) && DistinctColumns(schema)
    ensures KeyMerged(base, ours, theirs, ColumnSet(schema), MergedTable(schema, base, ours, theirs, Everything), pk)
  {
    var ds := DecideAll(schema, base, ours, theirs, Everything);
    assert Lookup(TableOf(ds), pk) == RowOf(ds, pk);
    ClashIff(schema, base, ours, theirs, pk);
    if DecideKey(schema, base, ours, theirs, Everything, pk).Keep? {
      KeptRow(schema, base, ours, theirs, pk);
      KeptIsTotal(schema, base, ours, theirs, pk);
      if Everywhere(base, ours, theirs, pk) {
        forall c {
          KeptCell(schema, base, ours, theirs, pk, c);
        }
      }
    }
  }

  // ----- the whole merge -----

  lemma {:induction false} ConflictsListed(schema: seq<ColID>, base: Table, ours: Table, theirs: Table, x: Conflict)
    requires Total(base, ColumnSet(schema)) && Total(ours, ColumnSet(schema)) && Total(theirs, ColumnSet(schema)) && DistinctColumns(schema)
    ensures x in MergeConflicts(schema, base, ours, theirs, Everything) <==> Conflicting(base, ours, theirs, x)
  {
    var ds := DecideAll(schema, base, ours, theirs, Everything);
    DecideAllWellKeyed(schema, base, ours, theirs, Everything);
    ConflictMembers(ds);
    ClashIsConflict(schema, base, ours, theirs, x);
  }

  lemma {:induction false} ConflictsAscend(schema: seq<ColID>, base: Table, ours: Table, theirs: Table)
    requires DistinctColumns(schema)
    ensures Ascending(ConflictLess, MergeConflicts(schema, base, ours, theirs, Everything))
  {
    var ds := DecideAll(schema, base, ours, theirs, Everything);
    DecideAllWellKeyed(schema, base, ours, theirs, Everything);
    KeyOrder();
    ConflictOrder();
    AscendingDistinct(KeyLess, SortedKeys(ds.Keys));
    ClashNoTies(ds, SortedKeys(ds.Keys));
    SortAscending(ConflictLess, ClashesIn(ds, SortedKeys(ds.Keys)));
  }

  lemma {:induction false} SameMergedKey(base: Table, ours: Table, theirs: Table, cols: set<ColID>, r: Table, r': Table, pk: PK)
    requires KeyMerged(base, ours, theirs, cols, r, pk) && KeyMerged(base, ours, theirs, cols, r', pk)
    ensures Lookup(r, pk) == Lookup(r', pk)
  {
    if pk in r && pk in r' && r[pk].Keys == cols == r'[pk].Keys && Everywhere(base, ours, theirs, pk) {
      forall c | c in cols
        ensures r[pk][c] == r'[pk][c]
      {
        assert Cell(r, pk, c) == Cell(r', pk, c);
      }
      assert r[pk] == r'[pk];
    }
  }

  lemma {:induction false} MergeMerges(schema: seq<ColID>, base: Table, ours: Table, theirs: Table)
    requires Total(base, ColumnSet(schema)) && Total(ours, ColumnSet(schema)) && Total(theirs, ColumnSet(schema)) && DistinctColumns(schema)
    ensures Merges(base, ours, theirs, ColumnSet(schema),
      MergedTable(schema, base, ours, theirs, Everything), MergeConflicts(schema, base, ours, theirs, Everything))
  {
    forall pk
      ensures KeyMerged(base, ours, theirs, ColumnSet(schema), MergedTable(schema, base, ours, theirs, Everything), pk)
    {
      MergedKey(schema, base, ours, theirs, pk);
    }
    forall x
      ensures x in MergeConflicts(schema, base, ours, theirs, Everything) <==> Conflicting(base, ours, theirs, x)
    {
      ConflictsListed(schema, base, ours, theirs, x);
    }
    ConflictsAscend(schema, base, ours, theirs);
  }

  lemma {:induction false} MergesOnce(base: Table, ours: Table, theirs: Table, cols: set<ColID>, r: Table, cs: seq<Conflict>, r': Table, cs': seq<Conflict>)
    requires Merges(base, ours, theirs, cols, r, cs) && Merges(base, ours, theirs, cols, r', cs')
    ensures r == r' && cs == cs'
  {
    forall pk
      ensures Lookup(r, pk) == Lookup(r', pk)
    {
      SameMergedKey(base, ours, theirs, cols, r, r', pk);
    }
    SameLookups(r, r');
    ConflictOrder();
    ListUnique(ConflictLess, cs, cs', set x | x in cs);
  }

  /** The three-way merge of three total tables is the one result and the one list of
      conflicts that merge them. */
  lemma {:induction false} MergeIs(schema: seq<ColID>, base: Table, ours: Table, theirs: Table, result: Table, conflicts: seq<Conflict>)
    requires Total(base, ColumnSet(schema)) && Total(ours, ColumnSet(schema)) && Total(theirs, ColumnSet(schema)) && DistinctColumns(schema)
    ensures Merges(base, ours, theirs, ColumnSet(schema), result, conflicts) <==>
      result == MergedTable(schema, base, ours, theirs, Everything) && conflicts == MergeConflicts(schema, base, ours, theirs, Everything)
  {
    var r, cs := MergedTable(schema, base, ours, theirs, Everything), MergeConflicts(schema, base, ours, theirs, Everything);
    MergeMerges(schema, base, ours, theirs);
    if Merges(base, ours, theirs, ColumnSet(schema), result, conflicts) {
      MergesOnce(base, ours, theirs, ColumnSet(schema), result, conflicts, r, cs);
    }
  }

  /** A merge is clean exactly when no key is in conflict. */
  lemma {:induction false} CleanExactly(base: Table, ours: Table, theirs: Table, cols: set<ColID>, result: Table, conflicts: seq<Conflict>)
    requires Merges(base, ours, theirs, cols, result, conflicts)
    ensures conflicts == [] <==> forall pk :: !KeyConflicts(base, ours, theirs, pk)
  {
    if conflicts != [] {
      assert conflicts[0] in conflicts;
      assert KeyConflicts(base, ours, theirs, conflicts[0].pk);
    }
    forall pk | KeyConflicts(base, ours, theirs, pk)
      ensures conflicts != []
    {
      var x := SomeConflict(base, ours, theirs, pk);
      assert x in conflicts;
    }
  }
}
