/** The three-way merge, in full and narrowed by masks. */
module ThreeWay {
  import opened Wrappers
  import opened Core
  import opened Orders

  /** Which cells of a row that both sides changed are compared: every column of
      the schema, or only those in the union of the two sides' masks. */
  datatype Scope = Everything | Narrowed(mask: map<PK, set<ColID>>)

  function ColumnSet(schema: seq<ColID>): set<ColID> {
    set c | c in schema
  }

  predicate DistinctColumns(schema: seq<ColID>) {
    forall i, j :: 0 <= i < j < |schema| ==> schema[i] != schema[j]
  }

  // ----- one cell -----

  /** One cell: whichever side moved wins, an identical move wins, and two
      different moves have no answer. */
  function MergeCell(b: Value, a: Value, t: Value): Option<Value> {
    if a == b then Some(t)
    else if t == b then Some(a)
    else if a == t then Some(a)
    else None
  }

  function MergedRow(b: Row, a: Row, t: Row, cols: set<ColID>, touched: set<ColID>): Row {
    map c | c in cols + touched ::
      if c !in touched then Get(Some(b), c)
      else match MergeCell(Get(Some(b), c), Get(Some(a), c), Get(Some(t), c))
           case Some(v) => v
           case None => Null
  }

  /** The cell conflicts of one row, in the order the columns are visited. */
  function CellClashes(pk: PK, b: Row, a: Row, t: Row, order: seq<ColID>): seq<Conflict> {
    if order == [] then []
    else
      var c := order[0];
      var bv, av, tv := Get(Some(b), c), Get(Some(a), c), Get(Some(t), c);
      var rest := CellClashes(pk, b, a, t, order[1..]);
      if MergeCell(bv, av, tv).None? then [Conflict(pk, CellConflict, c, bv, av, tv)] + rest else rest
  }

  // ----- one key -----

  datatype Decision = Keep(row: Option<Row>) | Clash(conflicts: seq<Conflict>)

  /** The case table, given what a cell-by-cell merge of the three rows yields. */
  function Decide(pk: PK, b: Option<Row>, a: Option<Row>, t: Option<Row>, merged: Row, cells: seq<Conflict>): Decision {
    if a == b && t == b then Keep(b)
    else if a == b then Keep(t)
    else if t == b then Keep(a)
    else if a == t then Keep(a)
    else if b.None? then Clash([RowConflict(pk, AddAdd)])
    else if a.None? || t.None? then Clash([RowConflict(pk, DeleteModify)])
    else if cells != [] then Clash(cells)
    else Keep(Some(merged))
  }

  function RowOr(r: Option<Row>): Row {
    if r.Some? then r.value else map[]
  }

  function MaskAt(mask: map<PK, set<ColID>>, pk: PK): set<ColID> {
    if pk in mask then mask[pk] else {}
  }

  ghost function DecideKey(schema: seq<ColID>, base: Table, ours: Table, theirs: Table, scope: Scope, pk: PK): Decision {
    var b, a, t := Lookup(base, pk), Lookup(ours, pk), Lookup(theirs, pk);
    var br, ar, tr := RowOr(b), RowOr(a), RowOr(t);
    match scope
    case Everything =>
      Decide(pk, b, a, t, MergedRow(br, ar, tr, ColumnSet(schema), ColumnSet(schema)), CellClashes(pk, br, ar, tr, schema))
    case Narrowed(mask) =>
      Decide(pk, b, a, t, MergedRow(br, ar, tr, ColumnSet(schema), MaskAt(mask, pk)),
        CellClashes(pk, br, ar, tr, SortedCols(MaskAt(mask, pk))))
  }

  // ----- whole tables -----

  function MergeKeys(base: Table, ours: Table, theirs: Table): set<PK> {
    base.Keys + ours.Keys + theirs.Keys
  }

  type Decisions = map<PK, Decision>

  ghost function DecideAll(schema: seq<ColID>, base: Table, ours: Table, theirs: Table, scope: Scope): Decisions {
    map pk | pk in MergeKeys(base, ours, theirs) :: DecideKey(schema, base, ours, theirs, scope, pk)
  }

  /** The row a set of decisions leaves for a key. */
  function RowOf(ds: Decisions, pk: PK): Option<Row> {
    if pk in ds && ds[pk].Keep? then ds[pk].row else None
  }

  ghost function TableOf(ds: Decisions): (t: Table)
    ensures forall pk :: Lookup(t, pk) == RowOf(ds, pk)
  {
    map pk | pk in ds && RowOf(ds, pk).Some? :: RowOf(ds, pk).value
  }

  function ClashesAt(ds: Decisions, pk: PK): seq<Conflict> {
    if pk in ds && ds[pk].Clash? then ds[pk].conflicts else []
  }

  function ClashesIn(ds: Decisions, keys: seq<PK>): seq<Conflict>
    decreases |keys|
  {
    if keys == [] then []
    else ClashesIn(ds, keys[..|keys| - 1]) + ClashesAt(ds, keys[|keys| - 1])
  }

  ghost function ConflictsOf(ds: Decisions): seq<Conflict> {
    SortBy(ConflictLess, ClashesIn(ds, SortedKeys(ds.Keys)))
  }

  ghost function MergedTable(schema: seq<ColID>, base: Table, ours: Table, theirs: Table, scope: Scope): Table {
    TableOf(DecideAll(schema, base, ours, theirs, scope))
  }

  ghost function MergeConflicts(schema: seq<ColID>, base: Table, ours: Table, theirs: Table, scope: Scope): seq<Conflict> {
    ConflictsOf(DecideAll(schema, base, ours, theirs, scope))
  }

  // ----- conflict lists -----

  lemma {:induction false} CellClashMembers(pk: PK, b: Row, a: Row, t: Row, order: seq<ColID>)
    ensures forall x :: x in CellClashes(pk, b, a, t, order) <==>
      && x.col in order
      && x == Conflict(pk, CellConflict, x.col, Get(Some(b), x.col), Get(Some(a), x.col), Get(Some(t), x.col))
      && MergeCell(x.base, x.ours, x.theirs).None?
  {
    if order != [] {
      CellClashMembers(pk, b, a, t, order[1..]);
      assert order == [order[0]] + order[1..];
    }
  }

  lemma {:induction false} CellClashNoTies(pk: PK, b: Row, a: Row, t: Row, order: seq<ColID>)
    requires DistinctColumns(order)
    ensures NoTies(ConflictLess, CellClashes(pk, b, a, t, order))
  {
    if order != [] {
      CellClashNoTies(pk, b, a, t, order[1..]);
      CellClashMembers(pk, b, a, t, order[1..]);
      var rest := CellClashes(pk, b, a, t, order[1..]);
      forall i | 0 <= i < |rest|
        ensures rest[i].col != order[0] && rest[i].pk == pk && rest[i].kind == CellConflict
      {
        assert rest[i] in rest;
        var j :| 0 <= j < |order[1..]| && order[1..][j] == rest[i].col;
        assert order[j + 1] == rest[i].col;
      }
    }
  }

  lemma {:induction false} NoTiesAppend(xs: seq<Conflict>, ys: seq<Conflict>)
    requires NoTies(ConflictLess, xs) && NoTies(ConflictLess, ys)
    requires forall x, y :: x in xs && y in ys ==> x.pk != y.pk
    ensures NoTies(ConflictLess, xs + ys)
  {
    KeyOrder();
    var zs := xs + ys;
    forall i, j | 0 <= i < j < |zs|
      ensures zs[i] != zs[j] && Comparable(ConflictLess, zs[i], zs[j])
    {
      if i < |xs| && j >= |xs| {
        assert xs[i] in xs && ys[j - |xs|] in ys;
        assert Comparable(KeyLess, zs[i].pk, zs[j].pk);
      }
    }
  }

  /** Each key's conflicts name the key, are never an empty list, and do not tie. */
  ghost predicate WellKeyedAt(d: Decision, pk: PK) {
    d.Clash? ==>
      && d.conflicts != []
      && NoTies(ConflictLess, d.conflicts)
      && forall x :: x in d.conflicts ==> x.pk == pk
  }

  ghost predicate WellKeyed(ds: Decisions) {
    forall pk :: pk in ds ==> WellKeyedAt(ds[pk], pk)
  }

  lemma {:induction false} DecideWellKeyed(schema: seq<ColID>, base: Table, ours: Table, theirs: Table, scope: Scope, pk: PK)
    requires DistinctColumns(schema)
    ensures WellKeyedAt(DecideKey(schema, base, ours, theirs, scope, pk), pk)
  {
    var br, ar, tr := RowOr(Lookup(base, pk)), RowOr(Lookup(ours, pk)), RowOr(Lookup(theirs, pk));
    var order := if scope.Everything? then schema else SortedCols(MaskAt(scope.mask, pk));
    if scope.Narrowed? {
      AscendingDistinct(ColLess, order);
    }
    CellClashNoTies(pk, br, ar, tr, order);
    CellClashMembers(pk, br, ar, tr, order);
  }

  lemma {:induction false} DecideAllWellKeyed(schema: seq<ColID>, base: Table, ours: Table, theirs: Table, scope: Scope)
    requires DistinctColumns(schema)
    ensures WellKeyed(DecideAll(schema, base, ours, theirs, scope))
  {
    forall pk {
      DecideWellKeyed(schema, base, ours, theirs, scope, pk);
    }
  }

  lemma {:induction false} ClashMembers(ds: Decisions, keys: seq<PK>)
    requires WellKeyed(ds)
    ensures forall x :: x in ClashesIn(ds, keys) <==> x.pk in keys && x in ClashesAt(ds, x.pk)
    decreases |keys|
  {
    if keys != [] {
      var n := |keys| - 1;
      ClashMembers(ds, keys[..n]);
      assert keys == keys[..n] + [keys[n]];
    }
  }

  lemma {:induction false} ClashNoTies(ds: Decisions, keys: seq<PK>)
    requires WellKeyed(ds)
    requires forall i, j :: 0 <= i < j < |keys| ==> keys[i] != keys[j]
    ensures NoTies(ConflictLess, ClashesIn(ds, keys))
    decreases |keys|
  {
    if keys != [] {
      var n := |keys| - 1;
      ClashNoTies(ds, keys[..n]);
      ClashMembers(ds, keys[..n]);
      NoTiesAppend(ClashesIn(ds, keys[..n]), ClashesAt(ds, keys[n]));
    }
  }

  /** A merge reports exactly the conflicts of its keys. */
  lemma {:induction false} ConflictMembers(ds: Decisions)
    requires WellKeyed(ds)
    ensures forall x :: x in ConflictsOf(ds) <==> x in ClashesAt(ds, x.pk)
  {
    var keys := SortedKeys(ds.Keys);
    ClashMembers(ds, keys);
    SortMembers(ConflictLess, ClashesIn(ds, keys));
  }

  /** A merge is clean exactly when every key has a decision. */
  lemma {:induction false} CleanIff(ds: Decisions)
    requires WellKeyed(ds)
    ensures ConflictsOf(ds) == [] <==> forall pk :: pk in ds ==> ds[pk].Keep?
  {
    ConflictMembers(ds);
    var found := ConflictsOf(ds);
    forall pk | pk in ds && ds[pk].Clash?
      ensures found != []
    {
      assert WellKeyedAt(ds[pk], pk);
      assert ds[pk].conflicts[0] in ClashesAt(ds, pk);
    }
    assert found != [] ==> found[0] in found;
  }

  // ----- the narrowed merge is the full merge -----

  /** The mask is sound for a merge: it stays inside the schema, and a cell outside
      it holds the base value on both sides. */
  ghost predicate SoundMask(schema: seq<ColID>, base: Table, ours: Table, theirs: Table, mask: map<PK, set<ColID>>) {
    forall pk, c ::
      && (c in MaskAt(mask, pk) ==> c in schema)
      && (c !in MaskAt(mask, pk) ==> Cell(ours, pk, c) == Cell(base, pk, c) && Cell(theirs, pk, c) == Cell(base, pk, c))
  }

  /** Two decisions that keep the same row or report the same set of conflicts. */
  ghost predicate SameDecision(d: Decision, e: Decision) {
    match (d, e)
    case (Keep(x), Keep(y)) => x == y
    case (Clash(xs), Clash(ys)) => forall x :: x in xs <==> x in ys
    case _ => false
  }

  lemma {:induction false} NarrowedKey(schema: seq<ColID>, base: Table, ours: Table, theirs: Table, mask: map<PK, set<ColID>>, pk: PK)
    requires SoundMask(schema, base, ours, theirs, mask)
    ensures SameDecision(DecideKey(schema, base, ours, theirs, Narrowed(mask), pk), DecideKey(schema, base, ours, theirs, Everything, pk))
  {
    var b, a, t := Lookup(base, pk), Lookup(ours, pk), Lookup(theirs, pk);
    var br, ar, tr := RowOr(b), RowOr(a), RowOr(t);
    var cols, touched := ColumnSet(schema), MaskAt(mask, pk);
    if b.Some? && a.Some? && t.Some? {
      forall c
        ensures c in touched ==> c in schema
        ensures c !in touched ==> Get(Some(ar), c) == Get(Some(br), c) && Get(Some(tr), c) == Get(Some(br), c)
      {
        assert c !in touched ==> Cell(ours, pk, c) == Cell(base, pk, c) && Cell(theirs, pk, c) == Cell(base, pk, c);
      }
      CellClashMembers(pk, br, ar, tr, schema);
      CellClashMembers(pk, br, ar, tr, SortedCols(touched));
      var narrow, full := CellClashes(pk, br, ar, tr, SortedCols(touched)), CellClashes(pk, br, ar, tr, schema);
      assert forall x :: x in narrow <==> x in full;
      assert narrow != [] ==> narrow[0] in full;
      assert full != [] ==> full[0] in narrow;
      assert MergedRow(br, ar, tr, cols, touched) == MergedRow(br, ar, tr, cols, cols);
    }
  }

  ghost predicate SameDecisions(ds: Decisions, es: Decisions) {
    ds.Keys == es.Keys && forall pk :: pk in ds ==> SameDecision(ds[pk], es[pk])
  }

  lemma {:induction false} SameDecisionsMerge(ds: Decisions, es: Decisions)
    requires SameDecisions(ds, es) && WellKeyed(ds) && WellKeyed(es)
    ensures TableOf(ds) == TableOf(es) && ConflictsOf(ds) == ConflictsOf(es)
  {
    SameTableOf(ds, es);
    var keys := SortedKeys(ds.Keys);
    KeyOrder();
    ConflictOrder();
    AscendingDistinct(KeyLess, keys);
    ClashMembers(ds, keys);
    ClashMembers(es, keys);
    ClashNoTies(ds, keys);
    ClashNoTies(es, keys);
    SortDetermined(ConflictLess, ClashesIn(ds, keys), ClashesIn(es, keys));
  }

  lemma {:induction false} SameTableOf(ds: Decisions, es: Decisions)
    requires SameDecisions(ds, es)
    ensures TableOf(ds) == TableOf(es)
  {
    forall pk
      ensures Lookup(TableOf(ds), pk) == Lookup(TableOf(es), pk)
    {
      assert RowOf(ds, pk) == RowOf(es, pk);
    }
    SameLookups(TableOf(ds), TableOf(es));
  }

  /** Narrowed merge equals full merge: with a sound mask the engine's merge yields
      the same table and the same sorted conflicts as the model's, set bits that
      hide a change-and-change-back included. */
  lemma {:induction false} NarrowedIsFull(schema: seq<ColID>, base: Table, ours: Table, theirs: Table, mask: map<PK, set<ColID>>)
    requires DistinctColumns(schema) && SoundMask(schema, base, ours, theirs, mask)
    ensures MergedTable(schema, base, ours, theirs, Narrowed(mask)) == MergedTable(schema, base, ours, theirs, Everything)
    ensures MergeConflicts(schema, base, ours, theirs, Narrowed(mask)) == MergeConflicts(schema, base, ours, theirs, Everything)
  {
    forall pk {
      NarrowedKey(schema, base, ours, theirs, mask, pk);
    }
    DecideAllWellKeyed(schema, base, ours, theirs, Narrowed(mask));
    DecideAllWellKeyed(schema, base, ours, theirs, Everything);
    SameDecisionsMerge(DecideAll(schema, base, ours, theirs, Narrowed(mask)), DecideAll(schema, base, ours, theirs, Everything));
  }

  // ----- what a clean merge means, cell by cell -----

  /** A clean merge moves a cell away from one side only when that side still held
      the base value, and then it holds the other side's value. */
  ghost predicate ThreeWayCell(b: Value, a: Value, t: Value, r: Value) {
    && (r != t ==> r == a && t == b)
    && (r != a ==> r == t && a == b)
  }

  lemma {:induction false} MergedCell(pk: PK, b: Row, a: Row, t: Row, schema: seq<ColID>, c: ColID)
    requires b.Keys == a.Keys == t.Keys == ColumnSet(schema)
    requires CellClashes(pk, b, a, t, schema) == []
    ensures ThreeWayCell(Get(Some(b), c), Get(Some(a), c), Get(Some(t), c),
      Get(Some(MergedRow(b, a, t, ColumnSet(schema), ColumnSet(schema))), c))
  {
    CellClashMembers(pk, b, a, t, schema);
    var x := Conflict(pk, CellConflict, c, Get(Some(b), c), Get(Some(a), c), Get(Some(t), c));
    assert x !in CellClashes(pk, b, a, t, schema);
    assert c in schema ==> MergeCell(x.base, x.ours, x.theirs).Some?;
  }

  lemma {:induction false} DecideClean(pk: PK, b: Option<Row>, a: Option<Row>, t: Option<Row>, merged: Row, cells: seq<Conflict>, c: ColID)
    requires Decide(pk, b, a, t, merged, cells).Keep?
    requires b.Some? && a.Some? && t.Some? && cells == [] ==>
      ThreeWayCell(Get(b, c), Get(a, c), Get(t, c), Get(Some(merged), c))
    ensures ThreeWayCell(Get(b, c), Get(a, c), Get(t, c), Get(Decide(pk, b, a, t, merged, cells).row, c))
  {
  }

  lemma {:induction false} CleanKey(schema: seq<ColID>, base: Table, ours: Table, theirs: Table, pk: PK, c: ColID)
    requires Total(base, ColumnSet(schema)) && Total(ours, ColumnSet(schema)) && Total(theirs, ColumnSet(schema))
    requires DecideKey(schema, base, ours, theirs, Everything, pk).Keep?
    ensures ThreeWayCell(Cell(base, pk, c), Cell(ours, pk, c), Cell(theirs, pk, c),
      Get(DecideKey(schema, base, ours, theirs, Everything, pk).row, c))
  {
    var b, a, t := Lookup(base, pk), Lookup(ours, pk), Lookup(theirs, pk);
    var br, ar, tr := RowOr(b), RowOr(a), RowOr(t);
    var cols := ColumnSet(schema);
    if b.Some? && a.Some? && t.Some? && CellClashes(pk, br, ar, tr, schema) == [] {
      MergedCell(pk, br, ar, tr, schema, c);
    }
    DecideClean(pk, b, a, t, MergedRow(br, ar, tr, cols, cols), CellClashes(pk, br, ar, tr, schema), c);
  }

  lemma {:induction false} DecideTotal(pk: PK, b: Option<Row>, a: Option<Row>, t: Option<Row>, merged: Row, cells: seq<Conflict>, cols: set<ColID>)
    requires b.Some? ==> b.value.Keys == cols
    requires a.Some? ==> a.value.Keys == cols
    requires t.Some? ==> t.value.Keys == cols
    requires merged.Keys == cols
    ensures var d := Decide(pk, b, a, t, merged, cells);
      d.Keep? && d.row.Some? ==> d.row.value.Keys == cols
  {
  }

  lemma {:induction false} KeptIsTotal(schema: seq<ColID>, base: Table, ours: Table, theirs: Table, pk: PK)
    requires Total(base, ColumnSet(schema)) && Total(ours, ColumnSet(schema)) && Total(theirs, ColumnSet(schema))
    ensures var d := DecideKey(schema, base, ours, theirs, Everything, pk);
      d.Keep? && d.row.Some? ==> d.row.value.Keys == ColumnSet(schema)
  {
    var b, a, t := Lookup(base, pk), Lookup(ours, pk), Lookup(theirs, pk);
    var br, ar, tr := RowOr(b), RowOr(a), RowOr(t);
    DecideTotal(pk, b, a, t, MergedRow(br, ar, tr, ColumnSet(schema), ColumnSet(schema)), CellClashes(pk, br, ar, tr, schema), ColumnSet(schema));
  }

  /** The table a clean merge yields obeys the three-way law in every cell. */
  lemma {:induction false} CleanMerge(schema: seq<ColID>, base: Table, ours: Table, theirs: Table)
    requires DistinctColumns(schema)
    requires Total(base, ColumnSet(schema)) && Total(ours, ColumnSet(schema)) && Total(theirs, ColumnSet(schema))
    requires MergeConflicts(schema, base, ours, theirs, Everything) == []
    ensures forall pk, c :: ThreeWayCell(Cell(base, pk, c), Cell(ours, pk, c), Cell(theirs, pk, c),
      Cell(MergedTable(schema, base, ours, theirs, Everything), pk, c))
  {
    var ds := DecideAll(schema, base, ours, theirs, Everything);
    DecideAllWellKeyed(schema, base, ours, theirs, Everything);
    CleanIff(ds);
    forall pk, c
      ensures ThreeWayCell(Cell(base, pk, c), Cell(ours, pk, c), Cell(theirs, pk, c), Cell(TableOf(ds), pk, c))
    {
      CleanCell(schema, base, ours, theirs, ds, pk, c);
    }
  }

  lemma {:induction false} CleanCell(schema: seq<ColID>, base: Table, ours: Table, theirs: Table, ds: Decisions, pk: PK, c: ColID)
    requires Total(base, ColumnSet(schema)) && Total(ours, ColumnSet(schema)) && Total(theirs, ColumnSet(schema))
    requires ds.Keys == MergeKeys(base, ours, theirs)
    requires pk in ds ==> ds[pk] == DecideKey(schema, base, ours, theirs, Everything, pk) && ds[pk].Keep?
    ensures ThreeWayCell(Cell(base, pk, c), Cell(ours, pk, c), Cell(theirs, pk, c), Cell(TableOf(ds), pk, c))
  {
    assert Lookup(TableOf(ds), pk) == RowOf(ds, pk);
    if pk in ds {
      CleanKey(schema, base, ours, theirs, pk, c);
    }
  }

  lemma {:induction false} MergeTotal(schema: seq<ColID>, base: Table, ours: Table, theirs: Table)
    requires Total(base, ColumnSet(schema)) && Total(ours, ColumnSet(schema)) && Total(theirs, ColumnSet(schema))
    ensures Total(MergedTable(schema, base, ours, theirs, Everything), ColumnSet(schema))
  {
    var ds := DecideAll(schema, base, ours, theirs, Everything);
    forall pk | pk in TableOf(ds)
      ensures TableOf(ds)[pk].Keys == ColumnSet(schema)
    {
      assert Lookup(TableOf(ds), pk) == RowOf(ds, pk);
      KeptIsTotal(schema, base, ours, theirs, pk);
    }
  }

  // ----- symmetry and units, for every triple of tables -----

  /** Every key of the decisions keeps what the table holds. */
  ghost predicate KeepsTable(ds: Decisions, t: Table) {
    && t.Keys <= ds.Keys
    && forall pk :: pk in ds ==> ds[pk] == Keep(Lookup(t, pk))
  }

  lemma {:induction false} KeepsTableMerges(ds: Decisions, t: Table)
    requires KeepsTable(ds, t)
    ensures TableOf(ds) == t && ConflictsOf(ds) == []
  {
    CleanIff(ds);
    forall pk
      ensures Lookup(TableOf(ds), pk) == Lookup(t, pk)
    {
      assert Lookup(TableOf(ds), pk) == RowOf(ds, pk);
    }
    SameLookups(TableOf(ds), t);
  }

  /** Merging with an unchanged side yields the other side, and merging two equal
      sides yields that side, whatever the base. */
  lemma {:induction false} MergeUnits(schema: seq<ColID>, base: Table, ours: Table, theirs: Table, t: Table)
    requires (ours == base && theirs == t) || (theirs == base && ours == t) || (ours == theirs == t)
    ensures MergedTable(schema, base, ours, theirs, Everything) == t
    ensures MergeConflicts(schema, base, ours, theirs, Everything) == []
  {
    var ds := DecideAll(schema, base, ours, theirs, Everything);
    forall pk | pk in ds
      ensures ds[pk] == Keep(Lookup(t, pk))
    {
      UnitKey(schema, base, ours, theirs, t, pk);
    }
    KeepsTableMerges(ds, t);
  }

  lemma {:induction false} UnitKey(schema: seq<ColID>, base: Table, ours: Table, theirs: Table, t: Table, pk: PK)
    requires (ours == base && theirs == t) || (theirs == base && ours == t) || (ours == theirs == t)
    ensures DecideKey(schema, base, ours, theirs, Everything, pk) == Keep(Lookup(t, pk))
  {
  }

  lemma {:induction false} SwapClash(pk: PK, b: Row, a: Row, t: Row, schema: seq<ColID>)
    ensures CellClashes(pk, b, a, t, schema) != [] ==> CellClashes(pk, b, t, a, schema) != []
  {
    var d, e := CellClashes(pk, b, a, t, schema), CellClashes(pk, b, t, a, schema);
    CellClashMembers(pk, b, a, t, schema);
    CellClashMembers(pk, b, t, a, schema);
    if d != [] {
      var x := d[0];
      assert x in d;
      assert x.(ours := x.theirs, theirs := x.ours) in e;
    }
  }

  lemma {:induction false} SwapMerged(pk: PK, b: Row, a: Row, t: Row, schema: seq<ColID>)
    requires CellClashes(pk, b, a, t, schema) == []
    ensures MergedRow(b, a, t, ColumnSet(schema), ColumnSet(schema)) == MergedRow(b, t, a, ColumnSet(schema), ColumnSet(schema))
  {
    CellClashMembers(pk, b, a, t, schema);
    forall c | c in ColumnSet(schema)
      ensures MergeCell(Get(Some(b), c), Get(Some(a), c), Get(Some(t), c)) == MergeCell(Get(Some(b), c), Get(Some(t), c), Get(Some(a), c))
    {
      assert Conflict(pk, CellConflict, c, Get(Some(b), c), Get(Some(a), c), Get(Some(t), c)) !in CellClashes(pk, b, a, t, schema);
    }
  }

  lemma {:induction false} SwapDecision(pk: PK, b: Option<Row>, a: Option<Row>, t: Option<Row>, merged: Row, cells: seq<Conflict>, merged': Row, cells': seq<Conflict>)
    requires cells == [] <==> cells' == []
    requires cells == [] ==> merged == merged'
    ensures var d, e := Decide(pk, b, a, t, merged, cells), Decide(pk, b, t, a, merged', cells');
      (d.Keep? <==> e.Keep?) && (d.Keep? ==> d == e)
  {
  }

  lemma {:induction false} SwapKey(schema: seq<ColID>, base: Table, ours: Table, theirs: Table, pk: PK)
    ensures var d, e := DecideKey(schema, base, ours, theirs, Everything, pk), DecideKey(schema, base, theirs, ours, Everything, pk);
      (d.Keep? <==> e.Keep?) && (d.Keep? ==> d == e)
  {
    var b, a, t := Lookup(base, pk), Lookup(ours, pk), Lookup(theirs, pk);
    var br, ar, tr := RowOr(b), RowOr(a), RowOr(t);
    var d, e := CellClashes(pk, br, ar, tr, schema), CellClashes(pk, br, tr, ar, schema);
    SwapClash(pk, br, ar, tr, schema);
    SwapClash(pk, br, tr, ar, schema);
    if d == [] {
      SwapMerged(pk, br, ar, tr, schema);
    }
    var cols := ColumnSet(schema);
    SwapDecision(pk, b, a, t, MergedRow(br, ar, tr, cols, cols), d, MergedRow(br, tr, ar, cols, cols), e);
  }

  /** Swapping the sides of a merge keeps the table, and a merge is clean in one
      direction exactly when it is in the other. */
  lemma {:induction false} MergeSymmetric(schema: seq<ColID>, base: Table, ours: Table, theirs: Table)
    requires DistinctColumns(schema)
    ensures MergeConflicts(schema, base, ours, theirs, Everything) == [] <==> MergeConflicts(schema, base, theirs, ours, Everything) == []
    ensures MergedTable(schema, base, ours, theirs, Everything) == MergedTable(schema, base, theirs, ours, Everything)
  {
    var ds, es := DecideAll(schema, base, ours, theirs, Everything), DecideAll(schema, base, theirs, ours, Everything);
    forall pk {
      SwapKey(schema, base, ours, theirs, pk);
    }
    DecideAllWellKeyed(schema, base, ours, theirs, Everything);
    DecideAllWellKeyed(schema, base, theirs, ours, Everything);
    SwappedDecisions(ds, es);
  }

  lemma {:induction false} SwappedDecisions(ds: Decisions, es: Decisions)
    requires ds.Keys == es.Keys && WellKeyed(ds) && WellKeyed(es)
    requires forall pk :: pk in ds ==> (ds[pk].Keep? <==> es[pk].Keep?) && (ds[pk].Keep? ==> ds[pk] == es[pk])
    ensures TableOf(ds) == TableOf(es) && (ConflictsOf(ds) == [] <==> ConflictsOf(es) == [])
  {
    CleanIff(ds);
    CleanIff(es);
    forall pk
      ensures Lookup(TableOf(ds), pk) == Lookup(TableOf(es), pk)
    {
      assert RowOf(ds, pk) == RowOf(es, pk);
    }
    SameLookups(TableOf(ds), TableOf(es));
  }
}
