/** Concrete inputs, most of them whole runs, on which a property stops short. */
module Limits {
  import opened Wrappers
  import opened Core
  import opened Orders
  import opened Operations
  import opened Versions
  import opened Lineage
  import opened ThreeWay
  import opened Agreement
  import opened Runs
  import opened Changes
  import opened Guarantees
  import opened Revert
  import opened Thinning
  import E = IntervalMachine

  const LEFT: ColID := 1
  const RIGHT: ColID := 2
  const COLUMNS: seq<ColID> := [LEFT, RIGHT]
  const KEY: PK := PK([1])
  const FEATURE: Name := "feature"

  function Cells(left: Long, right: Long): Row {
    map[LEFT := Int(left), RIGHT := Int(right)]
  }

  // The runs. The default branch inserts a row, a branch forks and commits nothing, and
  // the left cell of the row changes on the default branch.

  const SEEDS: Operation := Commit(ROOT, map[KEY := Change(Insert, Cells(0, 0))])
  const FORKS: Operation := CreateBranch(FEATURE, ROOT)
  const RESTS: Operation := Commit(FEATURE, map[])
  const MOVES: Operation := Commit(ROOT, map[KEY := Change(Update, Cells(1, 0))])
  const RESTED: Run := [SEEDS, FORKS, RESTS]
  const BEHIND: Run := RESTED + [MOVES]

  // Then the branch takes the change over, and deletes the row; ...

  const UPDATES: Operation := UpdateFromParent(FEATURE)
  const DELETES: Operation := Commit(FEATURE, map[KEY := Change(Delete, map[])])
  const ABSORBED: Run := BEHIND + [UPDATES]
  const DELETED: Run := ABSORBED + [DELETES]

  // ... or the right cell changes on the default branch too.

  const MOVES_AGAIN: Operation := Commit(ROOT, map[KEY := Change(Update, Cells(1, 1))])
  const AHEAD: Run := BEHIND + [MOVES_AGAIN]

  // ----- the versions the runs write -----

  function Inserted(to: int): Version {
    Version(ROOT, KEY, 1, to, Insert, 2, 0, {LEFT, RIGHT}, Cells(0, 0))
  }

  function LeftMoved(to: int): Version {
    Version(ROOT, KEY, 2, to, Update, 4, 0, {LEFT}, Cells(1, 0))
  }

  const RIGHT_MOVED: Version := Version(ROOT, KEY, 3, MAX_SEQ, Update, 5, 0, {RIGHT}, Cells(1, 1))
  const TOMBSTONE: Version := Version(FEATURE, KEY, 3, MAX_SEQ, Delete, 6, 0, {LEFT, RIGHT}, map[])

  /** The table of the one key. */
  function Holding(r: Option<Row>): Table {
    match r
    case Some(row) => map[KEY := row]
    case None => map[]
  }

  lemma {:induction false} OnlyKey(rows: seq<Version>, chain: Chain)
    requires forall i :: 0 <= i < |rows| ==> rows[i].pk == KEY
    ensures View(rows, chain) == Holding(Live(rows, chain, KEY))
  {
    forall pk
      ensures Lookup(Holding(Live(rows, chain, KEY)), pk) == Live(rows, chain, pk)
    {
      if Live(rows, chain, pk).Some? {
        LiveIsStored(rows, chain, pk);
      }
    }
    ViewIs(rows, chain, Holding(Live(rows, chain, KEY)));
  }

  /** The default branch reads the version in force, and so does the branch above it where
      it says nothing. */
  lemma {:induction false} Reads(rows: seq<Version>, i: int, s: int, t: int)
    requires Disjoint(rows) && 0 <= i < |rows| && Covers(rows[i], ROOT, s, KEY)
    requires forall j :: 0 <= j < |rows| ==> rows[j].pk == KEY && !Covers(rows[j], FEATURE, t, KEY)
    ensures View(rows, [Segment(ROOT, s)]) == Holding(Image(rows[i]))
    ensures View(rows, [Segment(FEATURE, t), Segment(ROOT, s)]) == Holding(Image(rows[i]))
  {
    AtIs(rows, i, ROOT, s, KEY);
    AtIsNone(rows, FEATURE, t, KEY);
    var root, chain := [Segment(ROOT, s)], [Segment(FEATURE, t), Segment(ROOT, s)];
    assert chain[1..] == root;
    OnlyKey(rows, root);
    OnlyKey(rows, chain);
  }

  lemma {:induction false} Closes(rows: seq<Version>, i: int, v: Version)
    requires 0 <= i < |rows| && OpenFor(rows[i], v.branch, v.pk)
    requires forall j :: 0 <= j < |rows| && OpenFor(rows[j], v.branch, v.pk) ==> j == i
    ensures Write(rows, v) == rows[i := rows[i].(to := v.from)] + [v]
  {
    FirstOpenIsFirst(rows, v.branch, v.pk);
  }

  lemma {:induction false} Appends(rows: seq<Version>, v: Version)
    requires forall j :: 0 <= j < |rows| ==> !OpenFor(rows[j], v.branch, v.pk)
    ensures Write(rows, v) == rows + [v]
  {
  }

  lemma {:induction false} KeysOf()
    ensures SortedKeys({}) == [] && SortedKeys({KEY}) == [KEY] && ColumnSet(COLUMNS) == {LEFT, RIGHT}
  {
    KeyOrder();
    ListUnique(KeyLess, SortedKeys({}), [], {});
    ListUnique(KeyLess, SortedKeys({KEY}), [KEY], {KEY});
  }

  /** A commit that changes the one key. */
  lemma {:induction false} WritesOne(e: E.State, b: Name, ch: Change, before: Option<Row>, v: Version)
    requires b in e.branches && e.schema == COLUMNS && Lookup(View(e.rows, E.HeadChain(e, b)), KEY) == before
    requires E.ChangeVersion(b, e.branches[b].headSeq + 1, e.nextID + 1, {LEFT, RIGHT}, KEY, before, ch) == [v]
    ensures E.CommitRows(e, b, map[KEY := ch]) == Write(e.rows, v)
  {
    var cs: ChangeSet, table := map[KEY := ch], View(e.rows, E.HeadChain(e, b));
    KeysOf();
    OneVersion(b, e.branches[b].headSeq + 1, e.nextID + 1, table, ch, v);
    assert cs.Keys == {KEY};
    assert WriteAll(e.rows, [v]) == Write(e.rows, v) by {
      assert [v][..0] == [];
    }
  }

  lemma {:induction false} OneVersion(b: Name, n: int, id: nat, table: Table, ch: Change, v: Version)
    requires E.ChangeVersion(b, n, id, {LEFT, RIGHT}, KEY, Lookup(table, KEY), ch) == [v]
    ensures E.ChangeVersions(b, n, id, {LEFT, RIGHT}, table, map[KEY := ch], [KEY]) == [v]
  {
    assert [KEY][..0] == [];
    assert E.ChangeVersions(b, n, id, {LEFT, RIGHT}, table, map[KEY := ch], []) == [];
  }

  lemma {:induction false} MaskIs(before: Option<Row>, after: Option<Row>)
    ensures var left, right := Get(before, LEFT) != Get(after, LEFT), Get(before, RIGHT) != Get(after, RIGHT);
      MaskOf(before, after, {LEFT, RIGHT}) ==
        if left && right then {LEFT, RIGHT} else if left then {LEFT} else if right then {RIGHT} else {}
  {
  }

  // What each change writes.

  lemma {:induction false} Inserts()
    ensures E.ChangeVersion(ROOT, 1, 2, {LEFT, RIGHT}, KEY, None, Change(Insert, Cells(0, 0))) == [Inserted(MAX_SEQ)]
    ensures Write([], Inserted(MAX_SEQ)) == STARTED
  {
    MaskIs(None, Some(Cells(0, 0)));
    Appends([], Inserted(MAX_SEQ));
  }

  lemma {:induction false} MovesLeft()
    ensures E.ChangeVersion(ROOT, 2, 4, {LEFT, RIGHT}, KEY, Some(Cells(0, 0)), Change(Update, Cells(1, 0))) == [LeftMoved(MAX_SEQ)]
    ensures Write(STARTED, LeftMoved(MAX_SEQ)) == MOVED
  {
    MaskIs(Some(Cells(0, 0)), Some(Cells(1, 0)));
    Closes(STARTED, 0, LeftMoved(MAX_SEQ));
  }

  lemma {:induction false} MovesRight()
    ensures E.ChangeVersion(ROOT, 3, 5, {LEFT, RIGHT}, KEY, Some(Cells(1, 0)), Change(Update, Cells(1, 1))) == [RIGHT_MOVED]
    ensures Write(MOVED, RIGHT_MOVED) == MOVED_AGAIN
  {
    MaskIs(Some(Cells(1, 0)), Some(Cells(1, 1)));
    Closes(MOVED, 1, RIGHT_MOVED);
  }

  lemma {:induction false} Buries()
    ensures E.ChangeVersion(FEATURE, 3, 6, {LEFT, RIGHT}, KEY, Some(Cells(1, 0)), Change(Delete, map[])) == [TOMBSTONE]
    ensures Write(MOVED, TOMBSTONE) == ENDED
  {
    MaskIs(Some(Cells(1, 0)), None);
    Appends(MOVED, TOMBSTONE);
  }

  // ----- what the default branch and the branch above it read -----

  const STARTED: seq<Version> := [Inserted(MAX_SEQ)]
  const MOVED: seq<Version> := [Inserted(2), LeftMoved(MAX_SEQ)]
  const MOVED_AGAIN: seq<Version> := [Inserted(2), LeftMoved(3), RIGHT_MOVED]
  const ENDED: seq<Version> := [Inserted(2), LeftMoved(MAX_SEQ), TOMBSTONE]
  const THINNED: seq<Version> := [Inserted(3), RIGHT_MOVED]

  lemma {:induction false} ReadsStarted()
    ensures View(STARTED, [Segment(ROOT, 1)]) == map[KEY := Cells(0, 0)]
  {
    Reads(STARTED, 0, 1, 0);
  }

  lemma {:induction false} ReadsMoved(t: int)
    ensures View(MOVED, [Segment(ROOT, 1)]) == View(MOVED, [Segment(FEATURE, t), Segment(ROOT, 1)]) == map[KEY := Cells(0, 0)]
    ensures View(MOVED, [Segment(ROOT, 2)]) == View(MOVED, [Segment(FEATURE, t), Segment(ROOT, 2)]) == map[KEY := Cells(1, 0)]
  {
    assert !Overlap(MOVED[0], MOVED[1]);
    Reads(MOVED, 0, 1, t);
    Reads(MOVED, 1, 2, t);
  }

  lemma {:induction false} ReadsEnded()
    ensures View(ENDED, [Segment(FEATURE, 1), Segment(ROOT, 1)]) == map[KEY := Cells(0, 0)]
    ensures View(ENDED, [Segment(FEATURE, 1), Segment(ROOT, 2)]) == map[KEY := Cells(1, 0)]
    ensures View(ENDED, [Segment(FEATURE, 3), Segment(ROOT, 2)]) == map[]
  {
    assert !Overlap(ENDED[0], ENDED[1]);
    Reads(ENDED, 0, 1, 1);
    Reads(ENDED, 1, 2, 1);
    AtIs(ENDED, 2, FEATURE, 3, KEY);
    OnlyKey(ENDED, [Segment(FEATURE, 3), Segment(ROOT, 2)]);
  }

  lemma {:induction false} ReadsThinned()
    ensures View(THINNED, [Segment(FEATURE, 1), Segment(ROOT, 1)]) == map[KEY := Cells(0, 0)]
    ensures View(THINNED, [Segment(ROOT, 3)]) == map[KEY := Cells(1, 1)]
  {
    assert !Overlap(THINNED[0], THINNED[1]);
    Reads(THINNED, 0, 1, 1);
    Reads(THINNED, 1, 3, 1);
  }

  // ----- the steps of the runs -----

  ghost predicate Stands(e: E.State, b: Name, seqs: int, head: nat, tail: Chain) {
    b in e.branches && e.branches[b].headSeq == seqs && e.branches[b].headCommit == head && e.branches[b].chain == tail
  }

  lemma {:induction false} Seeds(e: E.State)
    requires e == E.Init(COLUMNS)
    ensures E.Commit(e, ROOT, SEEDS.cs).0 == E.RecordCommit(e, STARTED, ROOT, 1, 2, [1])
  {
    EmptyView(E.HeadChain(e, ROOT));
    Inserts();
    WritesOne(e, ROOT, Change(Insert, Cells(0, 0)), None, Inserted(MAX_SEQ));
  }

  lemma {:induction false} Rests(e: E.State)
    requires Stands(e, FEATURE, 0, 2, [Segment(ROOT, 1)]) && e.nextID == 2
    ensures E.Commit(e, FEATURE, RESTS.cs).0 == E.RecordCommit(e, e.rows, FEATURE, 1, 3, [2])
  {
    KeysOf();
    var cs: ChangeSet := map[];
    assert cs.Keys == {};
    assert E.CommitRows(e, FEATURE, cs) == e.rows;
  }

  lemma {:induction false} Moves(e: E.State)
    requires Stands(e, ROOT, 1, 2, []) && e.nextID == 3 && e.rows == STARTED && e.schema == COLUMNS
    ensures E.Commit(e, ROOT, MOVES.cs).0 == E.RecordCommit(e, MOVED, ROOT, 2, 4, [2])
  {
    assert E.HeadChain(e, ROOT) == [Segment(ROOT, 1)];
    ReadsStarted();
    MovesLeft();
    WritesOne(e, ROOT, Change(Update, Cells(1, 0)), Some(Cells(0, 0)), LeftMoved(MAX_SEQ));
  }

  lemma {:induction false} MovesAgain(e: E.State)
    requires Stands(e, ROOT, 2, 4, []) && e.nextID == 4 && e.rows == MOVED && e.schema == COLUMNS
    ensures E.Commit(e, ROOT, MOVES_AGAIN.cs).0 == E.RecordCommit(e, MOVED_AGAIN, ROOT, 3, 5, [4])
  {
    assert E.HeadChain(e, ROOT) == [Segment(ROOT, 2)];
    ReadsMoved(0);
    MovesRight();
    WritesOne(e, ROOT, Change(Update, Cells(1, 1)), Some(Cells(1, 0)), RIGHT_MOVED);
  }

  lemma {:induction false} Deletes(e: E.State)
    requires Stands(e, FEATURE, 2, 5, [Segment(ROOT, 2)]) && e.nextID == 5 && e.rows == MOVED && e.schema == COLUMNS
    ensures E.Commit(e, FEATURE, DELETES.cs).0 == E.RecordCommit(e, ENDED, FEATURE, 3, 6, [5])
  {
    assert E.HeadChain(e, FEATURE) == [Segment(FEATURE, 2), Segment(ROOT, 2)];
    ReadsMoved(2);
    Buries();
    WritesOne(e, FEATURE, Change(Delete, map[]), Some(Cells(1, 0)), TOMBSTONE);
  }

  /** The update writes nothing: the branch already reads the row through its new tail. */
  lemma {:induction false} WritesNothing(e: E.State)
    requires FEATURE in e.branches && e.schema == COLUMNS
    requires View(e.rows, E.HeadChain(e, FEATURE)) == map[KEY := Cells(1, 0)]
    ensures E.ResultRows(e, FEATURE, map[KEY := Cells(1, 0)]) == e.rows
  {
    var t: Table := map[KEY := Cells(1, 0)];
    var n, id := e.branches[FEATURE].headSeq + 1, e.nextID + 1;
    KeysOf();
    assert t.Keys == {KEY} && [KEY][..0] == [];
    assert E.UpsertVersions(FEATURE, n, id, {LEFT, RIGHT}, t, t, [KEY]) == [];
    assert E.TombstoneVersions(FEATURE, n, id, {LEFT, RIGHT}, t, t, [KEY]) == [];
  }

  /** The branch behind its parent. */
  ghost predicate IsBehind(e: E.State) {
    && Stands(e, FEATURE, 1, 3, [Segment(ROOT, 1)]) && Stands(e, ROOT, 2, 4, [])
    && e.branches[FEATURE].parent == ROOT && e.branches[FEATURE].forkCommit == 2
    && 2 in e.commits && e.commits[2].chain == [Segment(ROOT, 1)]
    && e.nextID == 4 && e.rows == MOVED && e.schema == COLUMNS
  }

  /** What the update merges: only the parent moved. */
  lemma {:induction false} MergesCleanly(e: E.State)
    requires Reachable(COLUMNS, e) && IsBehind(e)
    ensures E.MergeStates(e, FEATURE, ROOT, 2) == (map[KEY := Cells(1, 0)], [])
  {
    assert E.HeadChain(e, ROOT) == [Segment(ROOT, 2)] && E.HeadChain(e, FEATURE) == [Segment(FEATURE, 1), Segment(ROOT, 1)];
    MergesInFull(COLUMNS, e, FEATURE, ROOT, 2);
    ReadsMoved(1);
    var was, now: Table := map[KEY := Cells(0, 0)], map[KEY := Cells(1, 0)];
    MergeUnits(COLUMNS, was, was, now, now);
  }

  lemma {:induction false} Records(e: E.State)
    requires IsBehind(e)
    ensures var target := E.AdvanceFork(e, FEATURE);
      E.ApplyMergeResult(target, FEATURE, map[KEY := Cells(1, 0)], [3, 4]) == E.RecordCommit(target, MOVED, FEATURE, 2, 5, [3, 4])
  {
    var target := E.AdvanceFork(e, FEATURE);
    assert E.Inherited(e, ROOT) == [Segment(ROOT, 2)];
    assert E.HeadChain(target, FEATURE) == [Segment(FEATURE, 1), Segment(ROOT, 2)];
    ReadsMoved(1);
    WritesNothing(target);
  }

  lemma {:induction false} Absorbs(e: E.State)
    requires Reachable(COLUMNS, e) && IsBehind(e) && E.Closed(e)
    ensures E.UpdateFromParent(e, FEATURE).0 == E.RecordCommit(E.AdvanceFork(e, FEATURE), MOVED, FEATURE, 2, 5, [3, 4])
  {
    Records(e);
    MergesCleanly(e);
  }

  // ----- the states they lead to -----

  ghost function Seeded(): E.State {
    E.RecordCommit(E.Init(COLUMNS), STARTED, ROOT, 1, 2, [1])
  }

  ghost function Forked(): E.State {
    E.CreateBranch(Seeded(), FEATURE, ROOT).0
  }

  ghost function Rested(): (e: E.State)
    ensures Stands(e, ROOT, 1, 2, []) && e.nextID == 3 && e.rows == STARTED && e.schema == COLUMNS
    ensures Stands(e, FEATURE, 1, 3, [Segment(ROOT, 1)]) && e.branches[FEATURE].parent == ROOT && e.branches[FEATURE].forkCommit == 2
    ensures 2 in e.commits && e.commits[2].chain == [Segment(ROOT, 1)]
    ensures 3 in e.commits && e.commits[3] == E.CommitMeta(3, [2], FEATURE, 1, [Segment(FEATURE, 1), Segment(ROOT, 1)])
  {
    assert FEATURE in Forked().branches && Forked().branches[FEATURE].chain == [Segment(ROOT, 1)];
    E.RecordCommit(Forked(), STARTED, FEATURE, 1, 3, [2])
  }

  ghost function Moved(): (e: E.State)
    ensures IsBehind(e)
    ensures 3 in e.commits && e.commits[3] == E.CommitMeta(3, [2], FEATURE, 1, [Segment(FEATURE, 1), Segment(ROOT, 1)])
  {
    E.RecordCommit(Rested(), MOVED, ROOT, 2, 4, [2])
  }

  ghost function Absorbed(): (e: E.State)
    ensures Stands(e, FEATURE, 2, 5, [Segment(ROOT, 2)]) && e.nextID == 5 && e.rows == MOVED && e.schema == COLUMNS
    ensures 3 in e.commits && e.commits[3] == E.CommitMeta(3, [2], FEATURE, 1, [Segment(FEATURE, 1), Segment(ROOT, 1)])
    ensures 5 in e.commits && e.commits[5] == E.CommitMeta(5, [3, 4], FEATURE, 2, [Segment(FEATURE, 2), Segment(ROOT, 2)])
  {
    E.RecordCommit(E.AdvanceFork(Moved(), FEATURE), MOVED, FEATURE, 2, 5, [3, 4])
  }

  ghost function Deleted(): (e: E.State)
    ensures Stands(e, FEATURE, 3, 6, [Segment(ROOT, 2)]) && e.rows == ENDED && e.schema == COLUMNS
    ensures 3 in e.commits && e.commits[3] == E.CommitMeta(3, [2], FEATURE, 1, [Segment(FEATURE, 1), Segment(ROOT, 1)])
    ensures 6 in e.commits && e.commits[6] == E.CommitMeta(6, [5], FEATURE, 3, [Segment(FEATURE, 3), Segment(ROOT, 2)])
  {
    E.RecordCommit(Absorbed(), ENDED, FEATURE, 3, 6, [5])
  }

  ghost function MovedAgain(): (e: E.State)
    ensures e.rows == MOVED_AGAIN && Stands(e, FEATURE, 1, 3, [Segment(ROOT, 1)]) && Stands(e, ROOT, 3, 5, [])
    ensures 5 in e.commits && e.commits[5] == E.CommitMeta(5, [4], ROOT, 3, [Segment(ROOT, 3)])
  {
    E.RecordCommit(Moved(), MOVED_AGAIN, ROOT, 3, 5, [4])
  }

  /** The runs and the states they lead to. */
  ghost function Leads(): iset<(Run, E.State)> {
    iset x: (Run, E.State) | Valid(x.0, COLUMNS) && Engine(COLUMNS, x.0) == x.1
  }

  lemma {:induction false} LeadsOn(run: Run, op: Operation, run': Run, e: E.State, e': E.State)
    requires (run, e) in Leads() && run' == run + [op] && |run| < 10 && ValidOp(op, {LEFT, RIGHT})
    requires E.Closed(e) && E.Step(e, op).0 == e'
    ensures (run', e') in Leads()
  {
    KeysOf();
    EngineNext(COLUMNS, run, op);
  }

  lemma {:induction false} LeadsOnCommit(run: Run, b: Name, cs: ChangeSet, run': Run, e: E.State, e': E.State)
    requires (run, e) in Leads() && run' == run + [Commit(b, cs)] && |run| < 10 && TotalChanges(cs, {LEFT, RIGHT})
    requires E.Commit(e, b, cs).0 == e'
    ensures (run', e') in Leads()
  {
    LeadsOn(run, Commit(b, cs), run', e, e');
  }

  lemma {:induction false} LeadsAreReachable(run: Run, e: E.State)
    requires (run, e) in Leads()
    ensures Reachable(COLUMNS, e) && Valid(run, COLUMNS) && Engine(COLUMNS, run) == e
  {
  }

  lemma {:induction false} LeadsToSeeded()
    ensures ([SEEDS], Seeded()) in Leads()
  {
    Seeds(E.Init(COLUMNS));
    assert Engine(COLUMNS, []) == E.Init(COLUMNS);
    LeadsOnCommit([], ROOT, SEEDS.cs, [SEEDS], E.Init(COLUMNS), Seeded());
  }

  lemma {:induction false} LeadsToForked()
    ensures ([SEEDS, FORKS], Forked()) in Leads()
  {
    LeadsToSeeded();
    LeadsOn([SEEDS], FORKS, [SEEDS, FORKS], Seeded(), Forked());
  }

  lemma {:induction false} LeadsToRested()
    ensures (RESTED, Rested()) in Leads()
  {
    LeadsToForked();
    Rests(Forked());
    LeadsOnCommit([SEEDS, FORKS], FEATURE, RESTS.cs, RESTED, Forked(), Rested());
  }

  lemma {:induction false} LeadsToMoved()
    ensures (BEHIND, Moved()) in Leads()
  {
    LeadsToRested();
    Moves(Rested());
    LeadsOnCommit(RESTED, ROOT, MOVES.cs, BEHIND, Rested(), Moved());
  }

  lemma {:induction false} LeadsToAbsorbed()
    ensures (ABSORBED, Absorbed()) in Leads()
  {
    LeadsToMoved();
    LeadsAreReachable(BEHIND, Moved());
    Absorbs(Moved());
    LeadsOn(BEHIND, UPDATES, ABSORBED, Moved(), Absorbed());
  }

  lemma {:induction false} LeadsToDeleted()
    ensures (DELETED, Deleted()) in Leads()
  {
    LeadsToAbsorbed();
    Deletes(Absorbed());
    LeadsOnCommit(ABSORBED, FEATURE, DELETES.cs, DELETED, Absorbed(), Deleted());
  }

  lemma {:induction false} LeadsToMovedAgain()
    ensures (AHEAD, MovedAgain()) in Leads()
  {
    LeadsToMoved();
    MovesAgain(Moved());
    LeadsOnCommit(BEHIND, ROOT, MOVES_AGAIN.cs, AHEAD, Moved(), MovedAgain());
  }

  // ----- a diff across an update from the parent -----

  lemma {:induction false} UpdateDiffers(e: E.State)
    requires Stands(e, FEATURE, 2, 5, [Segment(ROOT, 2)]) && e.rows == MOVED && e.schema == COLUMNS
    requires 3 in e.commits && e.commits[3].chain == [Segment(FEATURE, 1), Segment(ROOT, 1)]
    requires 5 in e.commits && e.commits[5].chain == [Segment(FEATURE, 2), Segment(ROOT, 2)]
    ensures BranchDiff(e, FEATURE, 1, 2) == map[]
    ensures SnapshotDiff(e, 3, 5) == map[KEY := RowChange(Update, Some(Cells(1, 0)), {LEFT})]
  {
    assert WrittenKeys(e.rows, FEATURE, 1, 2) == {};
    ReadsMoved(1);
    ReadsMoved(2);
    KeysOf();
    LeftDiffers();
  }

  lemma {:induction false} LeftDiffers()
    ensures FullDiff(map[KEY := Cells(0, 0)], map[KEY := Cells(1, 0)], {LEFT, RIGHT}) == map[KEY := RowChange(Update, Some(Cells(1, 0)), {LEFT})]
  {
    MaskIs(Some(Cells(0, 0)), Some(Cells(1, 0)));
  }

  /** On this run the interval-scan diff of the branch's two commits is empty, and the
      diff of their snapshots is not. */
  lemma {:induction false} DiffMissesUpdate()
    ensures Valid(ABSORBED, COLUMNS)
    ensures var e := Engine(COLUMNS, ABSORBED);
      && 3 in e.commits && 5 in e.commits && e.commits[3].branch == FEATURE && e.commits[5].branch == FEATURE
      && BranchDiff(e, FEATURE, e.commits[3].at, e.commits[5].at) == map[]
      && SnapshotDiff(e, 3, 5) == map[KEY := RowChange(Update, Some(Cells(1, 0)), {LEFT})]
  {
    LeadsToAbsorbed();
    LeadsAreReachable(ABSORBED, Absorbed());
    UpdateDiffers(Absorbed());
  }

  lemma {:induction false} DeletionDiffers(e: E.State)
    requires Stands(e, FEATURE, 3, 6, [Segment(ROOT, 2)]) && e.rows == ENDED && e.schema == COLUMNS
    requires 3 in e.commits && e.commits[3].chain == [Segment(FEATURE, 1), Segment(ROOT, 1)]
    requires 6 in e.commits && e.commits[6].chain == [Segment(FEATURE, 3), Segment(ROOT, 2)]
    ensures BranchDiff(e, FEATURE, 1, 3) == SnapshotDiff(e, 3, 6) == map[KEY := RowChange(Delete, None, {})]
    ensures BranchEntries(e, FEATURE, 1, 3) == map[KEY := Entry(Delete, Some(Cells(1, 0)), None, {})]
    ensures SnapshotEntries(e, 3, 6) == map[KEY := Entry(Delete, Some(Cells(0, 0)), None, {})]
  {
    ReadsEnded();
    assert e.rows[2].pk in WrittenKeys(e.rows, FEATURE, 1, 3);
    assert E.ChainFor(e, FEATURE, 1) == [Segment(FEATURE, 1), Segment(ROOT, 2)];
    assert E.ChainFor(e, FEATURE, 3) == [Segment(FEATURE, 3), Segment(ROOT, 2)];
  }

  /** On this one they are equal, although the branch's first commit held another row than
      the branch now reads at its seq: the deletion hides it, except in the store's entry. */
  lemma {:induction false} DeletionHidesUpdate()
    ensures Valid(DELETED, COLUMNS)
    ensures var e := Engine(COLUMNS, DELETED);
      && 3 in e.commits && 6 in e.commits && e.commits[3].branch == FEATURE && e.commits[6].branch == FEATURE
      && BranchDiff(e, FEATURE, e.commits[3].at, e.commits[6].at) == SnapshotDiff(e, 3, 6) == map[KEY := RowChange(Delete, None, {})]
      && BranchEntries(e, FEATURE, e.commits[3].at, e.commits[6].at) == map[KEY := Entry(Delete, Some(Cells(1, 0)), None, {})]
      && SnapshotEntries(e, 3, 6) == map[KEY := Entry(Delete, Some(Cells(0, 0)), None, {})]
  {
    LeadsToDeleted();
    LeadsAreReachable(DELETED, Deleted());
    DeletionDiffers(Deleted());
  }

  // ----- reverting an update from the parent -----

  lemma {:induction false} NothingWritten(e: E.State)
    requires Stands(e, FEATURE, 2, 5, [Segment(ROOT, 2)]) && e.rows == MOVED
    ensures forall force :: Judge(e, FEATURE, 2, force) == Refuse(NothingToRevert)
  {
    assert WrittenKeys(e.rows, FEATURE, 1, 2) == {};
  }

  lemma {:induction false} UpdateStates(e: E.State)
    requires e.rows == MOVED
    requires 3 in e.commits && e.commits[3].chain == [Segment(FEATURE, 1), Segment(ROOT, 1)]
    requires 5 in e.commits && e.commits[5].parents == [3, 4] && e.commits[5].chain == [Segment(FEATURE, 2), Segment(ROOT, 2)]
    ensures StateBefore(e, 5) == map[KEY := Cells(0, 0)] && E.StateAtCommit(e, 5) == map[KEY := Cells(1, 0)]
  {
    ReadsMoved(1);
    ReadsMoved(2);
  }

  /** The update changed the row the branch reads, and a revert of it finds nothing to
      revert, forced or not. */
  lemma {:induction false} RevertMissesUpdate()
    ensures Valid(ABSORBED, COLUMNS)
    ensures var e := Engine(COLUMNS, ABSORBED);
      && 5 in e.commits && e.commits[5].branch == FEATURE && e.commits[5].at == 2
      && StateBefore(e, 5) == map[KEY := Cells(0, 0)] && E.StateAtCommit(e, 5) == map[KEY := Cells(1, 0)]
      && forall force :: Judge(e, FEATURE, 2, force) == Refuse(NothingToRevert)
  {
    LeadsToAbsorbed();
    LeadsAreReachable(ABSORBED, Absorbed());
    NothingWritten(Absorbed());
    UpdateStates(Absorbed());
  }

  // ----- masks below a pruning cutoff -----

  lemma {:induction false} HistoryThinned()
    ensures Spans(MOVED_AGAIN, ROOT, 3, KEY, Span(1, 3)) && Thin(MOVED_AGAIN, ROOT, 3, KEY, Span(1, 3)) == THINNED
  {
    var rows := MOVED_AGAIN;
    assert DoomedFor(rows[0], ROOT, 3, KEY) && DoomedFor(rows[1], ROOT, 3, KEY);
    assert rows[..2][..1] == rows[..1] && rows[..1][..0] == [] && rows[..2][1] == rows[1] && rows[..1][0] == rows[0];
    assert Thin(rows[..1], ROOT, 3, KEY, Span(1, 3)) == [Inserted(3)];
    assert Thin(rows[..2], ROOT, 3, KEY, Span(1, 3)) == [Inserted(3)];
  }

  lemma {:induction false} UpperOf(s: int)
    ensures Upper([Segment(ROOT, s)]) == map[ROOT := s]
  {
    assert [Segment(ROOT, s)][..0] == [];
  }

  lemma {:induction false} NoBitLeft(now: Chain, head: Chain)
    requires now == [Segment(FEATURE, 1), Segment(ROOT, 1)] && head == [Segment(ROOT, 3)]
    ensures !MaskSince(THINNED, now, head, KEY, LEFT)
  {
    UpperOf(3);
    assert now[1].branch == ROOT;
  }

  lemma {:induction false} BitBefore(now: Chain, head: Chain)
    requires now == [Segment(FEATURE, 1), Segment(ROOT, 1)] && head == [Segment(ROOT, 3)]
    ensures MaskSince(MOVED_AGAIN, now, head, KEY, LEFT)
  {
    UpperOf(3);
    assert Committed(MOVED_AGAIN[1], ROOT, KEY);
    assert Touched(MOVED_AGAIN, ROOT, 1, 3, KEY, LEFT);
    assert SegmentMask(MOVED_AGAIN, now[1], Upper(head), KEY, LEFT);
  }

  lemma {:induction false} BitLost(now: Chain, head: Chain)
    requires now == [Segment(FEATURE, 1), Segment(ROOT, 1)] && head == [Segment(ROOT, 3)]
    ensures MaskSince(MOVED_AGAIN, now, head, KEY, LEFT)
    ensures Spans(MOVED_AGAIN, ROOT, 3, KEY, Span(1, 3))
    ensures var rows := Thin(MOVED_AGAIN, ROOT, 3, KEY, Span(1, 3));
      Cell(View(rows, now), KEY, LEFT) != Cell(View(rows, head), KEY, LEFT) && !MaskSince(rows, now, head, KEY, LEFT)
  {
    HistoryThinned();
    BitBefore(now, head);
    NoBitLeft(now, head);
    ReadsThinned();
  }

  /** Below the cutoff thinning can lose a bit: the branch forked before the left cell
      changed, pruning the default branch drops the version that changed it, and the mask
      since its head forgets the cell though the two views still differ on it. */
  lemma {:induction false} ThinningLosesBit()
    ensures Valid(AHEAD, COLUMNS)
    ensures var e := Engine(COLUMNS, AHEAD);
      && FEATURE in e.branches && ROOT in e.branches && e.branches[ROOT].headCommit == 5
      && 5 in e.commits && e.commits[5].chain == E.HeadChain(e, ROOT)
      && MaskSince(e.rows, E.HeadChain(e, FEATURE), e.commits[5].chain, KEY, LEFT)
      && Spans(e.rows, ROOT, 3, KEY, Span(1, 3))
      && var rows := Thin(e.rows, ROOT, 3, KEY, Span(1, 3));
         && Cell(View(rows, E.HeadChain(e, FEATURE)), KEY, LEFT) != Cell(View(rows, e.commits[5].chain), KEY, LEFT)
         && !MaskSince(rows, E.HeadChain(e, FEATURE), e.commits[5].chain, KEY, LEFT)
  {
    LeadsToMovedAgain();
    var e := MovedAgain();
    LeadsAreReachable(AHEAD, e);
    assert E.HeadChain(e, FEATURE) == [Segment(FEATURE, 1), Segment(ROOT, 1)] && E.HeadChain(e, ROOT) == [Segment(ROOT, 3)];
    BitLost(E.HeadChain(e, FEATURE), e.commits[5].chain);
  }
}
