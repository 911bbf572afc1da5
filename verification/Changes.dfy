/** Filtered reads and diffs (internal/engine/engine.go). */
module Changes {
  import opened Wrappers
  import opened Core
  import opened Versions
  import opened Tiling

  // ----- filtering -----

  /** The rows of a table that satisfy a predicate. */
  function Filtered(t: Table, pred: Row -> bool): Table {
    map pk | pk in t && pred(t[pk]) :: t[pk]
  }

  /** A table that may be missing, read as Go reads a nil map. */
  function OrEmpty(t: Option<Table>): Table {
    if t.Some? then t.value else map[]
  }

  /** A row version in force on the segment that is live and matches. */
  predicate Hit(v: Version, seg: Segment, pred: Row -> bool) {
    Covers(v, seg.branch, seg.upto, v.pk) && v.op != Delete && pred(v.row)
  }

  /** The change set of a predicate update: one update per matching row it changes. */
  function UpdateWhere(t: Table, pred: Row -> bool, assign: Row -> Row): ChangeSet {
    map pk | pk in t && pred(t[pk]) && assign(t[pk]) != t[pk] :: Change(Update, assign(t[pk]))
  }

  // ----- diffs -----

  /** What a diff says of one changed row: the image it now has and the cells that moved.
      A deleted row carries neither. */
  datatype RowChange = RowChange(op: Op, row: Option<Row>, changed: set<ColID>)
  type Diff = map<PK, RowChange>

  function ChangeOf(before: Option<Row>, after: Option<Row>, cols: set<ColID>): RowChange {
    if after.None? then RowChange(Delete, None, {})
    else if before.None? then RowChange(Insert, after, MaskOf(None, after, cols))
    else RowChange(Update, after, MaskOf(before, after, cols))
  }

  /** The difference of two tables at some keys. */
  function DiffAt(from: Table, to: Table, cols: set<ColID>, keys: set<PK>): Diff {
    map pk | pk in keys && Lookup(from, pk) != Lookup(to, pk) :: ChangeOf(Lookup(from, pk), Lookup(to, pk), cols)
  }

  /** The whole difference of two tables. */
  function FullDiff(from: Table, to: Table, cols: set<ColID>): Diff {
    DiffAt(from, to, cols, from.Keys + to.Keys)
  }

  /** The store's diff also holds the image a changed row had before. */
  datatype Entry = Entry(op: Op, before: Option<Row>, after: Option<Row>, changed: set<ColID>)
  type Entries = map<PK, Entry>

  function EntryOf(before: Option<Row>, after: Option<Row>, cols: set<ColID>): Entry {
    if after.None? then Entry(Delete, before, None, {})
    else if before.None? then Entry(Insert, None, after, MaskOf(None, after, cols))
    else Entry(Update, before, after, MaskOf(before, after, cols))
  }

  function EntriesAt(from: Table, to: Table, cols: set<ColID>, keys: set<PK>): Entries {
    map pk | pk in keys && Lookup(from, pk) != Lookup(to, pk) :: EntryOf(Lookup(from, pk), Lookup(to, pk), cols)
  }

  function FullEntries(from: Table, to: Table, cols: set<ColID>): Entries {
    EntriesAt(from, to, cols, from.Keys + to.Keys)
  }

  /** The keys the branch wrote in (lo, hi]. */
  function WrittenKeys(rows: seq<Version>, b: Name, lo: int, hi: int): set<PK> {
    set i | 0 <= i < |rows| && rows[i].session == 0 && rows[i].branch == b && lo < rows[i].from <= hi :: rows[i].pk
  }

  /** A version closed in the range was followed by one written in it. */
  lemma {:induction false} ClosedIsWritten(rows: seq<Version>, b: Name, lo: int, hi: int, i: int)
    requires Followed(rows) && hi < MAX_SEQ
    requires 0 <= i < |rows| && rows[i].session == 0 && rows[i].branch == b && lo < rows[i].to <= hi
    ensures rows[i].pk in WrittenKeys(rows, b, lo, hi)
  {
    assert FollowedAt(rows, i);
    var j :| 0 <= j < |rows| && Committed(rows[j], b, rows[i].pk) && rows[j].from == rows[i].to;
    assert rows[j].pk in WrittenKeys(rows, b, lo, hi);
  }

  /** A key the branch did not write in a range says the same at both its ends. */
  lemma {:induction false} UnwrittenAt(rows: seq<Version>, b: Name, lo: int, hi: int, pk: PK)
    requires Disjoint(rows) && Followed(rows) && lo <= hi < MAX_SEQ
    ensures pk in WrittenKeys(rows, b, lo, hi) || At(rows, b, hi, pk) == At(rows, b, lo, pk)
  {
    var f, g := FirstCover(rows, b, lo, pk), FirstCover(rows, b, hi, pk);
    FirstCoverIsFirst(rows, b, lo, pk);
    if f >= 0 && rows[f].to <= hi {
      ClosedIsWritten(rows, b, lo, hi, f);
    } else if f >= 0 {
      AtIs(rows, f, b, hi, pk);
    } else if g >= 0 {
      assert rows[g].pk in WrittenKeys(rows, b, lo, hi);
    }
  }

  lemma {:induction false} UnwrittenLive(rows: seq<Version>, b: Name, lo: int, hi: int, tail: Chain, pk: PK)
    requires Disjoint(rows) && Followed(rows) && lo <= hi < MAX_SEQ
    ensures pk in WrittenKeys(rows, b, lo, hi) || Live(rows, [Segment(b, hi)] + tail, pk) == Live(rows, [Segment(b, lo)] + tail, pk)
  {
    UnwrittenAt(rows, b, lo, hi, pk);
    assert ([Segment(b, hi)] + tail)[1..] == tail && ([Segment(b, lo)] + tail)[1..] == tail;
  }

  lemma {:induction false} ScanMisses(rows: seq<Version>, b: Name, lo: int, hi: int, tail: Chain, pk: PK)
    requires Disjoint(rows) && Followed(rows) && lo <= hi < MAX_SEQ
    ensures pk in WrittenKeys(rows, b, lo, hi) ||
      Lookup(View(rows, [Segment(b, lo)] + tail), pk) == Lookup(View(rows, [Segment(b, hi)] + tail), pk)
  {
    ViewAt(rows, [Segment(b, lo)] + tail, pk);
    ViewAt(rows, [Segment(b, hi)] + tail, pk);
    UnwrittenLive(rows, b, lo, hi, tail, pk);
  }

  /** The interval scan is complete: looking only at the keys the branch wrote in the
      range finds the whole difference of the two resolutions over one tail. */
  lemma {:induction false} ScanIsFull(rows: seq<Version>, b: Name, lo: int, hi: int, tail: Chain, cols: set<ColID>)
    requires Disjoint(rows) && Followed(rows) && lo <= hi < MAX_SEQ
    ensures var from, to, keys := View(rows, [Segment(b, lo)] + tail), View(rows, [Segment(b, hi)] + tail), WrittenKeys(rows, b, lo, hi);
      && DiffAt(from, to, cols, keys) == FullDiff(from, to, cols)
      && EntriesAt(from, to, cols, keys) == FullEntries(from, to, cols)
  {
    var from, to := View(rows, [Segment(b, lo)] + tail), View(rows, [Segment(b, hi)] + tail);
    forall pk | Lookup(from, pk) != Lookup(to, pk)
      ensures pk in WrittenKeys(rows, b, lo, hi) && pk in from.Keys + to.Keys
    {
      ScanMisses(rows, b, lo, hi, tail, pk);
    }
  }

  /** A backward scan finds nothing, so it is the difference exactly when there is none. */
  lemma {:induction false} BackwardScan(rows: seq<Version>, b: Name, lo: int, hi: int, from: Table, to: Table, cols: set<ColID>)
    requires hi <= lo
    ensures DiffAt(from, to, cols, WrittenKeys(rows, b, lo, hi)) == FullDiff(from, to, cols) <==> from == to
  {
    assert WrittenKeys(rows, b, lo, hi) == {};
    assert DiffAt(from, to, cols, {}) == map[];
    if FullDiff(from, to, cols) == map[] {
      forall pk
        ensures Lookup(from, pk) == Lookup(to, pk)
      {
        assert pk !in FullDiff(from, to, cols);
      }
      SameLookups(from, to);
    }
  }

  lemma {:induction false} DiffTells(from: Table, to: Table, cols: set<ColID>, pk: PK)
    ensures pk in FullDiff(from, to, cols) <==> Lookup(from, pk) != Lookup(to, pk)
    ensures pk in FullDiff(from, to, cols) ==> FullDiff(from, to, cols)[pk] == ChangeOf(Lookup(from, pk), Lookup(to, pk), cols)
  {
  }

  /** Entries say everything about what changed: the keys whose rows differ, and the row
      on either side. */
  lemma {:induction false} EntriesTell(from: Table, to: Table, cols: set<ColID>, pk: PK)
    ensures pk in FullEntries(from, to, cols) <==> Lookup(from, pk) != Lookup(to, pk)
    ensures pk in FullEntries(from, to, cols) ==>
      && FullEntries(from, to, cols)[pk] == EntryOf(Lookup(from, pk), Lookup(to, pk), cols)
      && FullEntries(from, to, cols)[pk].before == Lookup(from, pk) && FullEntries(from, to, cols)[pk].after == Lookup(to, pk)
  {
  }

  /** With the images before, the difference up to one table determines the table it
      starts from. */
  lemma {:induction false} EntriesDetermine(from: Table, from': Table, to: Table, cols: set<ColID>)
    ensures FullEntries(from, to, cols) == FullEntries(from', to, cols) <==> from == from'
  {
    if FullEntries(from, to, cols) == FullEntries(from', to, cols) {
      forall pk
        ensures Lookup(from, pk) == Lookup(from', pk)
      {
        EntriesTell(from, to, cols, pk);
        EntriesTell(from', to, cols, pk);
      }
      SameLookups(from, from');
    }
  }

  // ----- when two diffs are equal -----

  /** Two entries for a key are the same: no change twice, or both images agree. */
  predicate SameEntry(x: Option<Row>, y: Option<Row>, x': Option<Row>, y': Option<Row>) {
    if x == y then x' == y' else x == x' && y == y'
  }

  /** Without the image before, two changes may be the same although they start from
      different rows: any two deletions are, and so are two updates to one row that move
      the same cells. */
  predicate SameChange(x: Option<Row>, y: Option<Row>, x': Option<Row>, y': Option<Row>, cols: set<ColID>) {
    if x == y then x' == y'
    else x' != y' && y == y' && (y.Some? ==> (x.None? <==> x'.None?) && MaskOf(x, y, cols) == MaskOf(x', y, cols))
  }

  lemma {:induction false} EntryTells(x: Option<Row>, y: Option<Row>, x': Option<Row>, y': Option<Row>, cols: set<ColID>)
    requires x != y && x' != y'
    ensures EntryOf(x, y, cols) == EntryOf(x', y', cols) <==> SameEntry(x, y, x', y')
  {
  }

  lemma {:induction false} ChangeTells(x: Option<Row>, y: Option<Row>, x': Option<Row>, y': Option<Row>, cols: set<ColID>)
    requires x != y && x' != y'
    ensures ChangeOf(x, y, cols) == ChangeOf(x', y', cols) <==> SameChange(x, y, x', y', cols)
  {
  }

  /** Two lists of entries are equal exactly when they say the same about every key. */
  lemma {:induction false} EntriesAgreeIff(from: Table, to: Table, from': Table, to': Table, cols: set<ColID>)
    ensures FullEntries(from, to, cols) == FullEntries(from', to', cols) <==>
      forall pk :: SameEntry(Lookup(from, pk), Lookup(to, pk), Lookup(from', pk), Lookup(to', pk))
  {
    var d, d' := FullEntries(from, to, cols), FullEntries(from', to', cols);
    forall pk
      ensures SameEntry(Lookup(from, pk), Lookup(to, pk), Lookup(from', pk), Lookup(to', pk)) <==>
        (pk in d <==> pk in d') && (pk in d && pk in d' ==> d[pk] == d'[pk])
    {
      EntriesTell(from, to, cols, pk);
      EntriesTell(from', to', cols, pk);
      if pk in d && pk in d' {
        EntryTells(Lookup(from, pk), Lookup(to, pk), Lookup(from', pk), Lookup(to', pk), cols);
      }
    }
    if forall pk :: SameEntry(Lookup(from, pk), Lookup(to, pk), Lookup(from', pk), Lookup(to', pk)) {
      assert d.Keys == d'.Keys;
    }
  }

  /** Two change sets are equal exactly when they make the same change to every key. */
  lemma {:induction false} DiffsAgreeIff(from: Table, to: Table, from': Table, to': Table, cols: set<ColID>)
    ensures FullDiff(from, to, cols) == FullDiff(from', to', cols) <==>
      forall pk :: SameChange(Lookup(from, pk), Lookup(to, pk), Lookup(from', pk), Lookup(to', pk), cols)
  {
    var d, d' := FullDiff(from, to, cols), FullDiff(from', to', cols);
    forall pk
      ensures SameChange(Lookup(from, pk), Lookup(to, pk), Lookup(from', pk), Lookup(to', pk), cols) <==>
        (pk in d <==> pk in d') && (pk in d && pk in d' ==> d[pk] == d'[pk])
    {
      DiffTells(from, to, cols, pk);
      DiffTells(from', to', cols, pk);
      if pk in d && pk in d' {
        ChangeTells(Lookup(from, pk), Lookup(to, pk), Lookup(from', pk), Lookup(to', pk), cols);
      }
    }
    if forall pk :: SameChange(Lookup(from, pk), Lookup(to, pk), Lookup(from', pk), Lookup(to', pk), cols) {
      assert d.Keys == d'.Keys;
    }
  }

  // ----- reading one branch over different tails -----

  /** The three tails a branch is read over: the one its difference is taken over, and
      those its two ends were recorded over. */
  datatype Tails = Tails(now: Chain, first: Chain, last: Chain)

  /** What it takes of the tails for the entries of two seqs read over the one to be the
      entries of the first seq over the second and the last seq over the third. Only keys
      the branch says nothing about at the first seq matter: if it says something at the
      last, the first two tails must agree on the key, otherwise the last two. */
  ghost predicate EntriesAllowed(rows: seq<Version>, b: Name, lo: int, hi: int, tails: Tails) {
    forall pk :: EntryAllowed(rows, b, lo, hi, tails, pk)
  }

  predicate EntryAllowed(rows: seq<Version>, b: Name, lo: int, hi: int, tails: Tails, pk: PK) {
    At(rows, b, lo, pk) == None ==>
      Live(rows, tails.first, pk) == Live(rows, if At(rows, b, hi, pk).Some? then tails.now else tails.last, pk)
  }

  /** What it takes for their change sets to be equal, which hold no images before. Where
      the branch says something at the last seq, the first two tails need only make the
      same change of it. */
  ghost predicate DiffAllowed(rows: seq<Version>, b: Name, lo: int, hi: int, tails: Tails, cols: set<ColID>) {
    forall pk :: ChangeAllowed(rows, b, lo, hi, tails, cols, pk)
  }

  predicate ChangeAllowed(rows: seq<Version>, b: Name, lo: int, hi: int, tails: Tails, cols: set<ColID>, pk: PK) {
    At(rows, b, lo, pk) == None ==>
      match At(rows, b, hi, pk)
      case None => Live(rows, tails.first, pk) == Live(rows, tails.last, pk)
      case Some(y) => OneChange(Live(rows, tails.now, pk), Live(rows, tails.first, pk), y, cols)
  }

  /** Two rows become a third by one and the same change, or are both it already. */
  predicate OneChange(x: Option<Row>, x': Option<Row>, y: Option<Row>, cols: set<ColID>) {
    && (x == y <==> x' == y)
    && (x != y && y.Some? ==> (x.None? <==> x'.None?) && MaskOf(x, y, cols) == MaskOf(x', y, cols))
  }

  /** What a branch once said about a key, it has replaced by something since. */
  lemma {:induction false} AtPersists(rows: seq<Version>, heads: map<Name, int>, b: Name, lo: int, hi: int, pk: PK)
    requires Tiled(rows, heads) && Followed(rows) && lo <= hi < MAX_SEQ && At(rows, b, lo, pk).Some?
    ensures At(rows, b, hi, pk).Some?
  {
    var j := NoGap(rows, heads, FirstCover(rows, b, lo, pk), hi);
    FirstCoverIsFirst(rows, b, hi, pk);
  }

  lemma {:induction false} OverTail(rows: seq<Version>, b: Name, s: int, tail: Chain, pk: PK)
    ensures Lookup(View(rows, [Segment(b, s)] + tail), pk) ==
      if At(rows, b, s, pk).Some? then At(rows, b, s, pk).value else Live(rows, tail, pk)
  {
    ViewAt(rows, [Segment(b, s)] + tail, pk);
    assert ([Segment(b, s)] + tail)[1..] == tail;
  }

  /** What the four readings of a key come to. */
  lemma {:induction false} OverTails(rows: seq<Version>, heads: map<Name, int>, b: Name, lo: int, hi: int, tails: Tails, cols: set<ColID>, pk: PK)
    requires Tiled(rows, heads) && Followed(rows) && lo <= hi < MAX_SEQ
    ensures var x, y := Lookup(View(rows, [Segment(b, lo)] + tails.now), pk), Lookup(View(rows, [Segment(b, hi)] + tails.now), pk);
      var x', y' := Lookup(View(rows, [Segment(b, lo)] + tails.first), pk), Lookup(View(rows, [Segment(b, hi)] + tails.last), pk);
      && (SameEntry(x, y, x', y') <==> EntryAllowed(rows, b, lo, hi, tails, pk))
      && (SameChange(x, y, x', y', cols) <==> ChangeAllowed(rows, b, lo, hi, tails, cols, pk))
  {
    OverTail(rows, b, lo, tails.now, pk);
    OverTail(rows, b, hi, tails.now, pk);
    OverTail(rows, b, lo, tails.first, pk);
    OverTail(rows, b, hi, tails.last, pk);
    if At(rows, b, lo, pk).Some? {
      AtPersists(rows, heads, b, lo, hi, pk);
    }
  }

  /** The interval scan over one tail finds the entries of the two seqs read over tails of
      their own exactly when the tails allow it, ... */
  lemma {:induction false} ScanAcrossTails(rows: seq<Version>, heads: map<Name, int>, b: Name, lo: int, hi: int, tails: Tails, cols: set<ColID>)
    requires Tiled(rows, heads) && Followed(rows) && lo <= hi < MAX_SEQ
    ensures EntriesAt(View(rows, [Segment(b, lo)] + tails.now), View(rows, [Segment(b, hi)] + tails.now), cols, WrittenKeys(rows, b, lo, hi))
      == FullEntries(View(rows, [Segment(b, lo)] + tails.first), View(rows, [Segment(b, hi)] + tails.last), cols)
      <==> EntriesAllowed(rows, b, lo, hi, tails)
  {
    ScanIsFull(rows, b, lo, hi, tails.now, cols);
    EntriesAgreeIff(View(rows, [Segment(b, lo)] + tails.now), View(rows, [Segment(b, hi)] + tails.now),
                    View(rows, [Segment(b, lo)] + tails.first), View(rows, [Segment(b, hi)] + tails.last), cols);
    forall pk
      ensures SameEntry(
        Lookup(View(rows, [Segment(b, lo)] + tails.now), pk), Lookup(View(rows, [Segment(b, hi)] + tails.now), pk),
        Lookup(View(rows, [Segment(b, lo)] + tails.first), pk), Lookup(View(rows, [Segment(b, hi)] + tails.last), pk))
        <==> EntryAllowed(rows, b, lo, hi, tails, pk)
    {
      OverTails(rows, heads, b, lo, hi, tails, cols, pk);
    }
  }

  /** ... and their change set exactly when the tails allow that. */
  lemma {:induction false} DiffAcrossTails(rows: seq<Version>, heads: map<Name, int>, b: Name, lo: int, hi: int, tails: Tails, cols: set<ColID>)
    requires Tiled(rows, heads) && Followed(rows) && lo <= hi < MAX_SEQ
    ensures DiffAt(View(rows, [Segment(b, lo)] + tails.now), View(rows, [Segment(b, hi)] + tails.now), cols, WrittenKeys(rows, b, lo, hi))
      == FullDiff(View(rows, [Segment(b, lo)] + tails.first), View(rows, [Segment(b, hi)] + tails.last), cols)
      <==> DiffAllowed(rows, b, lo, hi, tails, cols)
  {
    ScanIsFull(rows, b, lo, hi, tails.now, cols);
    DiffsAgreeIff(View(rows, [Segment(b, lo)] + tails.now), View(rows, [Segment(b, hi)] + tails.now),
                  View(rows, [Segment(b, lo)] + tails.first), View(rows, [Segment(b, hi)] + tails.last), cols);
    forall pk
      ensures SameChange(
        Lookup(View(rows, [Segment(b, lo)] + tails.now), pk), Lookup(View(rows, [Segment(b, hi)] + tails.now), pk),
        Lookup(View(rows, [Segment(b, lo)] + tails.first), pk), Lookup(View(rows, [Segment(b, hi)] + tails.last), pk), cols)
        <==> ChangeAllowed(rows, b, lo, hi, tails, cols, pk)
    {
      OverTails(rows, heads, b, lo, hi, tails, cols, pk);
    }
  }

  /** Tails that allow the entries allow the change set. */
  lemma {:induction false} AllowsLess(rows: seq<Version>, b: Name, lo: int, hi: int, tails: Tails, cols: set<ColID>)
    requires EntriesAllowed(rows, b, lo, hi, tails)
    ensures DiffAllowed(rows, b, lo, hi, tails, cols)
  {
    forall pk
      ensures ChangeAllowed(rows, b, lo, hi, tails, cols, pk)
    {
      assert EntryAllowed(rows, b, lo, hi, tails, pk);
    }
  }

  /** When the last seq is read over the one tail too, the tails allow the entries exactly
      when the first seq reads the same over both of its tails. */
  lemma {:induction false} AllowedToPresent(rows: seq<Version>, b: Name, lo: int, hi: int, now: Chain, first: Chain)
    ensures EntriesAllowed(rows, b, lo, hi, Tails(now, first, now)) <==> View(rows, [Segment(b, lo)] + now) == View(rows, [Segment(b, lo)] + first)
  {
    var from, from', tails := View(rows, [Segment(b, lo)] + now), View(rows, [Segment(b, lo)] + first), Tails(now, first, now);
    forall pk
      ensures Lookup(from, pk) == Lookup(from', pk) <==> EntryAllowed(rows, b, lo, hi, tails, pk)
    {
      OverTail(rows, b, lo, now, pk);
      OverTail(rows, b, lo, first, pk);
    }
    if EntriesAllowed(rows, b, lo, hi, tails) {
      SameLookups(from, from');
    }
  }

  // ----- the loops -----

  lemma {:induction false} DiffAtNext(from: Table, to: Table, cols: set<ColID>, keys: set<PK>, pk: PK)
    ensures DiffAt(from, to, cols, keys + {pk}) ==
            if Lookup(from, pk) != Lookup(to, pk) then DiffAt(from, to, cols, keys)[pk := ChangeOf(Lookup(from, pk), Lookup(to, pk), cols)]
            else DiffAt(from, to, cols, keys)
  {
  }

  lemma {:induction false} EntriesAtNext(from: Table, to: Table, cols: set<ColID>, keys: set<PK>, pk: PK)
    ensures EntriesAt(from, to, cols, keys + {pk}) ==
            if Lookup(from, pk) != Lookup(to, pk) then EntriesAt(from, to, cols, keys)[pk := EntryOf(Lookup(from, pk), Lookup(to, pk), cols)]
            else EntriesAt(from, to, cols, keys)
  {
  }

  /** The comparison of two tables, key by key. */
  method CompareAt(from: Table, to: Table, cols: set<ColID>, keys: set<PK>) returns (d: Diff)
    ensures d == DiffAt(from, to, cols, keys)
  {
    d := map[];
    var rest := keys;
    while rest != {}
      invariant rest <= keys
      invariant d == DiffAt(from, to, cols, keys - rest)
      decreases rest
    {
      var pk :| pk in rest;
      var before, after := Lookup(from, pk), Lookup(to, pk);
      DiffAtNext(from, to, cols, keys - rest, pk);
      assert keys - (rest - {pk}) == (keys - rest) + {pk};
      if before.Some? && after.None? {
        d := d[pk := RowChange(Delete, None, {})];
      } else if before.None? && after.Some? {
        d := d[pk := RowChange(Insert, after, MaskOf(None, after, cols))];
      } else if before != after {
        d := d[pk := RowChange(Update, after, MaskOf(before, after, cols))];
      }
      rest := rest - {pk};
    }
    assert keys - rest == keys;
  }

  /** The store's, which keeps the image before. */
  method CompareEntries(from: Table, to: Table, cols: set<ColID>, keys: set<PK>) returns (entries: Entries)
    ensures entries == EntriesAt(from, to, cols, keys)
  {
    entries := map[];
    var rest := keys;
    while rest != {}
      invariant rest <= keys
      invariant entries == EntriesAt(from, to, cols, keys - rest)
      decreases rest
    {
      var pk :| pk in rest;
      var before, after := Lookup(from, pk), Lookup(to, pk);
      EntriesAtNext(from, to, cols, keys - rest, pk);
      assert keys - (rest - {pk}) == (keys - rest) + {pk};
      if before.Some? && after.None? {
        entries := entries[pk := Entry(Delete, before, None, {})];
      } else if before.None? && after.Some? {
        entries := entries[pk := Entry(Insert, None, after, MaskOf(None, after, cols))];
      } else if before != after {
        entries := entries[pk := Entry(Update, before, after, MaskOf(before, after, cols))];
      }
      rest := rest - {pk};
    }
    assert keys - rest == keys;
  }
}
