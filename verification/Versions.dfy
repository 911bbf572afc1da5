/** The interval store: row versions over half-open [from, to) intervals, how they are
    read and how closing and appending write them (internal/engine/engine.go, Version,
    winners, closeOpen). */
module Versions {
  import opened Wrappers
  import opened Core

  /** The open-interval sentinel, math.MaxInt64. */
  const MAX_SEQ: int := 0x7FFF_FFFF_FFFF_FFFF

  /** One stored row version. Commit and session ids are the engine's counters;
      0 stands for the empty string, so session == 0 means committed. */
  datatype Version = Version(
    branch: Name,
    pk: PK,
    from: int,
    to: int,
    op: Op,
    commit: nat,
    session: nat,
    changed: set<ColID>,
    row: Row)

  /** "This branch, as of this seq". */
  datatype Segment = Segment(branch: Name, upto: int)
  type Chain = seq<Segment>

  /** What a version says about its key: the row, or None for a tombstone. */
  function Image(v: Version): Option<Row> {
    if v.op == Delete then None else Some(v.row)
  }

  predicate Committed(v: Version, b: Name, pk: PK) {
    v.session == 0 && v.branch == b && v.pk == pk
  }

  predicate Covers(v: Version, b: Name, s: int, pk: PK) {
    Committed(v, b, pk) && v.from <= s < v.to
  }

  predicate Staged(v: Version, sid: nat, pk: PK) {
    v.session == sid && v.pk == pk
  }

  // ----- reading one branch at one seq -----

  /** The first committed version of the key in force on the branch at the seq. */
  function FirstCover(rows: seq<Version>, b: Name, s: int, pk: PK): (i: int)
    ensures -1 <= i < |rows|
    ensures i >= 0 ==> Covers(rows[i], b, s, pk)
  {
    if rows == [] then -1
    else
      var i := FirstCover(rows[..|rows| - 1], b, s, pk);
      if i >= 0 then i
      else if Covers(rows[|rows| - 1], b, s, pk) then |rows| - 1
      else -1
  }

  /** No version before the first one in force is in force. */
  lemma {:induction false} FirstCoverIsFirst(rows: seq<Version>, b: Name, s: int, pk: PK)
    ensures var f := FirstCover(rows, b, s, pk);
      forall j :: 0 <= j < (if f >= 0 then f else |rows|) ==> !Covers(rows[j], b, s, pk)
  {
    if rows != [] {
      FirstCoverIsFirst(rows[..|rows| - 1], b, s, pk);
      assert forall j :: 0 <= j < |rows| - 1 ==> rows[..|rows| - 1][j] == rows[j];
    }
  }

  /** What the branch itself says about the key at the seq: nothing, a tombstone
      or a row. */
  function At(rows: seq<Version>, b: Name, s: int, pk: PK): Option<Option<Row>> {
    var i := FirstCover(rows, b, s, pk);
    if i < 0 then None else Some(Image(rows[i]))
  }

  /** Some version the branch wrote in (lo, hi] has the column in its mask. */
  ghost predicate Touched(rows: seq<Version>, b: Name, lo: int, hi: int, pk: PK, c: ColID) {
    exists i :: 0 <= i < |rows| && Committed(rows[i], b, pk) && lo < rows[i].from <= hi && c in rows[i].changed
  }

  // ----- resolving a chain -----

  /** The key's value in a chain: the highest-priority segment that says anything
      decides, and a tombstone there hides every lower segment. */
  function Live(rows: seq<Version>, chain: Chain, pk: PK): Option<Row> {
    if chain == [] then None
    else
      match At(rows, chain[0].branch, chain[0].upto, pk)
      case Some(image) => image
      case None => Live(rows, chain[1..], pk)
  }

  function Keys(rows: seq<Version>): set<PK> {
    set i | 0 <= i < |rows| :: rows[i].pk
  }

  lemma {:induction false} LiveIsStored(rows: seq<Version>, chain: Chain, pk: PK)
    requires Live(rows, chain, pk).Some?
    ensures pk in Keys(rows)
    decreases |chain|
  {
    if FirstCover(rows, chain[0].branch, chain[0].upto, pk) < 0 {
      LiveIsStored(rows, chain[1..], pk);
    }
  }

  /** The table a chain resolves to, collected over the keys of the first n rows. */
  function ViewOver(rows: seq<Version>, chain: Chain, n: nat): Table
    requires n <= |rows|
  {
    if n == 0 then map[]
    else
      var pk := rows[n - 1].pk;
      match Live(rows, chain, pk)
      case Some(row) => ViewOver(rows, chain, n - 1)[pk := row]
      case None => ViewOver(rows, chain, n - 1)
  }

  /** The table a chain resolves to. */
  function View(rows: seq<Version>, chain: Chain): Table {
    ViewOver(rows, chain, |rows|)
  }

  lemma {:induction false} ViewOverAt(rows: seq<Version>, chain: Chain, n: nat, pk: PK)
    requires n <= |rows|
    ensures Lookup(ViewOver(rows, chain, n), pk) == if pk in Keys(rows[..n]) then Live(rows, chain, pk) else None
    decreases n
  {
    if n > 0 {
      ViewOverAt(rows, chain, n - 1, pk);
      assert rows[..n] == rows[..n - 1] + [rows[n - 1]];
      KeysSnoc(rows[..n - 1], rows[n - 1]);
    }
  }

  lemma {:induction false} KeysSnoc(rows: seq<Version>, v: Version)
    ensures Keys(rows + [v]) == Keys(rows) + {v.pk}
  {
    var r := rows + [v];
    forall k | k in Keys(rows) + {v.pk}
      ensures k in Keys(r)
    {
      if k in Keys(rows) {
        var i :| 0 <= i < |rows| && rows[i].pk == k;
        assert r[i].pk == k;
      } else {
        assert r[|rows|].pk == k;
      }
    }
  }

  /** The view holds, for every key, exactly its live row. */
  lemma {:induction false} ViewAt(rows: seq<Version>, chain: Chain, pk: PK)
    ensures Lookup(View(rows, chain), pk) == Live(rows, chain, pk)
  {
    ViewOverAt(rows, chain, |rows|, pk);
    assert rows[..|rows|] == rows;
    if Live(rows, chain, pk).Some? {
      LiveIsStored(rows, chain, pk);
    }
  }

  lemma {:induction false} ViewIs(rows: seq<Version>, chain: Chain, t: Table)
    requires forall pk :: Lookup(t, pk) == Live(rows, chain, pk)
    ensures View(rows, chain) == t
  {
    forall pk
      ensures Lookup(View(rows, chain), pk) == Lookup(t, pk)
    {
      ViewAt(rows, chain, pk);
    }
    SameLookups(View(rows, chain), t);
  }

  /** Two stores and chains that agree on every key have the same view. */
  lemma {:induction false} SameView(rows: seq<Version>, chain: Chain, rows': seq<Version>, chain': Chain)
    requires forall pk :: Live(rows', chain', pk) == Live(rows, chain, pk)
    ensures View(rows', chain') == View(rows, chain)
  {
    forall pk
      ensures Lookup(View(rows, chain), pk) == Live(rows', chain', pk)
    {
      ViewAt(rows, chain, pk);
    }
    ViewIs(rows', chain', View(rows, chain));
  }

  // ----- the tiling invariant -----

  predicate Overlap(v: Version, w: Version) {
    v.from < w.to && w.from < v.to
  }

  /** A committed version belongs to a known branch, started no later than that
      branch's head, and is open or was closed no later than the head. */
  ghost predicate InRange(v: Version, heads: map<Name, int>) {
    v.session == 0 ==>
      && v.branch in heads
      && 1 <= v.from <= heads[v.branch]
      && v.from < v.to
      && (v.to == MAX_SEQ || v.to <= heads[v.branch])
  }

  ghost predicate Disjoint(rows: seq<Version>) {
    forall i, j {:trigger Overlap(rows[i], rows[j])} ::
      0 <= i < j < |rows| && rows[i].session == 0 && Committed(rows[j], rows[i].branch, rows[i].pk)
      ==> !Overlap(rows[i], rows[j])
  }

  ghost predicate Tiled(rows: seq<Version>, heads: map<Name, int>) {
    && (forall i {:trigger InRange(rows[i], heads)} :: 0 <= i < |rows| ==> InRange(rows[i], heads))
    && Disjoint(rows)
  }

  /** Every closed version is followed, without a gap, by the next one. */
  ghost predicate FollowedAt(rows: seq<Version>, i: int)
    requires 0 <= i < |rows|
  {
    exists j :: 0 <= j < |rows| && Committed(rows[j], rows[i].branch, rows[i].pk) && rows[j].from == rows[i].to
  }

  ghost predicate Followed(rows: seq<Version>) {
    forall i {:trigger FollowedAt(rows, i)} :: 0 <= i < |rows| && rows[i].session == 0 && rows[i].to != MAX_SEQ ==> FollowedAt(rows, i)
  }

  /** Under the tiling the version in force is unique, so any cover gives At. */
  lemma {:induction false} AtIs(rows: seq<Version>, i: int, b: Name, s: int, pk: PK)
    requires Disjoint(rows)
    requires 0 <= i < |rows| && Covers(rows[i], b, s, pk)
    ensures At(rows, b, s, pk) == Some(Image(rows[i]))
  {
    var f := FirstCover(rows, b, s, pk);
    FirstCoverIsFirst(rows, b, s, pk);
    if f < i {
      assert Overlap(rows[f], rows[i]);
    }
  }

  lemma {:induction false} AtIsNone(rows: seq<Version>, b: Name, s: int, pk: PK)
    requires forall i :: 0 <= i < |rows| ==> !Covers(rows[i], b, s, pk)
    ensures At(rows, b, s, pk) == None
  {
  }

  // ----- closing and appending -----

  predicate OpenFor(v: Version, b: Name, pk: PK) {
    Committed(v, b, pk) && v.to == MAX_SEQ
  }

  function FirstOpen(rows: seq<Version>, b: Name, pk: PK): (i: int)
    ensures -1 <= i < |rows|
    ensures i >= 0 ==> OpenFor(rows[i], b, pk)
  {
    if rows == [] then -1
    else
      var i := FirstOpen(rows[..|rows| - 1], b, pk);
      if i >= 0 then i
      else if OpenFor(rows[|rows| - 1], b, pk) then |rows| - 1
      else -1
  }

  /** No version before the first open one is open. */
  lemma {:induction false} FirstOpenIsFirst(rows: seq<Version>, b: Name, pk: PK)
    ensures var f := FirstOpen(rows, b, pk);
      forall j :: 0 <= j < (if f >= 0 then f else |rows|) ==> !OpenFor(rows[j], b, pk)
  {
    if rows != [] {
      FirstOpenIsFirst(rows[..|rows| - 1], b, pk);
      assert forall j :: 0 <= j < |rows| - 1 ==> rows[..|rows| - 1][j] == rows[j];
    }
  }

  /** closeOpen: the first open version of the key on the branch ends at the seq. */
  function Close(rows: seq<Version>, b: Name, pk: PK, at: int): (r: seq<Version>)
    ensures |r| == |rows|
  {
    var i := FirstOpen(rows, b, pk);
    if i < 0 then rows else rows[i := rows[i].(to := at)]
  }

  /** Closing the current version of a key and appending its successor. */
  function Write(rows: seq<Version>, v: Version): seq<Version> {
    Close(rows, v.branch, v.pk, v.from) + [v]
  }

  function WriteAll(rows: seq<Version>, vs: seq<Version>): seq<Version>
    decreases |vs|
  {
    if vs == [] then rows else Write(WriteAll(rows, vs[..|vs| - 1]), vs[|vs| - 1])
  }

  /** Writing in two batches is writing the first and then the second. */
  lemma {:induction false} WriteAllAppend(rows: seq<Version>, vs: seq<Version>, ws: seq<Version>)
    ensures WriteAll(rows, vs + ws) == WriteAll(WriteAll(rows, vs), ws)
  {
    WriteAllIsFold(rows, vs + ws);
    WriteAllIsFold(rows, vs);
    WriteAllIsFold(WriteAll(rows, vs), ws);
    FoldAppend(Write, rows, vs, ws);
  }

  function Fold<S, T>(f: (S, T) -> S, s: S, xs: seq<T>): S
    decreases |xs|
  {
    if xs == [] then s else f(Fold(f, s, xs[..|xs| - 1]), xs[|xs| - 1])
  }

  lemma {:induction false} FoldAppend<S, T>(f: (S, T) -> S, s: S, xs: seq<T>, ys: seq<T>)
    ensures Fold(f, s, xs + ys) == Fold(f, Fold(f, s, xs), ys)
    decreases |ys|
  {
    if ys == [] {
      assert xs + ys == xs;
    } else {
      FoldAppend(f, s, xs, ys[..|ys| - 1]);
      assert (xs + ys)[..|xs + ys| - 1] == xs + ys[..|ys| - 1];
    }
  }

  lemma {:induction false} WriteAllIsFold(rows: seq<Version>, vs: seq<Version>)
    ensures WriteAll(rows, vs) == Fold(Write, rows, vs)
    decreases |vs|
  {
    if vs != [] {
      WriteAllIsFold(rows, vs[..|vs| - 1]);
    }
  }

  /** A version about to be written by the commit that takes the branch to seq n. */
  ghost predicate FreshFor(v: Version, b: Name, n: int) {
    v.session == 0 && v.branch == b && v.from == n && v.to == MAX_SEQ
  }

  /** The key has no version at or after n on the branch: it is not yet part of
      the commit being written. */
  ghost predicate Untouched(rows: seq<Version>, b: Name, n: int, pk: PK) {
    forall i :: 0 <= i < |rows| && Committed(rows[i], b, pk) ==> rows[i].from < n
  }

  lemma {:induction false} CloseShrinks(rows: seq<Version>, b: Name, pk: PK, at: int)
    ensures forall i :: 0 <= i < |rows| ==>
      Close(rows, b, pk, at)[i] == rows[i] || (OpenFor(rows[i], b, pk) && Close(rows, b, pk, at)[i] == rows[i].(to := at))
  {
  }

  /** Writing one version keeps the tiling. */
  lemma {:induction false} WriteTiled(rows: seq<Version>, v: Version, b: Name, n: int, heads: map<Name, int>)
    requires Tiled(rows, heads) && FreshFor(v, b, n) && Untouched(rows, b, n, v.pk)
    requires b in heads && heads[b] == n && 1 <= n < MAX_SEQ
    ensures Tiled(Write(rows, v), heads)
    ensures forall i :: 0 <= i < |rows| && Committed(rows[i], b, v.pk) ==> Write(rows, v)[i].to <= n
  {
    var r := Close(rows, b, v.pk, n);
    CloseShrinks(rows, b, v.pk, n);
    var f := FirstOpen(rows, b, v.pk);
    FirstOpenIsFirst(rows, b, v.pk);
    forall i | 0 <= i < |rows| && Committed(rows[i], b, v.pk)
      ensures r[i].to <= n
    {
      assert InRange(rows[i], heads);
      assert f >= 0 ==> InRange(rows[f], heads);
      assert 0 <= f < i ==> !Overlap(rows[f], rows[i]);
    }
    forall i, j | 0 <= i < j < |r + [v]| && (r + [v])[i].session == 0 && Committed((r + [v])[j], (r + [v])[i].branch, (r + [v])[i].pk)
      ensures !Overlap((r + [v])[i], (r + [v])[j])
    {
      if j < |r| {
        assert !Overlap(rows[i], rows[j]);
        assert InRange(rows[i], heads) && InRange(rows[j], heads);
      }
    }
    forall i | 0 <= i < |r|
      ensures InRange(r[i], heads)
    {
      assert InRange(rows[i], heads);
    }
  }

  /** Between two stores: nothing a branch other than b says has changed, nor
      anything b says before seq n, and no mask bit was lost. */
  ghost predicate SameBelow(rows: seq<Version>, rows': seq<Version>, b: Name, n: int) {
    && (forall b', s, pk :: b' != b || s < n ==> At(rows', b', s, pk) == At(rows, b', s, pk))
    && (forall b', lo, hi, pk, c :: b' != b || hi < n ==>
          (Touched(rows', b', lo, hi, pk, c) <==> Touched(rows, b', lo, hi, pk, c)))
    && (forall b', lo, hi, pk, c :: Touched(rows, b', lo, hi, pk, c) ==> Touched(rows', b', lo, hi, pk, c))
  }

  lemma {:induction false} WriteAt(rows: seq<Version>, v: Version, b: Name, n: int, heads: map<Name, int>, b': Name, s: int, pk: PK)
    requires Tiled(rows, heads) && FreshFor(v, b, n) && Untouched(rows, b, n, v.pk)
    requires b in heads && heads[b] == n && 1 <= n < MAX_SEQ
    ensures b' != b || pk != v.pk || s < n ==> At(Write(rows, v), b', s, pk) == At(rows, b', s, pk)
    ensures n <= s < MAX_SEQ ==> At(Write(rows, v), b, s, v.pk) == Some(Image(v))
  {
    WriteTiled(rows, v, b, n, heads);
    CloseShrinks(rows, b, v.pk, n);
    var r := Write(rows, v);
    if n <= s < MAX_SEQ {
      AtIs(r, |rows|, b, s, v.pk);
    }
    if b' != b || pk != v.pk || s < n {
      var f := FirstCover(rows, b', s, pk);
      if f >= 0 {
        AtIs(r, f, b', s, pk);
      } else {
        FirstCoverIsFirst(rows, b', s, pk);
        AtIsNone(r, b', s, pk);
      }
    }
  }

  lemma {:induction false} WriteTouched(rows: seq<Version>, v: Version, b: Name, lo: int, hi: int, pk: PK, c: ColID)
    ensures Touched(Write(rows, v), b, lo, hi, pk, c) <==>
      Touched(rows, b, lo, hi, pk, c) || (Committed(v, b, pk) && lo < v.from <= hi && c in v.changed)
  {
    var r := Write(rows, v);
    CloseShrinks(rows, v.branch, v.pk, v.from);
    if Touched(rows, b, lo, hi, pk, c) {
      var i :| 0 <= i < |rows| && Committed(rows[i], b, pk) && lo < rows[i].from <= hi && c in rows[i].changed;
      assert Committed(r[i], b, pk) && lo < r[i].from <= hi && c in r[i].changed;
    }
    if Committed(v, b, pk) && lo < v.from <= hi && c in v.changed {
      assert r[|rows|] == v;
    }
    if Touched(r, b, lo, hi, pk, c) {
      var i :| 0 <= i < |r| && Committed(r[i], b, pk) && lo < r[i].from <= hi && c in r[i].changed;
      if i < |rows| {
        assert Committed(rows[i], b, pk) && lo < rows[i].from <= hi && c in rows[i].changed;
      }
    }
  }

  lemma {:induction false} WriteSame(rows: seq<Version>, v: Version, b: Name, n: int, heads: map<Name, int>)
    requires Tiled(rows, heads) && FreshFor(v, b, n) && Untouched(rows, b, n, v.pk)
    requires b in heads && heads[b] == n && 1 <= n < MAX_SEQ
    ensures SameBelow(rows, Write(rows, v), b, n)
  {
    forall b', s, pk | b' != b || s < n
      ensures At(Write(rows, v), b', s, pk) == At(rows, b', s, pk)
    {
      WriteAt(rows, v, b, n, heads, b', s, pk);
    }
    forall b', lo, hi, pk, c {
      WriteTouched(rows, v, b', lo, hi, pk, c);
    }
  }

  // ----- a whole commit -----

  ghost predicate Batch(vs: seq<Version>, b: Name, n: int) {
    && (forall i :: 0 <= i < |vs| ==> FreshFor(vs[i], b, n))
    && (forall i, j :: 0 <= i < j < |vs| ==> vs[i].pk != vs[j].pk)
  }

  ghost predicate Wrote(vs: seq<Version>, pk: PK) {
    exists i :: 0 <= i < |vs| && vs[i].pk == pk
  }

  ghost predicate WroteMask(vs: seq<Version>, pk: PK, c: ColID) {
    exists i :: 0 <= i < |vs| && vs[i].pk == pk && c in vs[i].changed
  }

  lemma {:induction false} WriteAllUntouched(rows: seq<Version>, vs: seq<Version>, b: Name, n: int, pk: PK)
    requires Batch(vs, b, n) && Untouched(rows, b, n, pk) && !Wrote(vs, pk)
    ensures Untouched(WriteAll(rows, vs), b, n, pk)
    decreases |vs|
  {
    if vs != [] {
      var k := |vs| - 1;
      var init := vs[..k];
      assert forall i :: 0 <= i < |init| ==> init[i] == vs[i];
      WriteAllUntouched(rows, init, b, n, pk);
      CloseShrinks(WriteAll(rows, init), b, vs[k].pk, n);
    }
  }

  lemma {:induction false} SameBelowTransitive(r0: seq<Version>, r1: seq<Version>, r2: seq<Version>, b: Name, n: int)
    requires SameBelow(r0, r1, b, n) && SameBelow(r1, r2, b, n)
    ensures SameBelow(r0, r2, b, n)
  {
    forall b', s, pk | b' != b || s < n
      ensures At(r2, b', s, pk) == At(r0, b', s, pk)
    {
      assert At(r1, b', s, pk) == At(r0, b', s, pk);
    }
    forall b', lo, hi, pk, c | b' != b || hi < n
      ensures Touched(r2, b', lo, hi, pk, c) <==> Touched(r0, b', lo, hi, pk, c)
    {
      assert Touched(r1, b', lo, hi, pk, c) <==> Touched(r0, b', lo, hi, pk, c);
    }
  }

  /** Writing a commit's versions keeps the tiling and changes nothing below the
      new seq. */
  lemma {:induction false} WriteAllSame(rows: seq<Version>, vs: seq<Version>, b: Name, n: int, heads: map<Name, int>)
    requires Tiled(rows, heads) && Batch(vs, b, n)
    requires b in heads && heads[b] == n && 1 <= n < MAX_SEQ
    requires forall pk :: Untouched(rows, b, n, pk)
    ensures Tiled(WriteAll(rows, vs), heads)
    ensures SameBelow(rows, WriteAll(rows, vs), b, n)
    decreases |vs|
  {
    if vs != [] {
      var k := |vs| - 1;
      var init := vs[..k];
      assert forall i :: 0 <= i < |init| ==> init[i] == vs[i];
      WriteAllSame(rows, init, b, n, heads);
      WriteAllUntouched(rows, init, b, n, vs[k].pk);
      WriteTiled(WriteAll(rows, init), vs[k], b, n, heads);
      WriteSame(WriteAll(rows, init), vs[k], b, n, heads);
      SameBelowTransitive(rows, WriteAll(rows, init), WriteAll(rows, vs), b, n);
    }
  }

  /** At the new seq a written key reads as its version and any other key as before. */
  lemma {:induction false} WriteAllAt(rows: seq<Version>, vs: seq<Version>, b: Name, n: int, heads: map<Name, int>, pk: PK)
    requires Tiled(rows, heads) && Batch(vs, b, n)
    requires b in heads && heads[b] == n && 1 <= n < MAX_SEQ
    requires forall pk :: Untouched(rows, b, n, pk)
    ensures forall i :: 0 <= i < |vs| && vs[i].pk == pk ==> At(WriteAll(rows, vs), b, n, pk) == Some(Image(vs[i]))
    ensures !Wrote(vs, pk) ==> At(WriteAll(rows, vs), b, n, pk) == At(rows, b, n, pk)
    decreases |vs|
  {
    if vs != [] {
      var k := |vs| - 1;
      var init := vs[..k];
      assert forall i :: 0 <= i < |init| ==> init[i] == vs[i];
      WriteAllSame(rows, init, b, n, heads);
      WriteAllUntouched(rows, init, b, n, vs[k].pk);
      WriteAllAt(rows, init, b, n, heads, pk);
      WriteAt(WriteAll(rows, init), vs[k], b, n, heads, b, n, pk);
      assert Wrote(init, pk) ==> Wrote(vs, pk);
      assert vs[k].pk == pk ==> Wrote(vs, pk);
    }
  }

  lemma {:induction false} WriteAllTouched(rows: seq<Version>, vs: seq<Version>, b: Name, n: int, lo: int, pk: PK, c: ColID)
    requires Batch(vs, b, n) && lo < n && WroteMask(vs, pk, c)
    ensures Touched(WriteAll(rows, vs), b, lo, n, pk, c)
    decreases |vs|
  {
    var k := |vs| - 1;
    var init := vs[..k];
    WriteTouched(WriteAll(rows, init), vs[k], b, lo, n, pk, c);
    if !(vs[k].pk == pk && c in vs[k].changed) {
      assert forall i :: 0 <= i < |init| ==> init[i] == vs[i];
      var i :| 0 <= i < |vs| && vs[i].pk == pk && c in vs[i].changed;
      assert init[i].pk == pk;
      WriteAllTouched(rows, init, b, n, lo, pk, c);
    }
  }
}
