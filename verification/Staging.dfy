/** Session rows: staged versions, what a session reads through them, publishing them as
    versions of a commit, dropping them, and what each of these keeps of the tiling, the
    readings and the masks. */
module Staging {
  import opened Wrappers
  import opened Core
  import opened Orders
  import opened Versions

  /** The session's staged version of the key, if any: the first one in row order. */
  function FirstStaged(rows: seq<Version>, sid: nat, pk: PK): (i: int)
    ensures -1 <= i < |rows|
    ensures i >= 0 ==> Staged(rows[i], sid, pk)
  {
    if rows == [] then -1
    else
      var i := FirstStaged(rows[..|rows| - 1], sid, pk);
      if i >= 0 then i
      else if Staged(rows[|rows| - 1], sid, pk) then |rows| - 1
      else -1
  }

  /** No version before the first staged one is staged. */
  lemma {:induction false} FirstStagedIsFirst(rows: seq<Version>, sid: nat, pk: PK)
    ensures var f := FirstStaged(rows, sid, pk);
      forall j :: 0 <= j < (if f >= 0 then f else |rows|) ==> !Staged(rows[j], sid, pk)
  {
    if rows != [] {
      FirstStagedIsFirst(rows[..|rows| - 1], sid, pk);
      assert forall j :: 0 <= j < |rows| - 1 ==> rows[..|rows| - 1][j] == rows[j];
    }
  }

  /** What the session staged for the key: the row or tombstone, and its mask. */
  function StagedAt(rows: seq<Version>, sid: nat, pk: PK): Option<(Option<Row>, set<ColID>)> {
    var i := FirstStaged(rows, sid, pk);
    if i >= 0 then Some((Image(rows[i]), rows[i].changed)) else None
  }

  /** The session's private value of a key: its own staged row over the chain. */
  function SessionLive(rows: seq<Version>, chain: Chain, sid: nat, pk: PK): Option<Row> {
    match StagedAt(rows, sid, pk)
    case Some(staged) => staged.0
    case None => Live(rows, chain, pk)
  }

  /** The session's view: its staged rows laid over the chain's table. */
  function OverlayOver(rows: seq<Version>, t: Table, sid: nat, n: nat): Table
    requires n <= |rows|
  {
    if n == 0 then t
    else
      var pk := rows[n - 1].pk;
      match StagedAt(rows, sid, pk)
      case Some((Some(row), _)) => OverlayOver(rows, t, sid, n - 1)[pk := row]
      case Some((None, _)) => OverlayOver(rows, t, sid, n - 1) - {pk}
      case None => OverlayOver(rows, t, sid, n - 1)
  }

  function SessionView(rows: seq<Version>, chain: Chain, sid: nat): Table {
    OverlayOver(rows, View(rows, chain), sid, |rows|)
  }

  lemma {:induction false} OverlayOverAt(rows: seq<Version>, t: Table, sid: nat, n: nat, pk: PK)
    requires n <= |rows|
    ensures Lookup(OverlayOver(rows, t, sid, n), pk) ==
      if pk in Keys(rows[..n]) && StagedAt(rows, sid, pk).Some? then StagedAt(rows, sid, pk).value.0 else Lookup(t, pk)
    decreases n
  {
    if n > 0 {
      OverlayOverAt(rows, t, sid, n - 1, pk);
      assert rows[..n] == rows[..n - 1] + [rows[n - 1]];
      KeysSnoc(rows[..n - 1], rows[n - 1]);
    }
  }

  lemma {:induction false} SessionViewAt(rows: seq<Version>, chain: Chain, sid: nat, pk: PK)
    ensures Lookup(SessionView(rows, chain, sid), pk) == SessionLive(rows, chain, sid, pk)
  {
    OverlayOverAt(rows, View(rows, chain), sid, |rows|, pk);
    ViewAt(rows, chain, pk);
    assert rows[..|rows|] == rows;
    assert FirstStaged(rows, sid, pk) >= 0 ==> rows[FirstStaged(rows, sid, pk)].pk in Keys(rows);
  }

  /** All of the session's rows are on its branch, at most one per key. */
  ghost predicate StagedOnce(rows: seq<Version>, sid: nat, b: Name) {
    && (forall i :: 0 <= i < |rows| && rows[i].session == sid ==> rows[i].branch == b)
    && (forall i, j :: 0 <= i < j < |rows| && rows[i].session == sid && rows[j].session == sid ==> rows[i].pk != rows[j].pk)
  }

  // ----- changes that leave every committed row alone -----

  /** Only staged rows were replaced or appended. */
  ghost predicate StagedOnly(rows: seq<Version>, rows': seq<Version>) {
    && |rows| <= |rows'|
    && (forall i :: 0 <= i < |rows| && rows[i].session == 0 ==> rows'[i] == rows[i])
    && (forall i :: 0 <= i < |rows'| && (i >= |rows| || rows[i].session != 0) ==> rows'[i].session != 0)
  }

  /** Same readings everywhere: the two stores differ only in staged rows. */
  ghost predicate SameCommitted(rows: seq<Version>, rows': seq<Version>) {
    && (forall b, s, pk :: At(rows', b, s, pk) == At(rows, b, s, pk))
    && (forall b, lo, hi, pk, c :: Touched(rows', b, lo, hi, pk, c) <==> Touched(rows, b, lo, hi, pk, c))
  }

  lemma {:induction false} StagedOnlyAt(rows: seq<Version>, rows': seq<Version>, b: Name, s: int, pk: PK)
    requires StagedOnly(rows, rows')
    ensures At(rows', b, s, pk) == At(rows, b, s, pk)
  {
    var f, f' := FirstCover(rows, b, s, pk), FirstCover(rows', b, s, pk);
    FirstCoverIsFirst(rows, b, s, pk);
    FirstCoverIsFirst(rows', b, s, pk);
    assert f >= 0 ==> Covers(rows'[f], b, s, pk);
    assert f' >= 0 ==> f' < |rows| && Covers(rows[f'], b, s, pk);
  }

  lemma {:induction false} StagedOnlyKeeps(rows: seq<Version>, rows': seq<Version>, heads: map<Name, int>)
    requires StagedOnly(rows, rows') && Tiled(rows, heads)
    ensures SameCommitted(rows, rows') && Tiled(rows', heads)
  {
    forall b, s, pk {
      StagedOnlyAt(rows, rows', b, s, pk);
    }
    forall b, lo, hi, pk, c
      ensures Touched(rows', b, lo, hi, pk, c) <==> Touched(rows, b, lo, hi, pk, c)
    {
      if Touched(rows, b, lo, hi, pk, c) {
        var i :| 0 <= i < |rows| && Committed(rows[i], b, pk) && lo < rows[i].from <= hi && c in rows[i].changed;
        assert rows'[i] == rows[i];
      }
      if Touched(rows', b, lo, hi, pk, c) {
        var i :| 0 <= i < |rows'| && Committed(rows'[i], b, pk) && lo < rows'[i].from <= hi && c in rows'[i].changed;
        assert rows'[i] == rows[i];
      }
    }
    forall i | 0 <= i < |rows'|
      ensures InRange(rows'[i], heads)
    {
      assert i < |rows| ==> InRange(rows[i], heads);
    }
    forall i, j | 0 <= i < j < |rows'| && rows'[i].session == 0 && Committed(rows'[j], rows'[i].branch, rows'[i].pk)
      ensures !Overlap(rows'[i], rows'[j])
    {
      assert rows'[i] == rows[i] && rows'[j] == rows[j];
    }
  }

  // ----- abandoning: dropping the staged rows -----

  function Drop(rows: seq<Version>, sid: nat): seq<Version> {
    if rows == [] then []
    else
      var rest := Drop(rows[..|rows| - 1], sid);
      var last := rows[|rows| - 1];
      if last.session == sid then rest else rest + [last]
  }

  lemma {:induction false} DropMembers(rows: seq<Version>, sid: nat)
    ensures forall v :: v in Drop(rows, sid) <==> v in rows && v.session != sid
  {
    if rows != [] {
      var n := |rows| - 1;
      DropMembers(rows[..n], sid);
      assert rows == rows[..n] + [rows[n]];
    }
  }

  lemma {:induction false} AtSnoc(rows: seq<Version>, v: Version, b: Name, s: int, pk: PK)
    ensures At(rows + [v], b, s, pk) ==
      if At(rows, b, s, pk).Some? then At(rows, b, s, pk)
      else if Covers(v, b, s, pk) then Some(Image(v)) else None
  {
    assert (rows + [v])[..|rows|] == rows;
  }

  lemma {:induction false} DropAt(rows: seq<Version>, sid: nat, b: Name, s: int, pk: PK)
    requires sid != 0
    ensures At(Drop(rows, sid), b, s, pk) == At(rows, b, s, pk)
  {
    if rows != [] {
      var n := |rows| - 1;
      DropAt(rows[..n], sid, b, s, pk);
      AtSnoc(Drop(rows[..n], sid), rows[n], b, s, pk);
      AtSnoc(rows[..n], rows[n], b, s, pk);
      assert rows == rows[..n] + [rows[n]];
    }
  }

  lemma {:induction false} DropDisjoint(rows: seq<Version>, sid: nat)
    requires Disjoint(rows)
    ensures Disjoint(Drop(rows, sid))
  {
    if rows != [] {
      var n := |rows| - 1;
      var rest := Drop(rows[..n], sid);
      assert forall i :: 0 <= i < n ==> rows[..n][i] == rows[i];
      DropDisjoint(rows[..n], sid);
      DropMembers(rows[..n], sid);
      forall i | 0 <= i < |rest| && rest[i].session == 0 && Committed(rows[n], rest[i].branch, rest[i].pk)
        ensures !Overlap(rest[i], rows[n])
      {
        assert rest[i] in rest;
        var j :| 0 <= j < n && rows[..n][j] == rest[i];
        assert rows[j] == rest[i];
      }
    }
  }

  lemma {:induction false} DropKeeps(rows: seq<Version>, sid: nat, heads: map<Name, int>)
    requires sid != 0 && Tiled(rows, heads)
    ensures SameCommitted(rows, Drop(rows, sid)) && Tiled(Drop(rows, sid), heads)
  {
    var r := Drop(rows, sid);
    DropMembers(rows, sid);
    DropDisjoint(rows, sid);
    forall b, s, pk {
      DropAt(rows, sid, b, s, pk);
    }
    forall b, lo, hi, pk, c
      ensures Touched(r, b, lo, hi, pk, c) <==> Touched(rows, b, lo, hi, pk, c)
    {
      if Touched(rows, b, lo, hi, pk, c) {
        var i :| 0 <= i < |rows| && Committed(rows[i], b, pk) && lo < rows[i].from <= hi && c in rows[i].changed;
        assert rows[i] in r;
      }
      if Touched(r, b, lo, hi, pk, c) {
        var i :| 0 <= i < |r| && Committed(r[i], b, pk) && lo < r[i].from <= hi && c in r[i].changed;
        assert r[i] in rows;
      }
    }
    forall i | 0 <= i < |r|
      ensures InRange(r[i], heads)
    {
      assert r[i] in rows;
    }
  }

  lemma {:induction false} StagedSnoc(rows: seq<Version>, v: Version, sid: nat, pk: PK)
    ensures StagedAt(rows + [v], sid, pk) ==
      if StagedAt(rows, sid, pk).Some? then StagedAt(rows, sid, pk)
      else if Staged(v, sid, pk) then Some((Image(v), v.changed)) else None
  {
    assert (rows + [v])[..|rows|] == rows;
  }

  lemma {:induction false} DropStaged(rows: seq<Version>, sid: nat, other: nat, pk: PK)
    requires sid != other
    ensures StagedAt(Drop(rows, sid), other, pk) == StagedAt(rows, other, pk)
  {
    if rows != [] {
      var n := |rows| - 1;
      DropStaged(rows[..n], sid, other, pk);
      StagedSnoc(Drop(rows[..n], sid), rows[n], other, pk);
      StagedSnoc(rows[..n], rows[n], other, pk);
      assert rows == rows[..n] + [rows[n]];
    }
  }

  // ----- committing: closing what the staged rows replace, then stamping them -----

  function CloseAll(rows: seq<Version>, b: Name, pks: seq<PK>, at: int): (r: seq<Version>)
    ensures |r| == |rows|
    decreases |pks|
  {
    if pks == [] then rows else Close(CloseAll(rows, b, pks[..|pks| - 1], at), b, pks[|pks| - 1], at)
  }

  function StampOne(v: Version, sid: nat, id: nat, n: int): Version {
    if v.session == sid then v.(session := 0, commit := id, from := n, to := MAX_SEQ) else v
  }

  function Stamp(rows: seq<Version>, sid: nat, id: nat, n: int): (r: seq<Version>)
    ensures |r| == |rows|
    ensures forall i :: 0 <= i < |rows| ==> r[i] == StampOne(rows[i], sid, id, n)
  {
    seq(|rows|, i requires 0 <= i < |rows| => StampOne(rows[i], sid, id, n))
  }

  function StagedKeys(rows: seq<Version>, sid: nat): set<PK> {
    set i | 0 <= i < |rows| && rows[i].session == sid :: rows[i].pk
  }

  /** Closing several keys only shortens open versions of those keys. */
  ghost predicate Shortened(rows: seq<Version>, r: seq<Version>, b: Name, pks: set<PK>, at: int) {
    && |r| == |rows|
    && forall i :: 0 <= i < |rows| ==>
      r[i] == rows[i] || (OpenFor(rows[i], b, rows[i].pk) && rows[i].pk in pks && r[i] == rows[i].(to := at))
  }

  lemma {:induction false} CloseAllShortens(rows: seq<Version>, b: Name, pks: seq<PK>, at: int, s: set<PK>)
    requires forall pk :: pk in pks ==> pk in s
    requires at != MAX_SEQ
    ensures Shortened(rows, CloseAll(rows, b, pks, at), b, s, at)
    decreases |pks|
  {
    if pks != [] {
      var k := |pks| - 1;
      assert pks[k] in pks;
      CloseAllShortens(rows, b, pks[..k], at, s);
      CloseShrinks(CloseAll(rows, b, pks[..k], at), b, pks[k], at);
    }
  }

  /** After closing, no listed key has an open version left. */
  lemma {:induction false} CloseAllCloses(rows: seq<Version>, b: Name, pks: seq<PK>, at: int, heads: map<Name, int>, i: int)
    requires Tiled(rows, heads) && at < MAX_SEQ
    requires 0 <= i < |rows| && OpenFor(rows[i], b, rows[i].pk) && rows[i].pk in pks
    ensures CloseAll(rows, b, pks, at)[i].to == at
    decreases |pks|
  {
    var k := |pks| - 1;
    var mid := CloseAll(rows, b, pks[..k], at);
    CloseAllShortens(rows, b, pks[..k], at, set pk | pk in pks);
    CloseShrinks(mid, b, pks[k], at);
    if rows[i].pk in pks[..k] {
      CloseAllCloses(rows, b, pks[..k], at, heads, i);
    } else {
      assert pks == pks[..k] + [pks[k]];
      CloseAllShortens(rows, b, pks[..k], at, set pk | pk in pks[..k]);
      var f := FirstOpen(mid, b, pks[k]);
      FirstOpenIsFirst(mid, b, pks[k]);
      assert mid[i] == rows[i];
      assert InRange(rows[i], heads) && InRange(rows[f], heads);
      assert f < i ==> !Overlap(rows[f], rows[i]);
    }
  }

  /** Publishing a session: close the open versions its rows replace, then turn
      the staged rows into versions of the new commit. */
  ghost function Publish(rows: seq<Version>, b: Name, sid: nat, id: nat, n: int): seq<Version> {
    Stamp(CloseAll(rows, b, SortedKeys(StagedKeys(rows, sid)), n), sid, id, n)
  }

  /** What publishing does to each row: a staged row is stamped, an open version
      of a staged key is closed, every other row stays. */
  ghost predicate Published(rows: seq<Version>, r: seq<Version>, b: Name, sid: nat, id: nat, n: int) {
    && |r| == |rows|
    && (forall i :: 0 <= i < |rows| && rows[i].session == sid ==> r[i] == StampOne(rows[i], sid, id, n))
    && (forall i :: 0 <= i < |rows| && rows[i].session != sid ==>
          r[i] == if OpenFor(rows[i], b, rows[i].pk) && rows[i].pk in StagedKeys(rows, sid) then rows[i].(to := n) else rows[i])
  }

  lemma {:induction false} PublishIsPublished(rows: seq<Version>, b: Name, sid: nat, id: nat, n: int, heads: map<Name, int>)
    requires sid != 0 && Tiled(rows, heads) && n < MAX_SEQ
    ensures Published(rows, Publish(rows, b, sid, id, n), b, sid, id, n)
  {
    var s := StagedKeys(rows, sid);
    var ks := SortedKeys(s);
    CloseAllShortens(rows, b, ks, n, s);
    forall i | 0 <= i < |rows| && OpenFor(rows[i], b, rows[i].pk) && rows[i].pk in s
      ensures CloseAll(rows, b, ks, n)[i] == rows[i].(to := n)
    {
      CloseAllCloses(rows, b, ks, n, heads, i);
    }
  }

  lemma {:induction false} PublishedTiled(rows: seq<Version>, r: seq<Version>, b: Name, sid: nat, id: nat, n: int, heads: map<Name, int>)
    requires sid != 0 && Tiled(rows, heads) && StagedOnce(rows, sid, b) && Published(rows, r, b, sid, id, n)
    requires b in heads && heads[b] == n && 1 <= n < MAX_SEQ
    requires forall pk :: Untouched(rows, b, n, pk)
    ensures Tiled(r, heads)
  {
    forall i | 0 <= i < |r|
      ensures InRange(r[i], heads)
      ensures rows[i].session == 0 && rows[i].branch == b && rows[i].pk in StagedKeys(rows, sid) ==> r[i].to <= n
    {
      assert InRange(rows[i], heads);
      assert Untouched(rows, b, n, rows[i].pk);
    }
    forall i, j | 0 <= i < j < |r| && r[i].session == 0 && Committed(r[j], r[i].branch, r[i].pk)
      ensures !Overlap(r[i], r[j])
    {
      assert rows[i].session == sid ==> rows[i].pk in StagedKeys(rows, sid);
      assert rows[j].session == sid ==> rows[j].pk in StagedKeys(rows, sid);
      if rows[i].session == 0 && rows[j].session == 0 {
        assert !Overlap(rows[i], rows[j]);
        assert InRange(rows[i], heads) && InRange(rows[j], heads);
      }
    }
  }

  lemma {:induction false} PublishedAtBelow(rows: seq<Version>, r: seq<Version>, b: Name, sid: nat, id: nat, n: int, heads: map<Name, int>, b': Name, s: int, pk: PK)
    requires sid != 0 && Tiled(rows, heads) && StagedOnce(rows, sid, b) && Published(rows, r, b, sid, id, n) && Disjoint(r)
    requires n < MAX_SEQ && (b' != b || s < n || pk !in StagedKeys(rows, sid))
    ensures At(r, b', s, pk) == At(rows, b', s, pk)
  {
    var f := FirstCover(rows, b', s, pk);
    if f >= 0 {
      AtIs(r, f, b', s, pk);
    } else {
      FirstCoverIsFirst(rows, b', s, pk);
      forall i | 0 <= i < |r|
        ensures !Covers(r[i], b', s, pk)
      {
        assert rows[i].session == sid ==> rows[i].pk in StagedKeys(rows, sid);
      }
      AtIsNone(r, b', s, pk);
    }
  }

  lemma {:induction false} PublishedTouched(rows: seq<Version>, r: seq<Version>, b: Name, sid: nat, id: nat, n: int, b': Name, lo: int, hi: int, pk: PK, c: ColID)
    requires sid != 0 && StagedOnce(rows, sid, b) && Published(rows, r, b, sid, id, n)
    ensures Touched(rows, b', lo, hi, pk, c) ==> Touched(r, b', lo, hi, pk, c)
    ensures b' != b || hi < n ==> (Touched(r, b', lo, hi, pk, c) ==> Touched(rows, b', lo, hi, pk, c))
  {
    if Touched(rows, b', lo, hi, pk, c) {
      var i :| 0 <= i < |rows| && Committed(rows[i], b', pk) && lo < rows[i].from <= hi && c in rows[i].changed;
      assert Committed(r[i], b', pk) && lo < r[i].from <= hi && c in r[i].changed;
    }
    if Touched(r, b', lo, hi, pk, c) && (b' != b || hi < n) {
      var i :| 0 <= i < |r| && Committed(r[i], b', pk) && lo < r[i].from <= hi && c in r[i].changed;
      assert Committed(rows[i], b', pk) && lo < rows[i].from <= hi && c in rows[i].changed;
    }
  }

  /** Publishing keeps the tiling and changes nothing below the new seq. */
  lemma {:induction false} PublishedSame(rows: seq<Version>, r: seq<Version>, b: Name, sid: nat, id: nat, n: int, heads: map<Name, int>)
    requires sid != 0 && Tiled(rows, heads) && StagedOnce(rows, sid, b) && Published(rows, r, b, sid, id, n)
    requires b in heads && heads[b] == n && 1 <= n < MAX_SEQ
    requires forall pk :: Untouched(rows, b, n, pk)
    ensures Tiled(r, heads) && SameBelow(rows, r, b, n)
  {
    PublishedTiled(rows, r, b, sid, id, n, heads);
    forall b', s, pk | b' != b || s < n
      ensures At(r, b', s, pk) == At(rows, b', s, pk)
    {
      PublishedAtBelow(rows, r, b, sid, id, n, heads, b', s, pk);
    }
    forall b', lo, hi, pk, c {
      PublishedTouched(rows, r, b, sid, id, n, b', lo, hi, pk, c);
    }
  }

  /** At the new seq a staged key reads as it was staged and any other as before. */
  lemma {:induction false} PublishedAt(rows: seq<Version>, r: seq<Version>, b: Name, sid: nat, id: nat, n: int, heads: map<Name, int>, pk: PK)
    requires sid != 0 && Tiled(rows, heads) && StagedOnce(rows, sid, b) && Published(rows, r, b, sid, id, n) && Disjoint(r)
    requires n < MAX_SEQ
    ensures var f := FirstStaged(rows, sid, pk);
      At(r, b, n, pk) == if f >= 0 then Some(Image(rows[f])) else At(rows, b, n, pk)
  {
    var f := FirstStaged(rows, sid, pk);
    if f >= 0 {
      AtIs(r, f, b, n, pk);
    } else {
      FirstStagedIsFirst(rows, sid, pk);
      PublishedAtBelow(rows, r, b, sid, id, n, heads, b, n, pk);
    }
  }

  /** The accumulated mask of a staged row becomes part of the branch's masks. */
  lemma {:induction false} PublishedMask(rows: seq<Version>, r: seq<Version>, b: Name, sid: nat, id: nat, n: int, lo: int, pk: PK, c: ColID)
    requires sid != 0 && StagedOnce(rows, sid, b) && Published(rows, r, b, sid, id, n) && lo < n
    requires FirstStaged(rows, sid, pk) >= 0 && c in rows[FirstStaged(rows, sid, pk)].changed
    ensures Touched(r, b, lo, n, pk, c)
  {
    var f := FirstStaged(rows, sid, pk);
    assert Committed(r[f], b, pk) && lo < r[f].from <= n && c in r[f].changed;
  }

  /** Publishing keeps every closed version followed by the next one. */
  lemma {:induction false} PublishedFollowed(rows: seq<Version>, r: seq<Version>, b: Name, sid: nat, id: nat, n: int)
    requires sid != 0 && StagedOnce(rows, sid, b) && Published(rows, r, b, sid, id, n) && Followed(rows)
    ensures Followed(r)
  {
    forall i | 0 <= i < |r| && r[i].session == 0 && r[i].to != MAX_SEQ
      ensures FollowedAt(r, i)
    {
      if r[i] != rows[i] {
        var j :| 0 <= j < |rows| && rows[j].session == sid && rows[j].pk == rows[i].pk;
        assert Committed(r[j], r[i].branch, r[i].pk) && r[j].from == r[i].to;
      } else {
        assert FollowedAt(rows, i);
        var j :| 0 <= j < |rows| && Committed(rows[j], rows[i].branch, rows[i].pk) && rows[j].from == rows[i].to;
        assert Committed(r[j], r[i].branch, r[i].pk) && r[j].from == r[i].to;
      }
    }
  }

  // ----- which rows are staged, and by whom -----

  /** No session stages a key twice. */
  ghost predicate StagedUnique(rows: seq<Version>) {
    forall i, j :: 0 <= i < j < |rows| && rows[i].session != 0 && rows[j].session == rows[i].session ==> rows[i].pk != rows[j].pk
  }

  /** Every staged row belongs to one of the given open sessions and its branch. */
  ghost predicate StagedOwned(rows: seq<Version>, owner: map<nat, Name>) {
    forall i :: 0 <= i < |rows| && rows[i].session != 0 ==> rows[i].session in owner && rows[i].branch == owner[rows[i].session]
  }

  lemma {:induction false} OwnedOnce(rows: seq<Version>, owner: map<nat, Name>, sid: nat)
    requires StagedUnique(rows) && StagedOwned(rows, owner) && sid != 0 && sid in owner
    ensures StagedOnce(rows, sid, owner[sid])
  {
  }

  /** The masks of every row stay inside the schema. */
  ghost predicate MasksWithin(rows: seq<Version>, cols: set<ColID>) {
    forall i :: 0 <= i < |rows| ==> rows[i].changed <= cols
  }

  /** Committed rows were closed or appended; staged rows stayed as they were. */
  ghost predicate CommittedOnly(rows: seq<Version>, rows': seq<Version>) {
    && |rows| <= |rows'|
    && (forall i :: 0 <= i < |rows| && rows[i].session != 0 ==> rows'[i] == rows[i])
    && (forall i :: 0 <= i < |rows'| && (i >= |rows| || rows[i].session == 0) ==> rows'[i].session == 0)
  }

  lemma {:induction false} CommittedOnlyStaged(rows: seq<Version>, rows': seq<Version>, owner: map<nat, Name>)
    requires CommittedOnly(rows, rows') && StagedUnique(rows) && StagedOwned(rows, owner)
    ensures StagedUnique(rows') && StagedOwned(rows', owner)
    ensures forall sid, pk :: sid != 0 ==> StagedAt(rows', sid, pk) == StagedAt(rows, sid, pk)
  {
    forall sid: nat, pk | sid != 0
      ensures StagedAt(rows', sid, pk) == StagedAt(rows, sid, pk)
    {
      var f, f' := FirstStaged(rows, sid, pk), FirstStaged(rows', sid, pk);
      FirstStagedIsFirst(rows, sid, pk);
      FirstStagedIsFirst(rows', sid, pk);
      assert f >= 0 ==> Staged(rows'[f], sid, pk);
      assert f' >= 0 ==> f' < |rows| && Staged(rows[f'], sid, pk);
    }
    forall i | 0 <= i < |rows'| && rows'[i].session != 0
      ensures i < |rows| && rows'[i] == rows[i]
    {
    }
  }

  lemma {:induction false} WriteCommittedOnly(rows: seq<Version>, v: Version, b: Name, n: int, cols: set<ColID>)
    requires FreshFor(v, b, n) && v.changed <= cols && MasksWithin(rows, cols)
    ensures CommittedOnly(rows, Write(rows, v)) && MasksWithin(Write(rows, v), cols)
  {
    CloseShrinks(rows, v.branch, v.pk, v.from);
  }

  lemma {:induction false} CommittedOnlyOn(r0: seq<Version>, r1: seq<Version>, r2: seq<Version>)
    requires CommittedOnly(r0, r1) && CommittedOnly(r1, r2)
    ensures CommittedOnly(r0, r2)
  {
  }

  lemma {:induction false} WriteAllCommittedOnly(rows: seq<Version>, vs: seq<Version>, b: Name, n: int, cols: set<ColID>)
    requires Batch(vs, b, n) && MasksWithin(rows, cols) && MasksWithin(vs, cols)
    ensures CommittedOnly(rows, WriteAll(rows, vs)) && MasksWithin(WriteAll(rows, vs), cols)
    decreases |vs|
  {
    if vs != [] {
      var k := |vs| - 1;
      var init := vs[..k];
      assert forall i :: 0 <= i < |init| ==> init[i] == vs[i];
      WriteAllCommittedOnly(rows, init, b, n, cols);
      WriteCommittedOnly(WriteAll(rows, init), vs[k], b, n, cols);
      CommittedOnlyOn(rows, WriteAll(rows, init), WriteAll(rows, vs));
    }
  }

  lemma {:induction false} PublishedStaged(rows: seq<Version>, r: seq<Version>, b: Name, sid: nat, id: nat, n: int, owner: map<nat, Name>)
    requires sid != 0 && Published(rows, r, b, sid, id, n) && StagedUnique(rows) && StagedOwned(rows, owner)
    ensures StagedUnique(r) && StagedOwned(r, owner - {sid})
    ensures forall other, pk :: other != 0 && other != sid ==> StagedAt(r, other, pk) == StagedAt(rows, other, pk)
    ensures forall cols :: MasksWithin(rows, cols) ==> MasksWithin(r, cols)
  {
    forall i | 0 <= i < |r| && r[i].session != 0
      ensures r[i] == rows[i] && rows[i].session != sid
    {
    }
    forall other: nat, pk | other != 0 && other != sid
      ensures StagedAt(r, other, pk) == StagedAt(rows, other, pk)
    {
      var f, f' := FirstStaged(rows, other, pk), FirstStaged(r, other, pk);
      FirstStagedIsFirst(rows, other, pk);
      FirstStagedIsFirst(r, other, pk);
      assert f >= 0 ==> Staged(r[f], other, pk);
      assert f' >= 0 ==> Staged(rows[f'], other, pk);
    }
    forall cols | MasksWithin(rows, cols)
      ensures MasksWithin(r, cols)
    {
      forall i | 0 <= i < |r|
        ensures r[i].changed <= cols
      {
        assert r[i].changed == rows[i].changed;
      }
    }
  }

  lemma {:induction false} DropUnique(rows: seq<Version>, sid: nat)
    requires StagedUnique(rows)
    ensures StagedUnique(Drop(rows, sid))
  {
    if rows != [] {
      var n := |rows| - 1;
      var rest := Drop(rows[..n], sid);
      assert forall i :: 0 <= i < n ==> rows[..n][i] == rows[i];
      DropUnique(rows[..n], sid);
      DropMembers(rows[..n], sid);
      forall i | 0 <= i < |rest| && rest[i].session != 0 && rows[n].session == rest[i].session
        ensures rest[i].pk != rows[n].pk
      {
        assert rest[i] in rest;
        var j :| 0 <= j < n && rows[..n][j] == rest[i];
        assert rows[j] == rest[i];
      }
    }
  }

  lemma {:induction false} DropOwned(rows: seq<Version>, sid: nat, owner: map<nat, Name>, cols: set<ColID>)
    requires sid != 0 && StagedUnique(rows) && StagedOwned(rows, owner) && MasksWithin(rows, cols)
    ensures StagedUnique(Drop(rows, sid)) && StagedOwned(Drop(rows, sid), owner - {sid}) && MasksWithin(Drop(rows, sid), cols)
    ensures forall other, pk :: other != sid ==> StagedAt(Drop(rows, sid), other, pk) == StagedAt(rows, other, pk)
  {
    DropUnique(rows, sid);
    DropMembers(rows, sid);
    var r := Drop(rows, sid);
    forall i | 0 <= i < |r|
      ensures r[i] in rows && r[i].session != sid
    {
      assert r[i] in r;
    }
    forall other: nat, pk | other != sid {
      DropStaged(rows, sid, other, pk);
    }
  }

  // ----- staging one key -----

  /** Staging one key: the session's row for it is replaced, its mask accumulated,
      or a first staged row is appended. */
  function StageRow(rows: seq<Version>, sid: nat, b: Name, n: int, pk: PK, op: Op, row: Row, mask: set<ColID>): seq<Version> {
    var i := FirstStaged(rows, sid, pk);
    if i >= 0 then rows[i := rows[i].(op := op, row := row, changed := rows[i].changed + mask)]
    else rows + [Version(b, pk, n, MAX_SEQ, op, 0, sid, mask, row)]
  }

  /** Staging a key touches no committed row and no other session, and accumulates
      the key's mask. */
  lemma {:induction false} StageRowEffect(rows: seq<Version>, sid: nat, b: Name, n: int, pk: PK, op: Op, row: Row, mask: set<ColID>,
      owner: map<nat, Name>, cols: set<ColID>)
    requires sid != 0 && sid in owner && owner[sid] == b
    requires StagedUnique(rows) && StagedOwned(rows, owner) && MasksWithin(rows, cols) && mask <= cols
    ensures var r := StageRow(rows, sid, b, n, pk, op, row, mask);
      && StagedOnly(rows, r) && StagedUnique(r) && StagedOwned(r, owner) && MasksWithin(r, cols)
  {
    var r := StageRow(rows, sid, b, n, pk, op, row, mask);
    FirstStagedIsFirst(rows, sid, pk);
    forall i, j | 0 <= i < j < |r| && r[i].session != 0 && r[j].session == r[i].session
      ensures r[i].pk != r[j].pk
    {
      assert j < |rows| ==> rows[i].pk != rows[j].pk;
    }
  }

  lemma {:induction false} StageRowStaged(rows: seq<Version>, sid: nat, b: Name, n: int, pk: PK, op: Op, row: Row, mask: set<ColID>, other: nat, k: PK)
    requires sid != 0
    ensures var r := StageRow(rows, sid, b, n, pk, op, row, mask);
      StagedAt(r, other, k) ==
        if other == sid && k == pk then
          Some((if op == Delete then None else Some(row),
            (if StagedAt(rows, sid, pk).Some? then StagedAt(rows, sid, pk).value.1 else {}) + mask))
        else StagedAt(rows, other, k)
  {
    var r := StageRow(rows, sid, b, n, pk, op, row, mask);
    var i := FirstStaged(rows, sid, pk);
    if i < 0 {
      StagedSnoc(rows, r[|rows|], other, k);
      assert {} + mask == mask;
    } else {
      var f, f' := FirstStaged(rows, other, k), FirstStaged(r, other, k);
      FirstStagedIsFirst(rows, other, k);
      FirstStagedIsFirst(r, other, k);
      assert f >= 0 ==> Staged(r[f], other, k);
      assert f' >= 0 ==> Staged(rows[f'], other, k);
    }
  }
}
