/** What the loops over the version list hold part way, for the engine's scans: after each
    row and each segment the best version of every key so far, and after each row the
    columns changed so far. */
module Scans {
  import opened Wrappers
  import opened Core
  import opened Versions
  import opened Staging
  import opened Lineage
  import E = IntervalMachine

  // ----- winners -----

  /** The version the chain's highest-priority covering segment has for the key. */
  ghost function ChainWinner(rows: seq<Version>, chain: Chain, pk: PK): Option<Version>
    decreases |chain|
  {
    if chain == [] then None
    else
      var last := chain[|chain| - 1];
      var above := ChainWinner(rows, chain[..|chain| - 1], pk);
      if above.Some? then above
      else
        var i := FirstCover(rows, last.branch, last.upto, pk);
        if i >= 0 then Some(rows[i]) else None
  }

  ghost function Winner(rows: seq<Version>, chain: Chain, sid: nat, pk: PK): Option<Version> {
    var i := FirstStaged(rows, sid, pk);
    if sid != 0 && i >= 0 then Some(rows[i]) else ChainWinner(rows, chain, pk)
  }

  lemma {:induction false} ChainWinnerFirst(rows: seq<Version>, chain: Chain, pk: PK)
    requires chain != []
    ensures var i := FirstCover(rows, chain[0].branch, chain[0].upto, pk);
      ChainWinner(rows, chain, pk) == if i >= 0 then Some(rows[i]) else ChainWinner(rows, chain[1..], pk)
    decreases |chain|
  {
    if |chain| > 1 {
      var init := chain[..|chain| - 1];
      ChainWinnerFirst(rows, init, pk);
      assert chain[1..][..|chain[1..]| - 1] == init[1..];
    } else {
      assert chain[..0] == [] && chain[1..] == [];
    }
  }

  /** The winner is what resolution reads, tombstones included. */
  lemma {:induction false} WinnerIsLive(rows: seq<Version>, chain: Chain, pk: PK)
    ensures Live(rows, chain, pk) == (if ChainWinner(rows, chain, pk).Some? then Image(ChainWinner(rows, chain, pk).value) else None)
    decreases |chain|
  {
    if chain != [] {
      ChainWinnerFirst(rows, chain, pk);
      WinnerIsLive(rows, chain[1..], pk);
    }
  }

  lemma {:induction false} FirstCoverSnoc(rows: seq<Version>, j: nat, b: Name, s: int, pk: PK)
    requires j < |rows|
    ensures FirstCover(rows[..j + 1], b, s, pk) ==
      if FirstCover(rows[..j], b, s, pk) >= 0 then FirstCover(rows[..j], b, s, pk)
      else if Covers(rows[j], b, s, pk) then j else -1
  {
    assert rows[..j + 1][..j] == rows[..j];
  }

  lemma {:induction false} FirstStagedSnoc(rows: seq<Version>, j: nat, sid: nat, pk: PK)
    requires j < |rows|
    ensures FirstStaged(rows[..j + 1], sid, pk) ==
      if FirstStaged(rows[..j], sid, pk) >= 0 then FirstStaged(rows[..j], sid, pk)
      else if Staged(rows[j], sid, pk) then j else -1
  {
    assert rows[..j + 1][..j] == rows[..j];
  }

  /** What the scan holds for a key after j rows of segment number p. */
  ghost function Scanned(rows: seq<Version>, chain: Chain, sid: nat, p: nat, j: nat, pk: PK): Option<Version>
    requires p <= |chain| && j <= |rows|
  {
    var above := Winner(rows, chain[..p], sid, pk);
    if above.Some? || p == |chain| then above
    else
      var i := FirstCover(rows[..j], chain[p].branch, chain[p].upto, pk);
      if i >= 0 then Some(rows[i]) else None
  }

  ghost predicate Holds(best: map<PK, Version>, pk: PK, w: Option<Version>) {
    if w.Some? then pk in best && best[pk] == w.value else pk !in best
  }

  lemma {:induction false} ScannedEnds(rows: seq<Version>, chain: Chain, sid: nat, p: nat, pk: PK)
    requires p < |chain|
    ensures Scanned(rows, chain, sid, p, 0, pk) == Winner(rows, chain[..p], sid, pk)
    ensures Scanned(rows, chain, sid, p, |rows|, pk) == Winner(rows, chain[..p + 1], sid, pk)
  {
    assert rows[..0] == [] && rows[..|rows|] == rows;
    assert chain[..p + 1][..p] == chain[..p];
  }

  lemma {:induction false} ScannedNext(rows: seq<Version>, chain: Chain, sid: nat, p: nat, j: nat, pk: PK)
    requires p < |chain| && j < |rows|
    ensures Scanned(rows, chain, sid, p, j + 1, pk) ==
            (if Scanned(rows, chain, sid, p, j, pk).Some? then Scanned(rows, chain, sid, p, j, pk)
             else if Covers(rows[j], chain[p].branch, chain[p].upto, pk) then Some(rows[j]) else None)
  {
    FirstCoverSnoc(rows, j, chain[p].branch, chain[p].upto, pk);
  }

  /** Considering one row for a key keeps the scan going: an unseen key takes the row. */
  lemma {:induction false} ScanStep(rows: seq<Version>, chain: Chain, sid: nat, p: nat, j: nat, was: map<PK, Version>, best: map<PK, Version>, pk: PK)
    requires p < |chain| && 0 < j <= |rows|
    requires Holds(was, pk, Scanned(rows, chain, sid, p, j - 1, pk))
    requires Considered(was, best, rows[j - 1], Covers(rows[j - 1], chain[p].branch, chain[p].upto, rows[j - 1].pk))
    ensures Holds(best, pk, Scanned(rows, chain, sid, p, j, pk))
  {
    ScannedNext(rows, chain, sid, p, j - 1, pk);
  }

  ghost predicate Considered(was: map<PK, Version>, best: map<PK, Version>, v: Version, hit: bool) {
    best == if hit && v.pk !in was then was[v.pk := v] else was
  }

  lemma {:induction false} StagedStep(rows: seq<Version>, sid: nat, j: nat, was: map<PK, Version>, best: map<PK, Version>, pk: PK)
    requires 0 < j <= |rows|
    requires Holds(was, pk, StagedWinner(rows, sid, j - 1, pk))
    requires Considered(was, best, rows[j - 1], rows[j - 1].session == sid)
    ensures Holds(best, pk, StagedWinner(rows, sid, j, pk))
  {
    StagedWinnerNext(rows, sid, j - 1, pk);
  }

  /** What the scan of the session's own rows holds for a key after j rows. */
  ghost function StagedWinner(rows: seq<Version>, sid: nat, j: nat, pk: PK): Option<Version>
    requires j <= |rows|
  {
    var i := FirstStaged(rows[..j], sid, pk);
    if i >= 0 then Some(rows[i]) else None
  }

  lemma {:induction false} StagedWinnerNext(rows: seq<Version>, sid: nat, j: nat, pk: PK)
    requires j < |rows|
    ensures StagedWinner(rows, sid, j + 1, pk) ==
            (if StagedWinner(rows, sid, j, pk).Some? then StagedWinner(rows, sid, j, pk)
             else if Staged(rows[j], sid, pk) then Some(rows[j]) else None)
  {
    FirstStagedSnoc(rows, j, sid, pk);
  }

  lemma {:induction false} StagedIsFirst(rows: seq<Version>, chain: Chain, sid: nat, pk: PK)
    ensures Winner(rows, chain[..0], sid, pk) == if sid != 0 then StagedWinner(rows, sid, |rows|, pk) else None
  {
    assert rows[..|rows|] == rows && chain[..0] == [];
  }

  /** A table that holds every winner, tombstones dropped, is the resolution. */
  lemma {:induction false} ResolvedIs(rows: seq<Version>, chain: Chain, sid: nat, t: Table)
    requires forall pk :: Lookup(t, pk) == (if Winner(rows, chain, sid, pk).Some? then Image(Winner(rows, chain, sid, pk).value) else None)
    ensures t == if sid == 0 then View(rows, chain) else SessionView(rows, chain, sid)
  {
    forall pk
      ensures Lookup(t, pk) == if sid == 0 then Live(rows, chain, pk) else SessionLive(rows, chain, sid, pk)
    {
      WinnerIsLive(rows, chain, pk);
    }
    if sid == 0 {
      ViewIs(rows, chain, t);
    } else {
      forall pk
        ensures Lookup(t, pk) == Lookup(SessionView(rows, chain, sid), pk)
      {
        SessionViewAt(rows, chain, sid, pk);
      }
      SameLookups(t, SessionView(rows, chain, sid));
    }
  }

  // ----- accumulateMask -----

  type Masks = map<PK, set<ColID>>

  function Bits(m: Masks, pk: PK): set<ColID> {
    if pk in m then m[pk] else {}
  }

  lemma {:induction false} TouchedSnoc(rows: seq<Version>, v: Version, b: Name, lo: int, hi: int, pk: PK, c: ColID)
    ensures Touched(rows + [v], b, lo, hi, pk, c) <==>
      Touched(rows, b, lo, hi, pk, c) || (Committed(v, b, pk) && lo < v.from <= hi && c in v.changed)
  {
    var r := rows + [v];
    if Touched(rows, b, lo, hi, pk, c) {
      var i :| 0 <= i < |rows| && Committed(rows[i], b, pk) && lo < rows[i].from <= hi && c in rows[i].changed;
      assert Committed(r[i], b, pk) && lo < r[i].from <= hi && c in r[i].changed;
    }
    if Committed(v, b, pk) && lo < v.from <= hi && c in v.changed {
      assert Committed(r[|rows|], b, pk) && lo < r[|rows|].from <= hi && c in r[|rows|].changed;
    }
  }

  // ----- maskSince -----

  lemma {:induction false} TouchedIsWritten(rows: seq<Version>, b: Name, lo: int, hi: int, pk: PK, c: ColID)
    requires Touched(rows, b, lo, hi, pk, c)
    ensures c in E.ChangedColumns(rows)
  {
  }

  lemma {:induction false} MaskIsWritten(rows: seq<Version>, now: Chain, base: Chain, pk: PK, c: ColID)
    requires MaskSince(rows, now, base, pk, c)
    ensures c in E.ChangedColumns(rows)
  {
    if i :| 0 <= i < |now| && SegmentMask(rows, now[i], Upper(base), pk, c) {
      var upper := Upper(base);
      if now[i].branch in upper {
        TouchedIsWritten(rows, now[i].branch, Min(upper[now[i].branch], now[i].upto), Max(upper[now[i].branch], now[i].upto), pk, c);
      } else {
        TouchedIsWritten(rows, now[i].branch, 0, now[i].upto, pk, c);
      }
    } else {
      var j :| 0 <= j < |base| && !Sees(now, base[j].branch) && Touched(rows, base[j].branch, 0, base[j].upto, pk, c);
      TouchedIsWritten(rows, base[j].branch, 0, base[j].upto, pk, c);
    }
  }

  /** What the walk over the current chain has gathered after i segments. */
  ghost predicate NowMask(rows: seq<Version>, now: Chain, upper: map<Name, int>, i: int, pk: PK, c: ColID) {
    exists k :: 0 <= k < i && k < |now| && SegmentMask(rows, now[k], upper, pk, c)
  }

  lemma {:induction false} NowMaskNext(rows: seq<Version>, now: Chain, upper: map<Name, int>, i: int, pk: PK, c: ColID)
    requires 0 <= i < |now|
    ensures NowMask(rows, now, upper, i + 1, pk, c) <==> NowMask(rows, now, upper, i, pk, c) || SegmentMask(rows, now[i], upper, pk, c)
  {
  }

  /** What the walk over the base chain has gathered after j segments. */
  ghost predicate BaseMask(rows: seq<Version>, now: Chain, base: Chain, j: int, pk: PK, c: ColID) {
    exists k :: 0 <= k < j && k < |base| && !Sees(now, base[k].branch) && Touched(rows, base[k].branch, 0, base[k].upto, pk, c)
  }

  lemma {:induction false} BaseMaskNext(rows: seq<Version>, now: Chain, base: Chain, j: int, pk: PK, c: ColID)
    requires 0 <= j < |base|
    ensures BaseMask(rows, now, base, j + 1, pk, c) <==>
            BaseMask(rows, now, base, j, pk, c) || (!Sees(now, base[j].branch) && Touched(rows, base[j].branch, 0, base[j].upto, pk, c))
  {
  }

  /** Both walks together gather maskSince. */
  lemma {:induction false} MaskGathered(rows: seq<Version>, now: Chain, base: Chain, pk: PK, c: ColID)
    ensures NowMask(rows, now, Upper(base), |now|, pk, c) || BaseMask(rows, now, base, |base|, pk, c) <==> MaskSince(rows, now, base, pk, c)
  {
  }
}
